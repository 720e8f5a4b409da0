/** The landing page's countdown to the mint start, 2025-09-03 17:00:00 UTC:
    the milliseconds left, clamped at zero, split into days, hours, minutes
    and seconds, each written in decimal, padded to two digits and joined by
    colons. The clock reading is a parameter. */
module Countdown {
  import opened Wrappers
  import opened JsText

  /** 2025-09-03T17:00:00Z in milliseconds since the Unix epoch. */
  const Target: int := 1756918800000

  const MsPerSecond: nat := 1000
  const MsPerMinute: nat := 60000      // 60 * 1000
  const MsPerHour: nat := 3600000      // 60 * 60 * 1000
  const MsPerDay: nat := 86400000      // 24 * 60 * 60 * 1000

  datatype Clock = Clock(days: nat, hours: nat, minutes: nat, seconds: nat)

  /** The milliseconds a clock reading stands for. */
  function Millis(c: Clock): nat {
    c.days * MsPerDay + c.hours * MsPerHour + c.minutes * MsPerMinute + c.seconds * MsPerSecond
  }

  /** Milliseconds until the target, never negative. */
  function TimeLeft(now: int): (r: nat)
    ensures now >= Target ==> r == 0
    ensures now < Target ==> now + r == Target
  {
    if Target - now > 0 then Target - now else 0
  }

  /** Taking the remainder by `big` first does not change the remainder by
      `small` when `small` divides `big`. */
  lemma NestedRemainder(x: nat, small: nat, k: nat)
    requires small > 0 && k > 0
    ensures x % (small * k) % small == x % small
  {
    var big := small * k;
    var q, r := x / big, x % big;
    var q2, r2 := r / small, r % small;
    assert x == q * big + r;
    assert r == q2 * small + r2;
    assert x == (q * k + q2) * small + r2;
    ModUnique(x, small, q * k + q2, r2);
  }

  /** The remainder is the unique `r` in `0..a-1` with `x == q * a + r`. */
  lemma ModUnique(x: nat, a: nat, q: int, r: int)
    requires a > 0 && 0 <= r < a && x == q * a + r
    ensures x % a == r
  {
    var q0, r0 := x / a, x % a;
    assert x == q0 * a + r0;
    assert (q - q0) * a == r0 - r;
    SmallMultiple(q - q0, a);
  }

  /** The only multiple of `a` strictly between `-a` and `a` is zero. */
  lemma SmallMultiple(e: int, a: int)
    requires a > 0 && -a < e * a < a
    ensures e == 0
  {
    if e >= 1 {
      MulAtLeast(e, a);
    }
  }

  lemma {:induction false} MulAtLeast(d: int, a: int)
    requires d >= 1 && a >= 0
    ensures d * a >= a
    decreases d
  {
    if d > 1 {
      MulAtLeast(d - 1, a);
      assert d * a == (d - 1) * a + a;
    }
  }

  lemma NestedRemainders(x: nat)
    ensures x % MsPerDay % MsPerHour == x % MsPerHour
    ensures x % MsPerHour % MsPerMinute == x % MsPerMinute
    ensures x % MsPerMinute % MsPerSecond == x % MsPerSecond
  {
    NestedRemainder(x, MsPerHour, 24);
    NestedRemainder(x, MsPerMinute, 60);
    NestedRemainder(x, MsPerSecond, 60);
  }

  /** The four fields of the countdown. */
  function Split(left: nat): (c: Clock)
    ensures c.hours < 24 && c.minutes < 60 && c.seconds < 60
    ensures Millis(c) <= left < Millis(c) + MsPerSecond
  {
    var c := Clock(left / MsPerDay, (left % MsPerDay) / MsPerHour, (left % MsPerHour) / MsPerMinute,
                   (left % MsPerMinute) / MsPerSecond);
    NestedRemainders(left);
    c
  }

  /** `n.toString().padStart(2, "0")`. */
  function Pad2(n: nat): string {
    PadStart(DecimalString(n), 2, '0')
  }

  function Format(c: Clock): string {
    Pad2(c.days) + ":" + Pad2(c.hours) + ":" + Pad2(c.minutes) + ":" + Pad2(c.seconds)
  }

  /** The text the countdown shows at time `now`. */
  function CountdownText(now: int): string {
    Format(Split(TimeLeft(now)))
  }

  // ---------------------------------------------------------------------------
  // Reading the text back
  // ---------------------------------------------------------------------------

  /** The colon-separated fields of a text. */
  function Fields(s: string): (r: seq<string>)
    ensures |r| >= 1
    decreases |s|
  {
    if |s| == 0 then [""]
    else if s[0] == ':' then [""] + Fields(s[1..])
    else
      var t := Fields(s[1..]);
      [[s[0]] + t[0]] + t[1..]
  }

  predicate NoColon(s: string) {
    forall i :: 0 <= i < |s| ==> s[i] != ':'
  }

  predicate IsNumber(s: string) {
    |s| > 0 && AllDigitsIn(s, 10)
  }

  /** Reads a countdown text: four colon-separated decimal numbers, hours,
      minutes and seconds in range. */
  function ReadClock(s: string): Option<Clock> {
    ReadFields(Fields(s))
  }

  /** Reads four decimal fields as a clock. */
  function ReadFields(f: seq<string>): Option<Clock> {
    if |f| == 4 && IsNumber(f[0]) && IsNumber(f[1]) && IsNumber(f[2]) && IsNumber(f[3]) then
      var c := Clock(ValueIn(f[0], 10), ValueIn(f[1], 10), ValueIn(f[2], 10), ValueIn(f[3], 10));
      if c.hours < 24 && c.minutes < 60 && c.seconds < 60 then Some(c) else None
    else None
  }

  lemma {:induction false} FieldsOfPlain(a: string)
    requires NoColon(a)
    ensures Fields(a) == [a]
    decreases |a|
  {
    if |a| > 0 {
      FieldsOfPlain(a[1..]);
      assert [a[0]] + a[1..] == a;
    }
  }

  lemma {:induction false} FieldsAppend(a: string, b: string)
    requires NoColon(a)
    ensures Fields(a + ":" + b) == [a] + Fields(b)
    decreases |a|
  {
    var s := a + ":" + b;
    if |a| == 0 {
      assert s == ":" + b;
      assert s[1..] == b;
    } else {
      assert s[0] == a[0];
      assert s[1..] == a[1..] + ":" + b;
      FieldsAppend(a[1..], b);
      assert [a[0]] + a[1..] == a;
    }
  }

  lemma DigitsHaveNoColon(s: string)
    requires AllDigitsIn(s, 10)
    ensures NoColon(s)
  {
    assert HexValue(':') == 16;
  }

  /** The padded field is a decimal number with the field's value, at least
      two digits long. */
  lemma Pad2Reads(n: nat)
    ensures IsNumber(Pad2(n)) && ValueIn(Pad2(n), 10) == n
    ensures |Pad2(n)| >= 2
  {
    var d := DecimalString(n);
    RadixRoundTrip(n, 10);
    if |d| < 2 {
      PadOne(d);
      LeadingZero(d, 10);
    }
  }

  lemma PadOne(d: string)
    requires |d| == 1
    ensures PadStart(d, 2, '0') == "0" + d
  {
    assert seq(1, _ => '0') == "0";
  }

  /** Zero is written as two zeros. */
  lemma Pad2Zero()
    ensures Pad2(0) == "00"
  {
    assert DecimalString(0) == "0";
    PadOne("0");
  }

  /** Four colon-free pieces joined by colons split back into those pieces. */
  lemma FieldsOfFour(a: string, b: string, m: string, s: string)
    requires NoColon(a) && NoColon(b) && NoColon(m) && NoColon(s)
    ensures Fields(a + ":" + b + ":" + m + ":" + s) == [a, b, m, s]
  {
    var ms := m + ":" + s;
    var bms := b + ":" + ms;
    JoinRegroup(a, b, m, s);
    FieldsOfPlain(s);
    FieldsAppend(m, s);
    var fms := Fields(ms);
    assert fms == [m, s];
    FieldsAppend(b, ms);
    var fbms := Fields(bms);
    assert fbms == [b] + fms;
    FieldsAppend(a, bms);
  }

  lemma JoinRegroup(a: string, b: string, m: string, s: string)
    ensures a + ":" + b + ":" + m + ":" + s == a + ":" + (b + ":" + (m + ":" + s))
  {
  }

  /** Four decimal fields joined by colons read back as the clock they
      denote, when hours, minutes and seconds are in range. */
  lemma ReadJoined(a: string, b: string, m: string, s: string)
    requires IsNumber(a) && IsNumber(b) && IsNumber(m) && IsNumber(s)
    requires ValueIn(b, 10) < 24 && ValueIn(m, 10) < 60 && ValueIn(s, 10) < 60
    ensures ReadClock(a + ":" + b + ":" + m + ":" + s)
            == Some(Clock(ValueIn(a, 10), ValueIn(b, 10), ValueIn(m, 10), ValueIn(s, 10)))
  {
    DigitsHaveNoColon(a);
    DigitsHaveNoColon(b);
    DigitsHaveNoColon(m);
    DigitsHaveNoColon(s);
    FieldsOfFour(a, b, m, s);
    var f := [a, b, m, s];
    assert Fields(a + ":" + b + ":" + m + ":" + s) == f;
    ReadFour(a, b, m, s);
  }

  /** Four decimal fields in range are read as the clock they denote. */
  lemma ReadFour(a: string, b: string, m: string, s: string)
    requires IsNumber(a) && IsNumber(b) && IsNumber(m) && IsNumber(s)
    requires ValueIn(b, 10) < 24 && ValueIn(m, 10) < 60 && ValueIn(s, 10) < 60
    ensures ReadFields([a, b, m, s]) == Some(Clock(ValueIn(a, 10), ValueIn(b, 10), ValueIn(m, 10), ValueIn(s, 10)))
  {
  }

  /** Reading back the countdown text yields the clock it was written from. */
  lemma FormatReadsBack(c: Clock)
    requires c.hours < 24 && c.minutes < 60 && c.seconds < 60
    ensures ReadClock(Format(c)) == Some(c)
  {
    Pad2Reads(c.days);
    Pad2Reads(c.hours);
    Pad2Reads(c.minutes);
    Pad2Reads(c.seconds);
    ReadJoined(Pad2(c.days), Pad2(c.hours), Pad2(c.minutes), Pad2(c.seconds));
  }

  /** The countdown text always reads back as a clock whose milliseconds are
      within one second below the time left. */
  lemma CountdownReadsBack(now: int)
    ensures ReadClock(CountdownText(now)).Some?
    ensures var c := ReadClock(CountdownText(now)).value;
      Millis(c) <= TimeLeft(now) < Millis(c) + MsPerSecond
  {
    FormatReadsBack(Split(TimeLeft(now)));
  }

  /** A clock reading of zero is written as four pairs of zeros. */
  lemma FormatZero(c: Clock)
    requires c.days == 0 && c.hours == 0 && c.minutes == 0 && c.seconds == 0
    ensures Format(c) == "00:00:00:00"
  {
    Pad2Zero();
    ZerosJoined(Pad2(c.days), Pad2(c.hours), Pad2(c.minutes), Pad2(c.seconds));
  }

  lemma ZerosJoined(a: string, b: string, m: string, s: string)
    requires a == b == m == s == "00"
    ensures a + ":" + b + ":" + m + ":" + s == "00:00:00:00"
  {
  }

  /** Once the target has passed the countdown stays at all zeros. */
  lemma PastTargetShowsZero(now: int)
    requires now >= Target
    ensures CountdownText(now) == "00:00:00:00"
  {
    FormatZero(Split(TimeLeft(now)));
  }
}
