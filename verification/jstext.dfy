/** The JavaScript string operations the application relies on, restricted to
    ASCII: `trim`, `toLowerCase`/`toUpperCase`, `startsWith`, `padStart` and
    the radix digits used by `toString` and `BigInt`.

    JavaScript's `trim` and case mapping are Unicode-aware; this model only
    treats the six ASCII whitespace characters as white space and only maps
    the ASCII letters. */
module JsText {

  /** The ASCII characters `String.prototype.trim` removes. */
  predicate IsSpace(c: char) {
    c == ' ' || c == '\t' || c == '\n' || c == '\r' || c == '\U{000B}' || c == '\U{000C}'
  }

  predicate AllSpace(s: string) {
    forall i :: 0 <= i < |s| ==> IsSpace(s[i])
  }

  /** `s.startsWith(p)`. */
  predicate StartsWith(s: string, p: string) {
    |p| <= |s| && s[..|p|] == p
  }

  // ---------------------------------------------------------------------------
  // Case mapping
  // ---------------------------------------------------------------------------

  function AsciiLower(c: char): char {
    if 'A' <= c <= 'Z' then (c as int + 32) as char else c
  }

  function AsciiUpper(c: char): char {
    if 'a' <= c <= 'z' then (c as int - 32) as char else c
  }

  /** `s.toLowerCase()` on ASCII letters. */
  function Lower(s: string): (r: string)
    ensures |r| == |s|
    ensures forall i :: 0 <= i < |s| ==> r[i] == AsciiLower(s[i])
  {
    seq(|s|, i requires 0 <= i < |s| => AsciiLower(s[i]))
  }

  /** `s.toUpperCase()` on ASCII letters. */
  function Upper(s: string): (r: string)
    ensures |r| == |s|
    ensures forall i :: 0 <= i < |s| ==> r[i] == AsciiUpper(s[i])
  {
    seq(|s|, i requires 0 <= i < |s| => AsciiUpper(s[i]))
  }

  /** Lower-casing forgets whether a string was upper-cased first. */
  lemma LowerOfUpper(s: string)
    ensures Lower(Upper(s)) == Lower(s)
  {
    assert forall i :: 0 <= i < |s| ==> AsciiLower(AsciiUpper(s[i])) == AsciiLower(s[i]);
  }

  /** A string with no ASCII capital letters is its own lower-case form. */
  lemma LowerOfLowercase(s: string)
    requires forall i :: 0 <= i < |s| ==> !('A' <= s[i] <= 'Z')
    ensures Lower(s) == s
  {
  }

  lemma LowerAppend(a: string, b: string)
    ensures Lower(a + b) == Lower(a) + Lower(b)
  {
  }

  lemma UpperAppend(a: string, b: string)
    ensures Upper(a + b) == Upper(a) + Upper(b)
  {
  }

  // ---------------------------------------------------------------------------
  // Trimming
  // ---------------------------------------------------------------------------

  /** Drops leading white space: the result is the suffix of `s` that starts
      at its first non-space character. */
  function TrimStart(s: string): (r: string)
    ensures |r| <= |s| && r == s[|s| - |r|..]
    ensures AllSpace(s[..|s| - |r|])
    ensures r == [] || !IsSpace(r[0])
    decreases |s|
  {
    if |s| > 0 && IsSpace(s[0]) then TrimStart(s[1..]) else s
  }

  /** Drops trailing white space: the result is the prefix of `s` that ends at
      its last non-space character. */
  function TrimEnd(s: string): (r: string)
    ensures |r| <= |s| && r == s[..|r|]
    ensures AllSpace(s[|r|..])
    ensures r == [] || !IsSpace(r[|r| - 1])
    decreases |s|
  {
    if |s| > 0 && IsSpace(s[|s| - 1]) then
      var r := TrimEnd(s[..|s| - 1]);
      assert forall i :: |r| <= i < |s| - 1 ==> s[..|s| - 1][i] == s[i];
      r
    else s
  }

  /** `s.trim()`. */
  function Trim(s: string): string {
    TrimEnd(TrimStart(s))
  }

  /** Leading white space is invisible to `TrimStart`. */
  lemma {:induction false} TrimStartSkipsSpace(w: string, y: string)
    requires AllSpace(w)
    ensures TrimStart(w + y) == TrimStart(y)
    decreases |w|
  {
    if |w| > 0 {
      assert (w + y)[0] == w[0];
      assert (w + y)[1..] == w[1..] + y;
      TrimStartSkipsSpace(w[1..], y);
    } else {
      assert w + y == y;
    }
  }

  /** Trailing white space is invisible to `TrimEnd`. */
  lemma {:induction false} TrimEndSkipsSpace(y: string, w: string)
    requires AllSpace(w)
    ensures TrimEnd(y + w) == TrimEnd(y)
    decreases |w|
  {
    if |w| > 0 {
      assert (y + w)[|y + w| - 1] == w[|w| - 1];
      assert (y + w)[..|y + w| - 1] == y + w[..|w| - 1];
      TrimEndSkipsSpace(y, w[..|w| - 1]);
    } else {
      assert y + w == y;
    }
  }

  /** Once a non-space character is reached, `TrimStart` keeps the rest. */
  lemma {:induction false} TrimStartAppend(x: string, w: string)
    requires !AllSpace(x)
    ensures TrimStart(x + w) == TrimStart(x) + w
    decreases |x|
  {
    if IsSpace(x[0]) {
      assert (x + w)[1..] == x[1..] + w;
      TrimStartAppend(x[1..], w);
    }
  }

  /** Surrounding a string with any white space does not change its trim. */
  lemma TrimPadded(w1: string, x: string, w2: string)
    requires AllSpace(w1) && AllSpace(w2)
    ensures Trim(w1 + x + w2) == Trim(x)
  {
    var xw := x + w2;
    assert w1 + x + w2 == w1 + xw;
    TrimStartSkipsSpace(w1, xw);
    if AllSpace(x) {
      assert AllSpace(xw);
      TrimStartAllSpace(xw);
      TrimStartAllSpace(x);
    } else {
      TrimStartAppend(x, w2);
      TrimEndSkipsSpace(TrimStart(x), w2);
    }
  }

  /** A text of white space only trims to nothing. */
  lemma {:induction false} TrimStartAllSpace(s: string)
    requires AllSpace(s)
    ensures TrimStart(s) == []
    decreases |s|
  {
    if |s| > 0 {
      assert IsSpace(s[0]);
      TrimStartAllSpace(s[1..]);
    }
  }

  lemma {:induction false} TrimStartUpper(s: string)
    ensures TrimStart(Upper(s)) == Upper(TrimStart(s))
    decreases |s|
  {
    if |s| > 0 {
      assert IsSpace(Upper(s)[0]) == IsSpace(s[0]);
      assert Upper(s)[1..] == Upper(s[1..]);
      TrimStartUpper(s[1..]);
    }
  }

  lemma {:induction false} TrimEndUpper(s: string)
    ensures TrimEnd(Upper(s)) == Upper(TrimEnd(s))
    decreases |s|
  {
    if |s| > 0 {
      assert IsSpace(Upper(s)[|s| - 1]) == IsSpace(s[|s| - 1]);
      assert Upper(s)[..|s| - 1] == Upper(s[..|s| - 1]);
      TrimEndUpper(s[..|s| - 1]);
    }
  }

  /** Upper-casing and trimming commute: case mapping never turns a space into
      a non-space or back. */
  lemma TrimUpper(s: string)
    ensures Trim(Upper(s)) == Upper(Trim(s))
  {
    TrimStartUpper(s);
    TrimEndUpper(TrimStart(s));
  }

  /** `TrimEnd` never cuts into a prefix that ends with a non-space character. */
  lemma {:induction false} TrimEndKeepsPrefix(s: string, p: string)
    requires StartsWith(s, p) && |p| > 0 && !IsSpace(p[|p| - 1])
    ensures StartsWith(TrimEnd(s), p)
    decreases |s|
  {
    if |s| > |p| && IsSpace(s[|s| - 1]) {
      assert s[..|s| - 1][..|p|] == s[..|p|];
      TrimEndKeepsPrefix(s[..|s| - 1], p);
    } else if |s| == |p| {
      assert s == p;
    }
  }

  /** Trimming keeps a prefix that starts and ends with non-space characters. */
  lemma TrimKeepsPrefix(p: string, rest: string)
    requires |p| > 0 && !IsSpace(p[0]) && !IsSpace(p[|p| - 1])
    ensures StartsWith(Trim(p + rest), p)
  {
    assert !AllSpace(p);
    TrimStartAppend(p, rest);
    assert TrimStart(p) == p;
    assert (p + rest)[..|p|] == p;
    TrimEndKeepsPrefix(p + rest, p);
  }

  // ---------------------------------------------------------------------------
  // Radix digits: `n.toString(radix)` and the digit strings `BigInt` reads
  // ---------------------------------------------------------------------------

  const DigitChars: string := "0123456789abcdef"

  /** The value of a digit 0-9, a-f or A-F; 16 for any other character. */
  function HexValue(c: char): nat {
    if '0' <= c <= '9' then c as int - '0' as int
    else if 'a' <= c <= 'f' then c as int - 'a' as int + 10
    else if 'A' <= c <= 'F' then c as int - 'A' as int + 10
    else 16
  }

  predicate AllDigitsIn(s: string, radix: nat) {
    forall i :: 0 <= i < |s| ==> HexValue(s[i]) < radix
  }

  /** The number a digit string denotes in the given radix. */
  function ValueIn(s: string, radix: nat): nat
    requires AllDigitsIn(s, radix)
  {
    if |s| == 0 then 0
    else
      var v := ValueIn(s[..|s| - 1], radix);
      MulNat(v, radix);
      v * radix + HexValue(s[|s| - 1])
  }

  lemma MulNat(a: nat, b: nat)
    ensures a * b >= 0
  {
  }

  lemma DivFacts(n: nat, radix: nat)
    requires 2 <= radix
    ensures n == (n / radix) * radix + n % radix
    ensures 0 <= n % radix < radix
    ensures n >= radix ==> 1 <= n / radix < n
  {
  }

  lemma DigitCharValue(d: nat)
    requires d < 16
    ensures HexValue(DigitChars[d]) == d
  {
  }

  /** `n.toString(radix)`: the shortest digit string for `n`, lower-case. */
  function ToRadix(n: nat, radix: nat): (r: string)
    requires 2 <= radix <= 16
    ensures |r| >= 1 && AllDigitsIn(r, radix)
    ensures r[0] != '0' || n == 0
  {
    DivFacts(n, radix);
    DigitCharValue(n % radix);
    if n < radix then [DigitChars[n]]
    else ToRadix(n / radix, radix) + [DigitChars[n % radix]]
  }

  /** Reading back what `ToRadix` wrote yields the number. */
  lemma {:induction false} RadixRoundTrip(n: nat, radix: nat)
    requires 2 <= radix <= 16
    ensures ValueIn(ToRadix(n, radix), radix) == n
  {
    DivFacts(n, radix);
    DigitCharValue(n % radix);
    if n < radix {
      var r := ToRadix(n, radix);
      assert r[..0] == [];
    } else {
      var q := n / radix;
      var pre := ToRadix(q, radix);
      var r := pre + [DigitChars[n % radix]];
      assert ToRadix(n, radix) == r;
      assert r[..|r| - 1] == pre;
      RadixRoundTrip(q, radix);
      Recombine(ValueIn(pre, radix), q, radix, n % radix, n);
    }
  }

  lemma Recombine(v: int, q: int, radix: int, d: int, n: int)
    requires v == q && n == q * radix + d
    ensures v * radix + d == n
  {
  }

  /** A leading zero does not change the value of a digit string. */
  lemma {:induction false} LeadingZero(s: string, radix: nat)
    requires 2 <= radix && AllDigitsIn(s, radix)
    ensures AllDigitsIn("0" + s, radix)
    ensures ValueIn("0" + s, radix) == ValueIn(s, radix)
  {
    var z := "0" + s;
    if |s| > 0 {
      assert z[..|z| - 1] == "0" + s[..|s| - 1];
      LeadingZero(s[..|s| - 1], radix);
    } else {
      assert z[..0] == [];
    }
  }

  /** Decimal `toString` of a non-negative integer. */
  function DecimalString(n: nat): string {
    ToRadix(n, 10)
  }

  /** Decimal `toString` of any integer. */
  function IntString(i: int): string {
    if i < 0 then "-" + DecimalString(-i) else DecimalString(i)
  }

  /** `s.padStart(width, fill)` with a one-character fill. */
  function PadStart(s: string, width: nat, fill: char): (r: string)
    ensures |r| == if |s| >= width then |s| else width
    ensures r[|r| - |s|..] == s
    ensures forall i :: 0 <= i < |r| - |s| ==> r[i] == fill
  {
    if |s| >= width then s else seq(width - |s|, _ => fill) + s
  }
}
