/** The landing page's rotating story: a cursor over a fixed, jagged table
    of five acts, advanced each time the sprite has bounced off the edges of
    the screen often enough. The last message of the last act lingers three
    times as long as the others. */
module Story {

  const ActLabels: seq<string> := ["MINT", "WORLD", "REMIX", "TOGETHER", "ETHOS"]

  const Acts: seq<seq<string>> := [
    ["", "1337", "CRU", "PHASE ONE", "03.09.25", "17:00 UTC", "Free Mint", "for skulls holders", "Supply 1337"],
    ["On Eth", "Fully On-Chain", "HTML as Art", "The Code is Canvas"],
    ["mint IT", "code It", "collect it", "Link it"],
    ["connect", "grow", "play", "build", "together"],
    ["CC0", "OPEN", "FUN", "Join the 1337 Cru"]
  ]

  /** The number of messages in each act. */
  const ActSizes: seq<nat> := [9, 4, 4, 5, 4]

  /** The number of (act, message) pairs in the table. */
  const Total: nat := 26

  lemma ActsShape()
    ensures |Acts| == |ActSizes|
    ensures forall a :: 0 <= a < |Acts| ==> |Acts[a]| == ActSizes[a]
  {
  }

  const MessageBounces: int := 1
  const EndLingerMultiplier: int := 3

  /** A position in the table: an act and a message within it. */
  datatype Cursor = Cursor(act: nat, msg: nat)

  predicate Valid(c: Cursor) {
    c.act < |ActSizes| && c.msg < ActSizes[c.act]
  }

  function Message(c: Cursor): string
    requires Valid(c)
  {
    ActsShape();
    Acts[c.act][c.msg]
  }

  predicate IsLastOfLast(c: Cursor) {
    c.act == |ActSizes| - 1 && c.msg == ActSizes[|ActSizes| - 1] - 1
  }

  /** The next message: the following one in the act, else the first one of
      the next act, wrapping from the last act to the first. */
  function Advance(c: Cursor): (r: Cursor)
    requires Valid(c)
    ensures Valid(r)
    ensures c.msg + 1 < ActSizes[c.act] ==> r == Cursor(c.act, c.msg + 1)
    ensures c.msg + 1 >= ActSizes[c.act] ==> r.msg == 0 && r.act == (c.act + 1) % |ActSizes|
  {
    var nextMsg := c.msg + 1;
    if nextMsg >= ActSizes[c.act] then Cursor((c.act + 1) % |ActSizes|, 0) else Cursor(c.act, nextMsg)
  }

  /** How many bounces a message is shown for. */
  function Linger(c: Cursor): int {
    if IsLastOfLast(c) then MessageBounces * EndLingerMultiplier else MessageBounces
  }

  /** What the page keeps: the cursor, the bounces left before the next
      advance, the message on screen and the act whose label is underlined. */
  datatype Ticker = Ticker(cursor: Cursor, remaining: int, shown: string, actIndex: nat)

  predicate TickerWf(t: Ticker) {
    Valid(t.cursor) && t.shown == Message(t.cursor) && t.actIndex == t.cursor.act
  }

  const Start: Ticker := Ticker(Cursor(0, 0), MessageBounces, Acts[0][0], 0)

  /** `advanceMessage`: move the cursor, show its message and reset the
      bounce budget for it. */
  function AdvanceMessage(t: Ticker): (r: Ticker)
    requires Valid(t.cursor)
    ensures TickerWf(r) && r.remaining == Linger(r.cursor)
  {
    var next := Advance(t.cursor);
    Ticker(next, Linger(next), Message(next), next.act)
  }

  /** The sprite reached an edge: one bounce is spent, and the story advances
      when none is left. */
  function Bounce(t: Ticker): Ticker
    requires Valid(t.cursor)
  {
    var spent := t.remaining - 1;
    if spent <= 0 then AdvanceMessage(t.(remaining := spent)) else t.(remaining := spent)
  }

  function Bounces(t: Ticker, n: nat): Ticker
    requires Valid(t.cursor)
    ensures Valid(Bounces(t, n).cursor)
    decreases n
  {
    if n == 0 then t else Bounces(Bounce(t), n - 1)
  }

  function AdvanceN(c: Cursor, n: nat): (r: Cursor)
    requires Valid(c)
    ensures Valid(r)
    decreases n
  {
    if n == 0 then c else AdvanceN(Advance(c), n - 1)
  }

  /** Where each act starts when the table is read row by row. */
  const ActStarts: seq<nat> := [0, 9, 13, 17, 22]

  /** The position of a cursor when the table is read row by row. */
  function Index(c: Cursor): nat
    requires Valid(c)
  {
    ActStarts[c.act] + c.msg
  }

  // ---------------------------------------------------------------------------
  // Properties
  // ---------------------------------------------------------------------------

  /** Each act starts where the previous one ends, and the last one ends at
      the end of the table. */
  lemma StartsFollowSizes()
    ensures |ActStarts| == |ActSizes| && ActStarts[0] == 0
    ensures forall a :: 0 <= a < |ActSizes| - 1 ==> ActStarts[a + 1] == ActStarts[a] + ActSizes[a]
    ensures ActStarts[|ActSizes| - 1] + ActSizes[|ActSizes| - 1] == Total
  {
  }

  /** Every valid cursor has a table position below 26, and distinct cursors
      have distinct positions. */
  lemma IndexInjective(c: Cursor, d: Cursor)
    requires Valid(c) && Valid(d)
    ensures Index(c) < Total
    ensures Index(c) == Index(d) ==> c == d
  {
    StartsFollowSizes();
  }

  /** One advance moves one step forward in row-by-row order, wrapping from
      the last message to the first. */
  lemma AdvanceSteps(c: Cursor)
    requires Valid(c)
    ensures Index(Advance(c)) == (Index(c) + 1) % Total
  {
    StartsFollowSizes();
    var a := c.act;
    assert |ActSizes| == 5;
    var i := Index(c);
    if c.msg + 1 < ActSizes[a] {
      assert Index(Advance(c)) == i + 1;
      assert i + 1 < Total;
    } else if a == 4 {
      assert i == 25;
    } else {
      assert Advance(c) == Cursor(a + 1, 0);
      assert Index(Advance(c)) == i + 1;
    }
  }

  /** `n` advances move `n` steps forward, modulo 26. */
  lemma {:induction false} AdvanceNSteps(c: Cursor, n: nat)
    requires Valid(c)
    ensures var j := Index(AdvanceN(c, n)); var i := Index(c); j == (i + n) % Total
    decreases n
  {
    if n > 0 {
      var d := Advance(c);
      var e := AdvanceN(d, n - 1);
      assert AdvanceN(c, n) == e;
      AdvanceSteps(c);
      AdvanceNSteps(d, n - 1);
      IndexInjective(c, c);
      StepCombine(Index(c), Index(d), Index(e), n);
    } else {
      assert AdvanceN(c, n) == c;
      IndexInjective(c, c);
    }
  }

  /** One step followed by `n - 1` steps is `n` steps, modulo 26. */
  lemma StepCombine(i: nat, id: nat, ie: nat, n: nat)
    requires i < Total && n >= 1
    requires id == (i + 1) % Total && ie == (id + (n - 1)) % Total
    ensures ie == (i + n) % Total
  {
    ModStep(i, n);
  }

  lemma ModStep(i: nat, n: nat)
    requires i < Total && n >= 1
    ensures ((i + 1) % Total + (n - 1)) % Total == (i + n) % Total
  {
    if i + 1 == Total {
      assert (i + n) % Total == ((n - 1) + Total) % Total;
    }
  }

  /** From the first message, the k-th advance lands on the k-th message of
      the table in row-by-row order. */
  lemma TableOrder(k: nat)
    requires k < Total
    ensures Index(AdvanceN(Cursor(0, 0), k)) == k
  {
    AdvanceNSteps(Cursor(0, 0), k);
    assert Index(Cursor(0, 0)) == 0;
  }

  /** Any whole number of cycles (a multiple of 26 advances) returns any
      cursor to where it began. */
  lemma CycleReturns(c: Cursor, n: nat)
    requires Valid(c) && n % Total == 0
    ensures AdvanceN(c, n) == c
  {
    AdvanceNSteps(c, n);
    IndexInjective(c, c);
    WholeCycles(Index(c), n);
    IndexInjective(AdvanceN(c, n), c);
  }

  lemma {:induction false} WholeCycles(i: nat, n: nat)
    requires i < Total && n % Total == 0
    ensures (i + n) % Total == i
    decreases n
  {
    if n >= Total {
      WholeCycles(i, n - Total);
      assert (i + n) % Total == (i + (n - Total)) % Total;
    }
  }

  /** Within one cycle no message comes back early: the cursors after `k` and
      after `j` advances differ unless they are a whole cycle apart. */
  lemma NoEarlyRepeat(c: Cursor, k: nat, j: nat)
    requires Valid(c) && k < j <= Total && !(k == 0 && j == Total)
    ensures AdvanceN(c, k) != AdvanceN(c, j)
  {
    AdvanceNSteps(c, k);
    AdvanceNSteps(c, j);
    IndexInjective(c, c);
    ModDistinct(Index(c) + k, j - k);
  }

  /** Moving forward by less than a whole cycle never lands on the same
      position. */
  lemma ModDistinct(a: nat, d: nat)
    requires 0 < d < Total
    ensures (a + d) % Total != a % Total
  {
    var q := a / Total;
    var r := a % Total;
    assert a == q * Total + r;
    if r + d < Total {
      ModOf(q, r + d);
    } else {
      assert a + d == (q + 1) * Total + (r + d - Total);
      ModOf(q + 1, r + d - Total);
    }
  }

  lemma ModOf(q: nat, x: nat)
    requires x < Total
    ensures (q * Total + x) % Total == x
  {
  }

  /** A bounce advances exactly when the decremented budget is at most zero,
      and after advancing the budget is 3 on the very last message, 1 on all
      others. */
  lemma BounceRule(t: Ticker)
    requires TickerWf(t)
    ensures t.remaining - 1 <= 0 ==> Bounce(t).cursor == Advance(t.cursor)
    ensures t.remaining - 1 > 0 ==> Bounce(t) == t.(remaining := t.remaining - 1)
    ensures TickerWf(Bounce(t))
    ensures t.remaining - 1 <= 0 ==> (Bounce(t).remaining == 3 <==> IsLastOfLast(Bounce(t).cursor))
    ensures t.remaining - 1 <= 0 ==> (Bounce(t).remaining == 1 <==> !IsLastOfLast(Bounce(t).cursor))
  {
  }

  /** A message that has just come up stays for exactly `Linger` bounces:
      fewer leave the cursor where it is, one more moves it on. */
  lemma {:induction false} MessageStaysForLinger(t: Ticker, n: nat)
    requires TickerWf(t) && 0 <= n < t.remaining
    ensures Bounces(t, n) == t.(remaining := t.remaining - n)
    ensures Bounces(t, t.remaining) == AdvanceMessage(t)
    decreases t.remaining
  {
    if n > 0 {
      MessageStaysForLinger(Bounce(t), n - 1);
    }
    if t.remaining > 1 {
      MessageStaysForLinger(Bounce(t), 0);
    }
  }
}
