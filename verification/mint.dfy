/** The mint page: the on-chain reads it shows, the quantity stepper, the
    mint click handler with its ordered guards, and the two link writes it
    hands to the token dialog.

    The quantity is a JavaScript number. The stepper buttons keep it an
    integer, but the number field accepts any finite value, so it is modelled
    as a `real`; `BigInt` of a non-integer throws a `RangeError`, whose
    engine-specific text is a parameter. */
module Mint {
  import opened Wrappers
  import opened JsError
  import opened Contract
  import opened DataUri

  const MainnetId: int := 1
  const MaxQty: real := 10.0

  const ConnectFirst := "Please connect your wallet."
  const QtyOutOfRange := "Quantity must be 1\U{2013}10."
  const Paused := "Mint is paused."
  const SoldOut := "Sold out."

  /** The wallet as the account hook reports it. */
  datatype Wallet = Wallet(connected: bool, chainId: Option<int>, address: Option<string>)

  /** The raw contract reads; `None` is a read that has not produced a value
      of the expected type. */
  datatype Reads = Reads(
    remaining: Option<int>,        // remainingSupply
    paused: Option<bool>,          // paused
    price: Option<int>,            // PUBLIC_MINT_PRICE, in wei
    hasFreeMinted: Option<bool>,   // hasFreeMinted(address)
    skullBalance: Option<int>)     // balanceOf(address) on the skull collection

  function Remaining(r: Reads): int { r.remaining.GetOr(0) }
  predicate IsPaused(r: Reads) { r.paused.GetOr(false) }
  function PriceWei(r: Reads): int { r.price.GetOr(0) }
  predicate HasFreeMinted(r: Reads) { r.hasFreeMinted.GetOr(false) }
  /** A skull holder gets one free mint. */
  predicate IsEligible(r: Reads) { r.skullBalance.GetOr(0) > 0 }

  predicate OnMainnet(w: Wallet) { w.chainId == Some(MainnetId) }

  predicate IsInteger(q: real) { q.Floor as real == q }

  /** The free path: an eligible wallet that has not used its free mint,
      minting exactly one. */
  predicate IsFree(r: Reads, qty: real) {
    IsEligible(r) && !HasFreeMinted(r) && qty == 1.0
  }

  /** What a mint click leads to once the guards have run. */
  datatype Plan = Refuse(message: string) | SwitchChain(chainId: int) | Write(call: Call)

  /** The guards of the mint handler in source order, then the write. The
      value is `price * BigInt(qty)` unless the mint is free; for a
      non-integer quantity `BigInt` throws and its message is shown. */
  function Decide(w: Wallet, r: Reads, qty: real, rangeErrorText: string): (p: Plan)
    ensures p.Write? ==> w.connected && OnMainnet(w) && 1.0 <= qty <= MaxQty && IsInteger(qty)
                         && !IsPaused(r) && Remaining(r) > 0
    ensures p.SwitchChain? ==> w.connected && !OnMainnet(w) && p.chainId == MainnetId
  {
    if !w.connected then Refuse(MintText(Thrown(ConnectFirst)))
    else if !OnMainnet(w) then SwitchChain(MainnetId)
    else if qty < 1.0 || qty > MaxQty then Refuse(MintText(Thrown(QtyOutOfRange)))
    else if IsPaused(r) then Refuse(MintText(Thrown(Paused)))
    else if Remaining(r) <= 0 then Refuse(MintText(Thrown(SoldOut)))
    else if IsFree(r, qty) then Write(Call("mint", [], 0))
    else if !IsInteger(qty) then Refuse(MintText(Thrown(rangeErrorText)))
    else
      var n := qty.Floor;
      Write(Call(if n == 1 then "mint" else "batchMint", if n == 1 then [] else [Uint(n)], PriceWei(r) * n))
  }

  /** The page state the mint flow touches. */
  datatype State = State(qty: real, txHash: string, error: string, rain: bool, successCount: Option<real>)

  const Initial: State := State(1.0, "", "", false, None)

  datatype Effect = SwitchChainTo(chainId: int) | WriteCall(call: Call)

  datatype Step = Step(state: State, effects: seq<Effect>)

  /** The click handler: clear the error, the hash and the success count,
      then act on the plan. */
  function MintHandler(s: State, w: Wallet, r: Reads, rangeErrorText: string): Step {
    var cleared := s.(error := "", txHash := "", successCount := None);
    match Decide(w, r, s.qty, rangeErrorText)
    case Refuse(m) => Step(cleared.(error := m), [])
    case SwitchChain(id) => Step(cleared, [SwitchChainTo(id)])
    case Write(call) => Step(cleared, [WriteCall(call)])
  }

  /** The write settled: success keeps the hash, records the quantity the
      click asked for and starts the pixel rain; failure shows the wallet's
      message. The handler reads the quantity it was clicked with; every
      control is disabled while the write is pending, so that is still the
      page's quantity here. */
  function MintSettled(s: State, res: Result<string, ErrorInfo>): State {
    match res
    case Ok(hash) => s.(txHash := hash, successCount := Some(s.qty), rain := true)
    case Err(e) => s.(error := MintText(e))
  }

  /** How many tokens a mint write asks for: the `batchMint` argument, one
      for `mint()`. */
  function CallQuantity(c: Call): real {
    if |c.args| == 1 && c.args[0].Uint? then c.args[0].n as real else 1.0
  }

  /** The success line needs a non-zero count and a hash. */
  predicate ShowsSuccess(s: State) {
    s.successCount.Some? && s.successCount.value != 0.0 && s.txHash != ""
  }

  datatype Control = Decrement | QtyField(typed: Option<real>) | Increment | MintButton

  /** The quantity controls and the mint button are rendered only for a
      connected wallet and are disabled while paused, sold out or pending;
      the steppers also stop at the ends of 1..10. */
  predicate Enabled(s: State, c: Control, w: Wallet, r: Reads, isPending: bool) {
    && w.connected
    && !IsPaused(r) && Remaining(r) != 0 && !isPending
    && match c
       case Decrement => !(s.qty <= 1.0)
       case Increment => !(s.qty >= MaxQty)
       case _ => true
  }

  function Press(s: State, c: Control, w: Wallet, r: Reads, isPending: bool, rangeErrorText: string): Step {
    if !Enabled(s, c, w, r, isPending) then Step(s, [])
    else match c
      case Decrement => Step(s.(qty := if s.qty - 1.0 < 1.0 then 1.0 else s.qty - 1.0), [])
      case Increment => Step(s.(qty := if s.qty + 1.0 > MaxQty then MaxQty else s.qty + 1.0), [])
      case QtyField(typed) => Step(s.(qty := typed.GetOr(1.0)), [])
      case MintButton => MintHandler(s, w, r, rangeErrorText)
  }

  /** The mint button's label. */
  function MintLabel(r: Reads, qty: real): string {
    if IsFree(r, qty) then "Free Mint" else "Mint"
  }

  /** The eligibility line under the reads: none without an address. */
  function Banner(w: Wallet, r: Reads): Option<string> {
    if w.address.None? then None
    else if IsEligible(r) && !HasFreeMinted(r) then Some("Eligible for 1 free mint!")
    else if IsEligible(r) then Some("Already claimed free mint.")
    else Some("No 1337 SKULL detected.")
  }

  /** The link write the token dialog asks for: the token id and the entry id,
      with no ether attached. */
  function LinkCall(k: Kind, tokenId: int, entryId: int): (c: Call)
    ensures c.args == [Uint(tokenId), Uint(entryId)] && c.value == 0
    ensures c.fn == "linkToHtmlEntry" <==> k == Html
    ensures c.fn == "linkToPreviewEntry" <==> k == Preview
  {
    Call(if k == Html then "linkToHtmlEntry" else "linkToPreviewEntry", [Uint(tokenId), Uint(entryId)], 0)
  }

  // ---------------------------------------------------------------------------
  // Properties
  // ---------------------------------------------------------------------------

  /** The guards are checked in order and each refusal carries its own text:
      the first failing guard decides the message. */
  lemma GuardMessages(w: Wallet, r: Reads, qty: real, t: string)
    ensures !w.connected ==> Decide(w, r, qty, t) == Refuse(ConnectFirst)
    ensures w.connected && !OnMainnet(w) ==> Decide(w, r, qty, t) == SwitchChain(MainnetId)
    ensures w.connected && OnMainnet(w) && (qty < 1.0 || qty > MaxQty) ==> Decide(w, r, qty, t) == Refuse(QtyOutOfRange)
    ensures w.connected && OnMainnet(w) && 1.0 <= qty <= MaxQty && IsPaused(r) ==> Decide(w, r, qty, t) == Refuse(Paused)
    ensures w.connected && OnMainnet(w) && 1.0 <= qty <= MaxQty && !IsPaused(r) && Remaining(r) <= 0 ==>
              Decide(w, r, qty, t) == Refuse(SoldOut)
  {
    ThrownShowsOwnMessage(ConnectFirst, MintFailed);
    ThrownShowsOwnMessage(QtyOutOfRange, MintFailed);
    ThrownShowsOwnMessage(Paused, MintFailed);
    ThrownShowsOwnMessage(SoldOut, MintFailed);
  }

  /** Once every guard passes, an integer quantity is written: one token by
      `mint()`, more by `batchMint(qty)`, paying the price per token unless
      the mint is free. */
  lemma WriteShape(w: Wallet, r: Reads, qty: real, t: string)
    requires w.connected && OnMainnet(w) && 1.0 <= qty <= MaxQty && !IsPaused(r) && Remaining(r) > 0
    requires IsInteger(qty)
    ensures var p := Decide(w, r, qty, t);
      && p.Write?
      && (qty == 1.0 ==> p.call.fn == "mint" && p.call.args == [])
      && (qty != 1.0 ==> p.call.fn == "batchMint" && p.call.args == [Uint(qty.Floor)])
      && p.call.value == (if IsFree(r, qty) then 0 else PriceWei(r) * qty.Floor)
  {
  }

  /** A fractional quantity that passes the guards is refused with the
      `RangeError` text, and nothing is written. */
  lemma FractionalQuantity(w: Wallet, r: Reads, qty: real, t: string)
    requires w.connected && OnMainnet(w) && 1.0 <= qty <= MaxQty && !IsPaused(r) && Remaining(r) > 0
    requires !IsInteger(qty)
    ensures Decide(w, r, qty, t) == Refuse(t)
  {
    ThrownShowsOwnMessage(t, MintFailed);
  }

  /** The label promises a free mint exactly when a click writes a call that
      sends no ether, whenever the price is not zero. */
  lemma FreeLabelIsHonest(w: Wallet, r: Reads, qty: real, t: string)
    requires PriceWei(r) > 0
    requires Decide(w, r, qty, t).Write?
    ensures MintLabel(r, qty) == "Free Mint" <==> Decide(w, r, qty, t).call.value == 0
  {
    var n := qty.Floor;
    if !IsFree(r, qty) {
      assert n >= 1;
      assert PriceWei(r) * n >= PriceWei(r) by {
        MulMonotone(PriceWei(r), n);
      }
    }
  }

  lemma MulMonotone(a: int, n: int)
    requires a > 0 && n >= 1
    ensures a * n >= a
  {
  }

  /** Without a connected wallet the page offers no control that acts. */
  lemma DisconnectedPageIsInert(s: State, c: Control, w: Wallet, r: Reads, isPending: bool, t: string)
    requires !w.connected
    ensures Press(s, c, w, r, isPending, t) == Step(s, [])
  {
  }

  /** A click starts from a clean slate: no hash or count survives, and an
      error is shown exactly when the plan is a refusal (every refusal text
      is non-empty as long as the `RangeError` text is). */
  lemma HandlerClearsOutcome(s: State, w: Wallet, r: Reads, t: string)
    requires t != ""
    ensures var h := MintHandler(s, w, r, t).state;
      h.txHash == "" && h.successCount == None && !ShowsSuccess(h) && h.qty == s.qty
    ensures Decide(w, r, s.qty, t).Refuse? <==> MintHandler(s, w, r, t).state.error != ""
  {
    GuardMessages(w, r, s.qty, t);
    if w.connected && OnMainnet(w) && 1.0 <= s.qty <= MaxQty && !IsPaused(r) && Remaining(r) > 0
       && !IsFree(r, s.qty) && !IsInteger(s.qty) {
      FractionalQuantity(w, r, s.qty, t);
    }
  }

  /** The settled write: success shows the success line with the page's
      quantity and starts the rain, failure shows the wallet's message. */
  lemma SettleOutcome(s: State, res: Result<string, ErrorInfo>)
    ensures res.Ok? ==> (ShowsSuccess(MintSettled(s, res)) <==> res.value != "" && s.qty != 0.0)
    ensures res.Ok? ==> MintSettled(s, res).rain && MintSettled(s, res).successCount == Some(s.qty)
    ensures res.Err? ==> MintSettled(s, res) == s.(error := MintText(res.error))
  {
  }

  /** While a write is pending every control is disabled, so any clicks
      change nothing. */
  lemma {:induction false} PendingPageIsInert(s: State, cs: seq<Control>, w: Wallet, r: Reads, t: string)
    ensures PressAll(s, cs, w, r, true, t) == s
    decreases |cs|
  {
    if |cs| > 0 {
      assert Press(s, cs[0], w, r, true, t).state == s;
      PendingPageIsInert(s, cs[1..], w, r, t);
    }
  }

  /** End to end: a click that writes a mint call, any clicks while the write
      is pending, and a successful settle leave the success count equal to
      the number of tokens the write asked for, which is the quantity the
      click was made with. */
  lemma SuccessCountIsQuantityWritten(s: State, w: Wallet, r: Reads, t: string, cs: seq<Control>,
                                      w2: Wallet, r2: Reads, hash: string)
    requires Decide(w, r, s.qty, t).Write?
    ensures var c := Decide(w, r, s.qty, t).call;
      var later := PressAll(MintHandler(s, w, r, t).state, cs, w2, r2, true, t);
      && MintHandler(s, w, r, t).effects == [WriteCall(c)]
      && CallQuantity(c) == s.qty
      && MintSettled(later, Ok(hash)).successCount == Some(CallQuantity(c))
  {
    if !IsFree(r, s.qty) {
      WriteShape(w, r, s.qty, t);
    }
    PendingPageIsInert(MintHandler(s, w, r, t).state, cs, w2, r2, t);
  }

  /** An integer quantity in 1..10. */
  predicate QtyValid(q: real) {
    1.0 <= q <= MaxQty && IsInteger(q)
  }

  /** The stepper buttons and the mint click keep the quantity an integer in
      1..10; only typing into the field can leave that range. */
  lemma StepperKeepsQuantityValid(s: State, c: Control, w: Wallet, r: Reads, isPending: bool, t: string)
    requires QtyValid(s.qty) && !c.QtyField?
    ensures QtyValid(Press(s, c, w, r, isPending, t).state.qty)
  {
    var q := s.qty;
    if Enabled(s, c, w, r, isPending) {
      if c.Decrement? {
        assert (q - 1.0).Floor == q.Floor - 1;
      } else if c.Increment? {
        assert (q + 1.0).Floor == q.Floor + 1;
      }
    }
  }

  /** Presses one after another. */
  function PressAll(s: State, cs: seq<Control>, w: Wallet, r: Reads, isPending: bool, t: string): State
    decreases |cs|
  {
    if |cs| == 0 then s else PressAll(Press(s, cs[0], w, r, isPending, t).state, cs[1..], w, r, isPending, t)
  }

  /** From the initial quantity, any sequence of stepper and mint clicks
      leaves an integer quantity in 1..10, so those clicks alone never reach
      the range refusal or the `RangeError`. */
  lemma {:induction false} ButtonsKeepQuantityValid(s: State, cs: seq<Control>, w: Wallet, r: Reads, isPending: bool, t: string)
    requires QtyValid(s.qty)
    requires forall i :: 0 <= i < |cs| ==> !cs[i].QtyField?
    ensures QtyValid(PressAll(s, cs, w, r, isPending, t).qty)
    decreases |cs|
  {
    if |cs| > 0 {
      StepperKeepsQuantityValid(s, cs[0], w, r, isPending, t);
      ButtonsKeepQuantityValid(Press(s, cs[0], w, r, isPending, t).state, cs[1..], w, r, isPending, t);
    }
  }

  /** Typing is the one way out of 1..10: the quantity stays valid exactly
      when the entry is valid or not a finite number (which becomes 1), and a
      typed 0 or 2.5 makes the next mint click on mainnet a refusal. */
  lemma TypedQuantity(s: State, n: Option<real>, w: Wallet, r: Reads, t: string)
    requires w.connected && !IsPaused(r) && Remaining(r) != 0
    ensures var q := Press(s, QtyField(n), w, r, false, t).state.qty;
      && (QtyValid(q) <==> n.None? || QtyValid(n.value))
      && (OnMainnet(w) && !QtyValid(q) ==> Decide(w, r, q, t).Refuse?)
  {
  }

  /** With a wallet address exactly one eligibility line is shown, and it
      says "free" exactly when the free path is open for a single token. */
  lemma BannerMatchesFreePath(w: Wallet, r: Reads)
    ensures Banner(w, r).Some? <==> w.address.Some?
    ensures w.address.Some? ==> (Banner(w, r) == Some("Eligible for 1 free mint!") <==> IsFree(r, 1.0))
  {
  }

  /** Reads that have not arrived (or are not of the expected type) count as
      zero or false: no supply left, no price, not paused, no free mint used,
      no skull held. With no supply read yet, every control is disabled. */
  lemma MissingReadsDefault(s: State, c: Control, w: Wallet, isPending: bool, t: string)
    ensures var r := Reads(None, None, None, None, None);
      && Remaining(r) == 0 && PriceWei(r) == 0 && !IsPaused(r) && !HasFreeMinted(r) && !IsEligible(r)
      && Press(s, c, w, r, isPending, t) == Step(s, [])
  {
  }
}
