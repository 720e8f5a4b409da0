/** The dialog that appends a new entry to one of the two registries.

    The user pastes a data URI on the HTML or the preview tab; the create
    button is enabled only while the text passes that tab's creation check
    and no write is pending. A click re-checks, then asks the wallet to send
    the registry's create call with the token id and the text exactly as
    typed. */
module CreateEntry {
  import opened Wrappers
  import opened JsError
  import opened Contract
  import opened DataUri
  import opened JsText

  /** The active tab, the text of each tab, the busy flag, the error text and
      the hash of the last accepted transaction. */
  datatype State = State(tab: Kind, htmlUri: string, previewUri: string, busy: bool, err: string, tx: string)

  datatype Effect = WriteCall(call: Call) | CloseCall

  datatype Step = Step(state: State, effects: seq<Effect>)

  datatype Control = TabButton(kind: Kind) | CreateButton(kind: Kind) | CloseButton

  const Initial: State := State(Html, "", "", false, "", "")

  function InvalidText(k: Kind): string {
    if k == Html then "Paste a valid HTML data URI."
    else "Paste a valid image (PNG/JPEG/GIF/WEBP/SVG) data URI."
  }

  function CreateFailed(k: Kind): string {
    if k == Html then "Failed to create HTML entry" else "Failed to create preview entry"
  }

  function CreateFunction(k: Kind): string {
    if k == Html then "createHtmlEntry" else "createPreviewEntry"
  }

  function UriOf(s: State, k: Kind): string {
    if k == Html then s.htmlUri else s.previewUri
  }

  /** The creation check of the tab's registry. */
  predicate Valid(k: Kind, text: string) {
    if k == Html then HtmlValid(text) else PreviewValid(text)
  }

  /** Typing into a tab's text area. */
  function Edit(s: State, k: Kind, text: string): State {
    if k == Html then s.(htmlUri := text) else s.(previewUri := text)
  }

  /** The create button's click handler: clear the error and the hash, refuse
      an invalid text with a fixed message, otherwise lock and write. */
  function CreateHandler(s: State, k: Kind, tokenId: int): Step {
    var cleared := s.(err := "", tx := "");
    if !Valid(k, UriOf(s, k)) then
      Step(cleared.(err := WagmiText(Thrown(InvalidText(k)), CreateFailed(k)), busy := false), [])
    else
      Step(cleared.(busy := true), [WriteCall(Call(CreateFunction(k), [Uint(tokenId), Text(UriOf(s, k))], 0))])
  }

  /** The write settled: on success the hash is kept and the dialog closes,
      on failure the error text is shown; the lock is released either way. */
  function CreateSettled(s: State, k: Kind, r: Result<string, ErrorInfo>): Step {
    match r
    case Ok(hash) => Step(s.(tx := hash, busy := false), [CloseCall])
    case Err(e) => Step(s.(err := WagmiText(e, CreateFailed(k)), busy := false), [])
  }

  /** The create button is shown on its own tab and disabled while the text
      is invalid, a wallet write is pending or the dialog is busy. */
  predicate Enabled(s: State, c: Control, isPending: bool) {
    match c
    case CreateButton(k) => s.tab == k && Valid(k, UriOf(s, k)) && !isPending && !s.busy
    case _ => true
  }

  function Press(s: State, c: Control, tokenId: int, isPending: bool): Step {
    if !Enabled(s, c, isPending) then Step(s, [])
    else match c
      case TabButton(k) => Step(s.(tab := k), [])
      case CreateButton(k) => CreateHandler(s, k, tokenId)
      case CloseButton => Step(s, [CloseCall])
  }

  /** An invalid text sets the fixed message and issues no write. */
  lemma InvalidIssuesNoWrite(s: State, k: Kind, tokenId: int)
    requires !Valid(k, UriOf(s, k))
    ensures CreateHandler(s, k, tokenId).effects == []
    ensures CreateHandler(s, k, tokenId).state == s.(err := InvalidText(k), tx := "", busy := false)
  {
    ThrownShowsOwnMessage(InvalidText(k), CreateFailed(k));
  }

  /** A valid text is written exactly as typed, untrimmed and in its own
      letter case, to the create function of the tab's registry, together
      with the token id; nothing else is sent and no ether is attached. */
  lemma WriteCarriesRawText(s: State, k: Kind, tokenId: int)
    requires Valid(k, UriOf(s, k))
    ensures var r := CreateHandler(s, k, tokenId);
      && r.effects == [WriteCall(Call(CreateFunction(k), [Uint(tokenId), Text(UriOf(s, k))], 0))]
      && r.state.busy && r.state.err == "" && r.state.tx == ""
  {
  }

  /** For instance a text with a leading space and capitals passes the check
      and is written with the space and the capitals. */
  lemma RawTextExample(payload: string)
    ensures var s := Edit(Initial, Html, " " + Upper(HtmlPrefixes[2] + payload));
      CreateHandler(s, Html, 7).effects
        == [WriteCall(Call("createHtmlEntry", [Uint(7), Text(" " + Upper(HtmlPrefixes[2] + payload))], 0))]
  {
    CreatedHtmlMayNotLoad(payload);
  }

  /** After either outcome the dialog is not busy; success keeps the hash and
      closes, failure shows the error text and stays open. */
  lemma SettleOutcome(s: State, k: Kind, r: Result<string, ErrorInfo>)
    ensures !CreateSettled(s, k, r).state.busy
    ensures r.Ok? ==> CreateSettled(s, k, r).state.tx == r.value && CreateSettled(s, k, r).effects == [CloseCall]
    ensures r.Err? ==> CreateSettled(s, k, r).state.err == WagmiText(r.error, CreateFailed(k))
                       && CreateSettled(s, k, r).effects == []
  {
  }

  /** The button fires nothing while the text is invalid, a write is pending
      or the dialog is busy; so every write a click starts carries a valid
      text, and no second write starts before the first settles. */
  lemma ButtonGuardsWrite(s: State, c: Control, tokenId: int, isPending: bool)
    ensures c.CreateButton? && (!Valid(c.kind, UriOf(s, c.kind)) || isPending || s.busy) ==>
              Press(s, c, tokenId, isPending) == Step(s, [])
    ensures forall call :: WriteCall(call) in Press(s, c, tokenId, isPending).effects ==>
              c.CreateButton? && Valid(c.kind, UriOf(s, c.kind)) && !s.busy && call.args[1] == Text(UriOf(s, c.kind))
  {
  }
}
