/** The registry browser and link dialog opened from a token's detail view.

    The dialog reads how many entries each of the two on-chain registries
    (HTML documents and preview images) holds, offers the ids 1..count of
    the registry on the active tab, loads and checks the entry behind a
    clicked id, and on confirm hands the selected id to the caller's link
    callback while a shared busy flag locks the confirm buttons.

    Every asynchronous step is a separate transition that receives the
    remote outcome as a parameter. A transition returns the new state and
    the effects it starts (contract reads, the link callback, closing). */
module LinkModal {
  import opened Wrappers
  import opened JsError
  import opened DataUri

  /** One registry tab: the count read from the contract (`None` until it
      arrives), the selected id, the loaded entry text and whether a load is
      running. */
  datatype Pane = Pane(count: Option<int>, selected: Option<int>, src: string, loading: bool)

  /** The whole dialog: the active tab, both panes, the shared error text and
      the shared busy flag. */
  datatype State = State(tab: Kind, html: Pane, preview: Pane, err: string, busy: bool)

  datatype Effect =
    | ReadCounts                          // both registry counts, read together
    | ReadEntry(kind: Kind, id: int)      // one registry entry
    | ConfirmCall(kind: Kind, id: int)    // the caller's link callback
    | CloseCall                           // the caller's close callback

  datatype Step = Step(state: State, effects: seq<Effect>)

  /** The buttons of the dialog. */
  datatype Control = TabButton(kind: Kind) | IdButton(kind: Kind, id: int) | ConfirmButton(kind: Kind) | CloseButton

  const ClientNotReady: string := "Public client not ready."
  const CountsFailed: string := "Failed to load registry counts"

  function BadEntry(k: Kind): string {
    if k == Html then "Bad HTML data URL" else "Bad preview image data URL"
  }

  function FetchFailed(k: Kind): string {
    if k == Html then "Failed to fetch HTML entry" else "Failed to fetch preview entry"
  }

  const EmptyPane: Pane := Pane(None, None, "", false)

  const Initial: State := State(Html, EmptyPane, EmptyPane, "", false)

  function PaneOf(s: State, k: Kind): Pane {
    if k == Html then s.html else s.preview
  }

  function WithPane(s: State, k: Kind, p: Pane): State {
    if k == Html then s.(html := p) else s.(preview := p)
  }

  /** A JavaScript number used as a condition: `null` and 0 are false. */
  predicate Truthy(n: Option<int>) {
    n.Some? && n.value != 0
  }

  /** The ids offered for a registry: 1..count, none while the count is
      unknown or not positive. */
  function Ids(count: Option<int>): (r: seq<int>)
    ensures |r| == if count.Some? && count.value > 0 then count.value else 0
  {
    if !Truthy(count) || count.value <= 0 then [] else seq(count.value, i => i + 1)
  }

  /** The id grid offers exactly the ids from 1 to the count, in order. */
  lemma IdsAreOneToCount(count: Option<int>)
    ensures forall x :: x in Ids(count) <==> count.Some? && 1 <= x <= count.value
    ensures forall i :: 0 <= i < |Ids(count)| ==> Ids(count)[i] == i + 1
    ensures count.None? || count.value <= 0 ==> Ids(count) == []
  {
    var r := Ids(count);
    if count.Some? && count.value > 0 {
      forall x | 1 <= x <= count.value ensures x in r {
        assert r[x - 1] == x;
      }
    }
  }

  predicate Accepts(k: Kind, v: Option<string>) {
    if k == Html then HtmlLoaderAccepts(v) else PreviewLoaderAccepts(v)
  }

  // ---------------------------------------------------------------------------
  // Transitions
  // ---------------------------------------------------------------------------

  /** Opening the dialog: without a client only the error is set, otherwise
      both counts are requested. */
  function Open(clientReady: bool): Step {
    if clientReady then Step(Initial, [ReadCounts]) else Step(Initial.(err := ClientNotReady), [])
  }

  /** The start of a load: the error and the pane's text are cleared and the
      pane shows as loading; without a client the load fails at once. */
  function BeginLoad(s: State, k: Kind, id: int, clientReady: bool): Step {
    var started := WithPane(s.(err := ""), k, PaneOf(s, k).(loading := true, src := ""));
    if clientReady then Step(started, [ReadEntry(k, id)])
    else Step(FinishLoad(started, k, Err(Thrown(ClientNotReady))), [])
  }

  /** The end of a load. An accepted text becomes the pane's text; a refused
      text or a failed read sets the error and leaves the text as it is. The
      pane stops loading either way. Nothing compares the answer with the
      current selection. */
  function FinishLoad(s: State, k: Kind, r: Result<Option<string>, ErrorInfo>): State {
    var p := PaneOf(s, k).(loading := false);
    match r
    case Ok(v) =>
      if Accepts(k, v) then WithPane(s, k, p.(src := v.value))
      else WithPane(s.(err := WagmiText(Thrown(BadEntry(k)), FetchFailed(k))), k, p)
    case Err(e) =>
      WithPane(s.(err := WagmiText(e, FetchFailed(k))), k, p)
  }

  /** Selecting the first id of a registry whose count is positive, and
      loading it. */
  function AutoSelect(s: State, k: Kind, n: int): Step {
    if n > 0 then BeginLoad(WithPane(s, k, PaneOf(s, k).(selected := Some(1))), k, 1, true)
    else Step(s, [])
  }

  /** Both counts arrived (or their read failed). The loads of id 1 run in the
      closure that found the client, so they always issue their reads. */
  function CountsArrived(s: State, r: Result<(int, int), ErrorInfo>): Step {
    match r
    case Err(e) => Step(s.(err := WagmiText(e, CountsFailed)), [])
    case Ok((hc, pc)) =>
      var s1 := s.(html := s.html.(count := Some(hc)), preview := s.preview.(count := Some(pc)));
      var h := AutoSelect(s1, Html, hc);
      var q := AutoSelect(h.state, Preview, pc);
      Step(q.state, h.effects + q.effects)
  }

  /** The confirm button's click handler. */
  function ConfirmHandler(s: State, k: Kind): Step {
    var sel := PaneOf(s, k).selected;
    if !Truthy(sel) then Step(s, [])
    else Step(s.(busy := true), [ConfirmCall(k, sel.value)])
  }

  /** The link callback settled: close only after it resolved; the busy flag
      is released either way. A rejection escapes the handler without
      setting the error. */
  function ConfirmSettled(s: State, resolved: bool): Step {
    if resolved then Step(s.(busy := false), [CloseCall]) else Step(s.(busy := false), [])
  }

  /** A button is on screen: tabs and close always, an id button for the ids
      of the active tab, a confirm button on the active tab once it has ids. */
  predicate Rendered(s: State, c: Control) {
    match c
    case TabButton(_) => true
    case CloseButton => true
    case IdButton(k, id) => s.tab == k && id in Ids(PaneOf(s, k).count)
    case ConfirmButton(k) => s.tab == k && |Ids(PaneOf(s, k).count)| > 0
  }

  /** Only the confirm buttons are ever disabled: without a selection or
      while busy. */
  predicate Disabled(s: State, c: Control) {
    c.ConfirmButton? && (!Truthy(PaneOf(s, c.kind).selected) || s.busy)
  }

  predicate Enabled(s: State, c: Control) {
    Rendered(s, c) && !Disabled(s, c)
  }

  /** A click. A button that is not on screen or is disabled fires nothing. */
  function Press(s: State, c: Control, clientReady: bool): Step {
    if !Enabled(s, c) then Step(s, [])
    else match c
      case TabButton(k) => Step(s.(tab := k), [])
      case IdButton(k, id) => BeginLoad(WithPane(s, k, PaneOf(s, k).(selected := Some(id))), k, id, clientReady)
      case ConfirmButton(k) => ConfirmHandler(s, k)
      case CloseButton => Step(s, [CloseCall])
  }

  datatype Event =
    | Pressed(control: Control)
    | CountsRead(counts: Result<(int, int), ErrorInfo>)
    | EntryRead(kind: Kind, entry: Result<Option<string>, ErrorInfo>)
    | ConfirmDone(resolved: bool)

  function Apply(s: State, e: Event, clientReady: bool): Step {
    match e
    case Pressed(c) => Press(s, c, clientReady)
    case CountsRead(r) => CountsArrived(s, r)
    case EntryRead(k, r) => Step(FinishLoad(s, k, r), [])
    case ConfirmDone(ok) => ConfirmSettled(s, ok)
  }

  /** A sequence of events from a state, collecting every effect started. */
  function Run(s: State, events: seq<Event>, clientReady: bool): Step
    decreases |events|
  {
    if |events| == 0 then Step(s, [])
    else
      var first := Apply(s, events[0], clientReady);
      var rest := Run(first.state, events[1..], clientReady);
      Step(rest.state, first.effects + rest.effects)
  }

  // ---------------------------------------------------------------------------
  // What is on screen
  // ---------------------------------------------------------------------------

  /** "Loading entries…" while the count is unknown. */
  predicate ShowsLoadingEntries(p: Pane) { p.count.None? }

  /** "No … entries on-chain." once a count of zero or less is known. */
  predicate ShowsNoEntries(p: Pane) { p.count.Some? && p.count.value <= 0 }

  /** The id grid, preview and confirm button, only when there are ids. */
  predicate ShowsGrid(p: Pane) { |Ids(p.count)| > 0 }

  datatype PreviewView = LoadingPreview | ShowEntry(src: string) | SelectPrompt

  /** The preview area: loading, else the entry text if any, else a prompt. */
  function PreviewOf(p: Pane): PreviewView {
    if p.loading then LoadingPreview else if p.src != "" then ShowEntry(p.src) else SelectPrompt
  }

  /** Exactly one of the three list states is shown, and the grid exactly
      when the count is known and positive. */
  lemma ListStatesExclusive(p: Pane)
    ensures ShowsLoadingEntries(p) || ShowsNoEntries(p) || ShowsGrid(p)
    ensures !(ShowsLoadingEntries(p) && ShowsNoEntries(p))
    ensures !(ShowsLoadingEntries(p) && ShowsGrid(p))
    ensures !(ShowsNoEntries(p) && ShowsGrid(p))
    ensures ShowsGrid(p) <==> p.count.Some? && p.count.value > 0
  {
  }

  // ---------------------------------------------------------------------------
  // Properties
  // ---------------------------------------------------------------------------

  /** A selected id is always one the grid offers. */
  ghost predicate PaneWf(p: Pane) {
    p.selected.Some? ==> p.count.Some? && 1 <= p.selected.value <= p.count.value
  }

  ghost predicate Wf(s: State) {
    PaneWf(s.html) && PaneWf(s.preview)
  }

  lemma OpenWf(clientReady: bool)
    ensures Wf(Open(clientReady).state)
    ensures Open(clientReady).effects == if clientReady then [ReadCounts] else []
    ensures !clientReady ==> Open(clientReady).state.err == ClientNotReady
  {
  }

  /** Every entry read a step starts asks for an id the grid offers. */
  ghost predicate ReadsOffered(r: Step) {
    forall k, id :: ReadEntry(k, id) in r.effects ==> id in Ids(PaneOf(r.state, k).count)
  }

  lemma PressPreservesWf(s: State, c: Control, clientReady: bool)
    requires Wf(s)
    ensures Wf(Press(s, c, clientReady).state)
    ensures ReadsOffered(Press(s, c, clientReady))
  {
    if Enabled(s, c) && c.IdButton? {
      IdsAreOneToCount(PaneOf(s, c.kind).count);
    }
  }

  lemma CountsPreserveWf(s: State, r: Result<(int, int), ErrorInfo>)
    requires Wf(s) && s.html.count.None? && s.preview.count.None?
    ensures Wf(CountsArrived(s, r).state)
    ensures ReadsOffered(CountsArrived(s, r))
  {
    if r.Ok? {
      var (hc, pc) := r.value;
      var s1 := s.(html := s.html.(count := Some(hc)), preview := s.preview.(count := Some(pc)));
      var h := AutoSelect(s1, Html, hc);
      AutoSelectWf(s1, Html, hc);
      AutoSelectWf(h.state, Preview, pc);
      IdsAreOneToCount(Some(hc));
      IdsAreOneToCount(Some(pc));
    }
  }

  /** Selecting id 1 of a registry whose count is known keeps the selection
      inside the grid, reads only that id, and leaves the other pane's count
      and selection alone. */
  lemma AutoSelectWf(s: State, k: Kind, n: int)
    requires Wf(s) && PaneOf(s, k).count == Some(n)
    ensures var r := AutoSelect(s, k, n);
      && Wf(r.state)
      && PaneOf(r.state, k).count == Some(n)
      && (forall k', id :: ReadEntry(k', id) in r.effects ==> k' == k && id == 1 && n > 0)
      && r.state.html.count == s.html.count && r.state.preview.count == s.preview.count
      && (k == Html ==> r.state.preview.selected == s.preview.selected)
      && (k == Preview ==> r.state.html.selected == s.html.selected)
  {
  }

  /** Both counts arrive once per opening; every event then keeps the
      selection inside 1..count, and every entry read asks for such an id. */
  lemma ApplyPreservesWf(s: State, e: Event, clientReady: bool)
    requires Wf(s)
    requires e.CountsRead? ==> s.html.count.None? && s.preview.count.None?
    ensures Wf(Apply(s, e, clientReady).state)
    ensures ReadsOffered(Apply(s, e, clientReady))
  {
    match e
    case Pressed(c) => PressPreservesWf(s, c, clientReady);
    case CountsRead(res) => CountsPreserveWf(s, res);
    case EntryRead(k, res) => FinishLoadKeepsSelection(s, k, res);
    case ConfirmDone(_) =>
  }

  /** The end of a load changes neither pane's count nor its selection. */
  lemma FinishLoadKeepsSelection(s: State, k: Kind, r: Result<Option<string>, ErrorInfo>)
    ensures var t := FinishLoad(s, k, r);
      && t.html.count == s.html.count && t.html.selected == s.html.selected
      && t.preview.count == s.preview.count && t.preview.selected == s.preview.selected
  {
  }

  /** After the counts load, a registry with a positive count independently
      gets id 1 selected and loading; a registry with count zero or less gets
      neither, and its pane only learns the count. */
  lemma CountsAutoSelect(s: State, hc: int, pc: int)
    ensures var r := CountsArrived(s, Ok((hc, pc)));
      && r.state.html.count == Some(hc) && r.state.preview.count == Some(pc)
      && (hc > 0 ==> r.state.html.selected == Some(1) && r.state.html.loading && r.state.html.src == "")
      && (pc > 0 ==> r.state.preview.selected == Some(1) && r.state.preview.loading && r.state.preview.src == "")
      && (hc <= 0 ==> r.state.html == s.html.(count := Some(hc)))
      && (pc <= 0 ==> r.state.preview == s.preview.(count := Some(pc)))
      && (ReadEntry(Html, 1) in r.effects <==> hc > 0)
      && (ReadEntry(Preview, 1) in r.effects <==> pc > 0)
      && (forall k, id :: ReadEntry(k, id) in r.effects ==> id == 1)
      && |r.effects| == (if hc > 0 then 1 else 0) + (if pc > 0 then 1 else 0)
  {
  }

  /** A failed count read sets the error text and starts nothing. No count
      is ever known afterwards, so both lists keep showing "Loading
      entries…", no id button or confirm appears, and no later event reads
      an entry. */
  lemma CountsFailure(s: State, e: ErrorInfo, events: seq<Event>, clientReady: bool)
    requires s.html.count.None? && s.preview.count.None?
    requires forall i :: 0 <= i < |events| ==> !events[i].CountsRead?
    ensures CountsArrived(s, Err(e)).state.err == WagmiText(e, CountsFailed)
    ensures CountsArrived(s, Err(e)).effects == []
    ensures var t := Run(CountsArrived(s, Err(e)).state, events, clientReady);
      && ShowsLoadingEntries(t.state.html) && ShowsLoadingEntries(t.state.preview)
      && (forall k, id :: ReadEntry(k, id) !in t.effects)
  {
    UnknownCountsReadNothing(CountsArrived(s, Err(e)).state, events, clientReady);
  }

  /** While neither count is known, no event other than the counts' arrival
      makes one known or reads an entry. */
  lemma {:induction false} UnknownCountsReadNothing(s: State, events: seq<Event>, clientReady: bool)
    requires s.html.count.None? && s.preview.count.None?
    requires forall i :: 0 <= i < |events| ==> !events[i].CountsRead?
    ensures var t := Run(s, events, clientReady);
      && t.state.html.count.None? && t.state.preview.count.None?
      && (forall k, id :: ReadEntry(k, id) !in t.effects)
    decreases |events|
  {
    if |events| > 0 {
      var first := Apply(s, events[0], clientReady);
      if events[0].EntryRead? {
        FinishLoadKeepsSelection(s, events[0].kind, events[0].entry);
      }
      assert first.state.html.count.None? && first.state.preview.count.None?;
      assert forall k, id :: ReadEntry(k, id) !in first.effects;
      UnknownCountsReadNothing(first.state, events[1..], clientReady);
    }
  }

  /** Every load first clears the error and the pane's text and shows it as
      loading; the other pane is untouched. */
  lemma LoadStartsClean(s: State, k: Kind, id: int)
    ensures var r := BeginLoad(s, k, id, true);
      && r.state.err == "" && PaneOf(r.state, k).src == "" && PaneOf(r.state, k).loading
      && PaneOf(r.state, k).selected == PaneOf(s, k).selected
      && PaneOf(r.state, if k == Html then Preview else Html) == PaneOf(s, if k == Html then Preview else Html)
      && r.effects == [ReadEntry(k, id)]
  {
  }

  /** A load that runs alone ends with the pane not loading, holding the text
      exactly when the loader accepts it; otherwise its text stays empty and
      the error is set (non-empty for a refused text). */
  lemma LoadOutcome(s: State, k: Kind, id: int, clientReady: bool, r: Result<Option<string>, ErrorInfo>)
    ensures var b := BeginLoad(s, k, id, clientReady);
      var t := if clientReady then FinishLoad(b.state, k, r) else b.state;
      && !PaneOf(t, k).loading
      && (clientReady && r.Ok? && Accepts(k, r.value) ==> PaneOf(t, k).src == r.value.value && t.err == "")
      && (clientReady && r.Ok? && !Accepts(k, r.value) ==> PaneOf(t, k).src == "" && t.err == BadEntry(k) && t.err != "")
      && (clientReady && r.Err? ==> PaneOf(t, k).src == "" && t.err == WagmiText(r.error, FetchFailed(k)))
      && (!clientReady ==> PaneOf(t, k).src == "" && t.err == ClientNotReady && b.effects == [])
  {
    ThrownShowsOwnMessage(BadEntry(k), FetchFailed(k));
    ThrownShowsOwnMessage(ClientNotReady, FetchFailed(k));
  }

  /** Only the HTML loader can fill the HTML pane with an HTML entry, and the
      preview loader never shows one. */
  lemma PreviewRefusesHtml(s: State, v: string)
    requires HtmlLoaderAccepts(Some(v))
    ensures PaneOf(FinishLoad(s, Preview, Ok(Some(v))), Preview).src == s.preview.src
    ensures FinishLoad(s, Preview, Ok(Some(v))).err == BadEntry(Preview)
  {
    LoadersDisjoint(Some(v));
    ThrownShowsOwnMessage(BadEntry(Preview), FetchFailed(Preview));
  }

  /** A confirm click while the button is disabled fires nothing; an enabled
      one locks the dialog and calls the callback once with the selected id,
      without closing. In a well-formed state "disabled" means exactly "no
      selection or busy". The handler checks the selection again itself, so
      even when called directly it starts nothing without one. */
  lemma ConfirmGuard(s: State, k: Kind, clientReady: bool)
    requires Wf(s)
    ensures var sel := PaneOf(s, k).selected;
      Disabled(s, ConfirmButton(k)) <==> sel.None? || s.busy
    ensures var r := Press(s, ConfirmButton(k), clientReady);
      Disabled(s, ConfirmButton(k)) ==> r == Step(s, [])
    ensures var r := Press(s, ConfirmButton(k), clientReady);
      Enabled(s, ConfirmButton(k)) ==>
        && r.effects == [ConfirmCall(k, PaneOf(s, k).selected.value)]
        && r.state == s.(busy := true)
    ensures CloseCall !in Press(s, ConfirmButton(k), clientReady).effects
    ensures PaneOf(s, k).selected.None? ==> ConfirmHandler(s, k).effects == []
  {
  }

  /** The callback's outcome releases the lock either way, and the dialog is
      closed only when the callback resolved. */
  lemma SettleReleasesLock(s: State, resolved: bool)
    ensures !ConfirmSettled(s, resolved).state.busy
    ensures (CloseCall in ConfirmSettled(s, resolved).effects) <==> resolved
    ensures ConfirmSettled(s, resolved).state == s.(busy := false)
  {
  }

  /** Until the pending callback settles, no event leaves the lock and no
      second callback starts: double clicks cannot submit twice. */
  lemma {:induction false} NoSecondConfirmWhileBusy(s: State, events: seq<Event>, clientReady: bool)
    requires s.busy
    requires forall i :: 0 <= i < |events| ==> !events[i].ConfirmDone?
    ensures Run(s, events, clientReady).state.busy
    ensures forall k, id :: ConfirmCall(k, id) !in Run(s, events, clientReady).effects
    decreases |events|
  {
    if |events| > 0 {
      var first := Apply(s, events[0], clientReady);
      assert first.state.busy;
      assert forall k, id :: ConfirmCall(k, id) !in first.effects;
      NoSecondConfirmWhileBusy(first.state, events[1..], clientReady);
    }
  }

  /** Nothing discards a late answer: with id 1 still loading, clicking id 3
      starts a second read, and when the answer for id 1 then arrives the
      pane shows entry 1 while id 3 is the selection a confirm would link. */
  lemma LateAnswerIsShown(entry1: string)
    requires HtmlLoaderAccepts(Some(entry1)) && entry1 != ""
    ensures var counted := CountsArrived(Open(true).state, Ok((3, 0)));
      var clicked := Press(counted.state, IdButton(Html, 3), true);
      var late := FinishLoad(clicked.state, Html, Ok(Some(entry1)));
      && counted.effects == [ReadEntry(Html, 1)]
      && clicked.effects == [ReadEntry(Html, 3)]
      && late.html.selected == Some(3)
      && PreviewOf(late.html) == ShowEntry(entry1)
  {
    var counted := CountsArrived(Open(true).state, Ok((3, 0)));
    IdsAreOneToCount(counted.state.html.count);
    assert 3 in Ids(counted.state.html.count);
  }
}
