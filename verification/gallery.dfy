/** The owner's gallery: two tabs, each showing a grid of the tokens the
    wallet holds in one collection, fetched from an NFT indexer.

    The grid keeps its list, a loading flag and an error text. Both tabs
    render the grid at the same place in the page, so switching tabs keeps
    the grid's state and only re-runs its fetch. The grid never clears its
    error text: `StartFetch` and `SelectTab` are the code as it stands, and
    `StartFetchClearingError` and `SelectTabClearingError` the same steps
    clearing the error when a new fetch starts. */
module Gallery {
  import opened Wrappers
  import opened JsText
  import opened JsError
  import opened TokenMeta

  const CruContract: string := "0x05D8a0Df083bB20FfB9360B3aF458A5de5c9F2A4"
  const SkullsContract: string := "0x9251dEC8DF720C2ADF3B6f46d968107cbBADf4d4"
  const Placeholder: string := "/placeholder.png"
  const FetchFailed: string := "Failed to fetch NFTs"
  const LoadFailed: string := "Failed to load NFTs"

  /** An owned token as the indexer lists it: its id, the indexer's image URL
      and the image named in its raw metadata. */
  datatype Nft = Nft(tokenId: Option<string>, imageUrl: Option<string>, metadataImage: Option<string>)

  // ---------------------------------------------------------------------------
  // Cards
  // ---------------------------------------------------------------------------

  datatype CardView = CardView(caption: string, image: string)

  /** A CRU card: the id read as a `BigInt` and written in decimal, and the
      image from the token URI's metadata, else the placeholder. `None` is a
      token id `BigInt` cannot read. */
  function CruCard(nft: Nft, tokenUri: Option<string>, decode: string -> Option<Meta>): Option<CardView> {
    match CardTokenId(nft.tokenId)
    case None => None
    case Some(id) =>
      var meta := DecodeTokenUri(tokenUri, decode);
      Some(CardView(IntString(id), OrElse(if meta.Some? then meta.value.image else None, Placeholder)))
  }

  /** A skull card: a `0x` id in decimal, any other id as given, and the
      indexer's image, else the metadata image, else the placeholder. */
  function SkullCard(nft: Nft): Option<CardView> {
    match SkullLabel(nft.tokenId.GetOr(""))
    case None => None
    case Some(caption) => Some(CardView(caption, OrElse(nft.imageUrl, OrElse(nft.metadataImage, Placeholder))))
  }

  /** The skull image is the first non-empty of the indexer's image and the
      metadata image, else the placeholder; it is never empty. */
  lemma SkullImagePriority(nft: Nft)
    requires SkullCard(nft).Some?
    ensures SkullCard(nft).value.image != ""
    ensures Truthy(nft.imageUrl) ==> SkullCard(nft).value.image == nft.imageUrl.value
    ensures !Truthy(nft.imageUrl) && Truthy(nft.metadataImage) ==> SkullCard(nft).value.image == nft.metadataImage.value
    ensures !Truthy(nft.imageUrl) && !Truthy(nft.metadataImage) ==> SkullCard(nft).value.image == Placeholder
  {
  }

  /** A CRU card shows the metadata image when there is one, else the
      placeholder, and labels the card with the decimal id: a hexadecimal
      id in decimal, a decimal id unchanged. */
  lemma CruCardShows(n: nat, hex: bool, tokenUri: Option<string>, decode: string -> Option<Meta>)
    ensures var nft := Nft(Some(if hex then "0x" + ToRadix(n, 16) else DecimalString(n)), None, None);
      var meta := DecodeTokenUri(tokenUri, decode);
      && CruCard(nft, tokenUri, decode).Some?
      && CruCard(nft, tokenUri, decode).value.caption == DecimalString(n)
      && (meta.Some? && Truthy(meta.value.image) ==>
            CruCard(nft, tokenUri, decode).value.image == meta.value.image.value)
      && (meta.None? ==> CruCard(nft, tokenUri, decode).value.image == Placeholder)
  {
    TokenIdNormalisation(Some(if hex then "0x" + ToRadix(n, 16) else DecimalString(n)), n);
  }

  // ---------------------------------------------------------------------------
  // The grid loader
  // ---------------------------------------------------------------------------

  datatype Grid = Grid(nfts: seq<Nft>, loading: bool, err: string)

  const EmptyGrid: Grid := Grid([], false, "")

  /** Who is looking: the wallet address, whether it is a well-formed address,
      and whether an indexer key is configured. */
  datatype Env = Env(owner: Option<string>, ownerIsAddress: bool, hasApiKey: bool)

  predicate HasOwner(env: Env) {
    env.owner.Some? && env.owner.value != ""
  }

  predicate CanFetch(env: Env) {
    HasOwner(env) && env.ownerIsAddress && env.hasApiKey
  }

  /** The indexer request: owner, collection and whether to include metadata. */
  datatype Query = Query(owner: string, contract: string, withMetadata: bool)

  datatype GridStep = GridStep(grid: Grid, fetch: Option<Query>)

  /** The grid's effect as the code has it: without an owner, a valid address
      or a key the list is emptied and nothing is fetched; otherwise loading
      starts, and the error text is left as it was. */
  function StartFetch(g: Grid, env: Env, contract: string, withMetadata: bool): GridStep {
    if !CanFetch(env) then GridStep(g.(nfts := []), None)
    else GridStep(g.(loading := true), Some(Query(env.owner.value, contract, withMetadata)))
  }

  /** The same effect clearing the previous error when a new fetch starts. */
  function StartFetchClearingError(g: Grid, env: Env, contract: string, withMetadata: bool): GridStep {
    if !CanFetch(env) then GridStep(g.(nfts := []), None)
    else GridStep(g.(loading := true, err := ""), Some(Query(env.owner.value, contract, withMetadata)))
  }

  /** What the indexer answered: a non-OK status, a body with an optional
      list, or a thrown error. */
  datatype FetchOutcome = NotOk | Listed(ownedNfts: Option<seq<Nft>>) | Threw(e: ErrorInfo)

  /** The fetch settled; loading ends either way. */
  function Fetched(g: Grid, o: FetchOutcome): Grid {
    match o
    case NotOk => g.(err := FetchText(Thrown(FetchFailed), LoadFailed), loading := false)
    case Listed(list) => g.(nfts := list.GetOr([]), loading := false)
    case Threw(e) => g.(err := FetchText(e, LoadFailed), loading := false)
  }

  datatype CardKind = CruKind | SkullKind

  /** Cards are CRU cards exactly when the grid's collection is the CRU
      contract, compared without regard to letter case. */
  function KindOf(contract: string): CardKind {
    if Lower(contract) == Lower(CruContract) then CruKind else SkullKind
  }

  datatype View = ConnectPrompt | LoadingView | ErrorView(message: string) | NoNfts | Cards(nfts: seq<Nft>, kind: CardKind)

  /** What the grid shows, in order of precedence: a prompt without an owner,
      the loading text, the error, the empty text, the cards. */
  function Render(env: Env, g: Grid, contract: string): View {
    if !HasOwner(env) then ConnectPrompt
    else if g.loading then LoadingView
    else if g.err != "" then ErrorView(g.err)
    else if |g.nfts| == 0 then NoNfts
    else Cards(g.nfts, KindOf(contract))
  }

  // ---------------------------------------------------------------------------
  // The two tabs
  // ---------------------------------------------------------------------------

  datatype Tab = CruTab | SkullsTab

  function TabContract(t: Tab): string {
    if t == CruTab then CruContract else SkullsContract
  }

  /** Only the skulls tab asks the indexer for metadata. */
  function TabWithMetadata(t: Tab): bool {
    t == SkullsTab
  }

  datatype GalleryState = GalleryState(tab: Tab, grid: Grid)

  datatype GalleryStep = GalleryStep(gallery: GalleryState, fetch: Option<Query>)

  /** Opening the gallery: the CRU tab with a fresh grid whose effect runs. */
  function Open(env: Env): GalleryStep {
    var r := StartFetch(EmptyGrid, env, CruContract, false);
    GalleryStep(GalleryState(CruTab, r.grid), r.fetch)
  }

  /** Clicking a tab button: the same tab changes nothing; another tab keeps
      the grid and re-runs its effect for the other collection. */
  function SelectTab(v: GalleryState, t: Tab, env: Env): GalleryStep {
    if t == v.tab then GalleryStep(v, None)
    else
      var r := StartFetch(v.grid, env, TabContract(t), TabWithMetadata(t));
      GalleryStep(GalleryState(t, r.grid), r.fetch)
  }

  /** The same click with the effect that clears the error. */
  function SelectTabClearingError(v: GalleryState, t: Tab, env: Env): GalleryStep {
    if t == v.tab then GalleryStep(v, None)
    else
      var r := StartFetchClearingError(v.grid, env, TabContract(t), TabWithMetadata(t));
      GalleryStep(GalleryState(t, r.grid), r.fetch)
  }

  function Settle(v: GalleryState, o: FetchOutcome): GalleryState {
    v.(grid := Fetched(v.grid, o))
  }

  // ---------------------------------------------------------------------------
  // Properties
  // ---------------------------------------------------------------------------

  /** Without an owner, a valid address or a key the list is emptied and no
      request is made; otherwise exactly the request for this owner and
      collection is made and the grid is loading, still holding its list and
      its error text. */
  lemma FetchGuard(g: Grid, env: Env, contract: string, withMetadata: bool)
    ensures !CanFetch(env) ==> StartFetch(g, env, contract, withMetadata) == GridStep(g.(nfts := []), None)
    ensures CanFetch(env) ==> StartFetch(g, env, contract, withMetadata).fetch == Some(Query(env.owner.value, contract, withMetadata))
                              && StartFetch(g, env, contract, withMetadata).grid.loading
                              && StartFetch(g, env, contract, withMetadata).grid.err == g.err
                              && StartFetch(g, env, contract, withMetadata).grid.nfts == g.nfts
  {
  }

  /** Loading ends with every outcome; a non-OK status shows its own text, a
      thrown error its message or the default, and a missing list is empty. */
  lemma FetchOutcomes(g: Grid, o: FetchOutcome)
    ensures !Fetched(g, o).loading
    ensures o.NotOk? ==> Fetched(g, o).err == FetchFailed
    ensures o.Threw? ==> Fetched(g, o).err == FetchText(o.e, LoadFailed) && Fetched(g, o).err != ""
    ensures o == Listed(None) ==> Fetched(g, o).nfts == []
    ensures o.Listed? ==> Fetched(g, o).err == g.err
  {
    ThrownShowsOwnMessage(FetchFailed, LoadFailed);
    EmptyMessageHandling(LoadFailed);
  }

  /** The render precedence: each view appears exactly when every earlier one
      does not apply. */
  lemma RenderPrecedence(env: Env, g: Grid, contract: string)
    ensures Render(env, g, contract) == ConnectPrompt <==> !HasOwner(env)
    ensures Render(env, g, contract) == LoadingView <==> HasOwner(env) && g.loading
    ensures Render(env, g, contract).ErrorView? <==> HasOwner(env) && !g.loading && g.err != ""
    ensures Render(env, g, contract) == NoNfts <==> HasOwner(env) && !g.loading && g.err == "" && |g.nfts| == 0
    ensures Render(env, g, contract).Cards? <==> HasOwner(env) && !g.loading && g.err == "" && |g.nfts| > 0
  {
  }

  /** Upper-casing the address does not change the card kind. */
  lemma KindIgnoresCase(contract: string)
    ensures KindOf(Upper(contract)) == KindOf(contract)
  {
    LowerOfUpper(contract);
  }

  /** The CRU tab shows CRU cards and the skulls tab skull cards. */
  lemma TabsShowTheirKind()
    ensures KindOf(TabContract(CruTab)) == CruKind
    ensures KindOf(TabContract(SkullsTab)) == SkullKind
  {
    assert Lower(SkullsContract)[2] != Lower(CruContract)[2];
  }

  /** The corrected grid: once a fetch that was started settles with a list,
      the view is that list (or the empty text), whatever error an earlier
      fetch left behind. */
  lemma FreshListIsShown(g: Grid, env: Env, contract: string, withMetadata: bool, list: Option<seq<Nft>>)
    requires CanFetch(env)
    ensures var after := Fetched(StartFetchClearingError(g, env, contract, withMetadata).grid, Listed(list));
      Render(env, after, contract) == if |list.GetOr([])| == 0 then NoNfts else Cards(list.GetOr([]), KindOf(contract))
  {
  }

  /** The code as written: a failed fetch on the CRU tab followed by a
      successful one on the skulls tab still shows the first fetch's error
      instead of the skulls. */
  lemma StaleErrorAsWritten(env: Env, skulls: seq<Nft>)
    requires CanFetch(env) && |skulls| > 0
    ensures var start := Open(env).gallery;
      var failed := Settle(start, NotOk);
      var switched := SelectTab(failed, SkullsTab, env);
      var loaded := Settle(switched.gallery, Listed(Some(skulls)));
      && switched.fetch == Some(Query(env.owner.value, SkullsContract, true))
      && Render(env, loaded.grid, SkullsContract) == ErrorView(FetchFailed)
  {
    ThrownShowsOwnMessage(FetchFailed, LoadFailed);
  }

  /** The same sequence with the corrected step shows the skull cards. */
  lemma SwitchShowsNewTab(env: Env, skulls: seq<Nft>)
    requires CanFetch(env) && |skulls| > 0
    ensures var start := Open(env).gallery;
      var failed := Settle(start, NotOk);
      var switched := SelectTabClearingError(failed, SkullsTab, env);
      var loaded := Settle(switched.gallery, Listed(Some(skulls)));
      Render(env, loaded.grid, SkullsContract) == Cards(skulls, SkullKind)
  {
    TabsShowTheirKind();
  }
}
