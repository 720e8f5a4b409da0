/** The token dialog: the token's animation or image, its traits, and the
    buttons that open the link and create dialogs for this token.

    The dialog reads the token id once, as a `BigInt`, and hands that same id
    to every link the link dialog confirms. */
module NftModal {
  import opened Wrappers
  import opened JsText
  import opened Contract
  import opened TokenMeta
  import DataUri
  import LinkModal
  import Mint

  /** What the media area shows. */
  datatype Media = Animation(src: string) | Image(src: string) | NoMedia

  function AnimationUrl(meta: Option<Meta>): Option<string> {
    if meta.Some? then meta.value.animationUrl else None
  }

  function ImageUrl(meta: Option<Meta>): Option<string> {
    if meta.Some? then meta.value.image else None
  }

  /** The animation if the metadata names a non-empty one, else the image if
      it names a non-empty one, else the "nothing to show" text. */
  function MediaOf(meta: Option<Meta>): Media {
    if Truthy(AnimationUrl(meta)) then Animation(AnimationUrl(meta).value)
    else if Truthy(ImageUrl(meta)) then Image(ImageUrl(meta).value)
    else NoMedia
  }

  /** The full-screen button is shown when the animation URL is non-empty. */
  predicate FullscreenOffered(meta: Option<Meta>) {
    Truthy(AnimationUrl(meta))
  }

  /** The traits listed: the metadata's attributes, none when missing. */
  function Traits(meta: Option<Meta>): seq<Attribute> {
    if meta.Some? && meta.value.attributes.Some? then meta.value.attributes.value else []
  }

  /** A trait's name: its `trait_type`, else its `type`, else "Trait". Only a
      missing field falls through; an empty one is shown empty. */
  function TraitName(a: Attribute): string {
    a.traitType.GetOr(a.typeName.GetOr("Trait"))
  }

  /** `String(value ?? '')`. */
  function TraitText(a: Attribute): string {
    match a.value
    case None => ""
    case Some(Str(s)) => s
    case Some(Num(n)) => IntString(n)
  }

  /** The lines of the trait list, in the metadata's order. */
  function TraitLines(meta: Option<Meta>): (r: seq<(string, string)>)
    ensures |r| == |Traits(meta)|
    ensures forall i :: 0 <= i < |r| ==> r[i] == (TraitName(Traits(meta)[i]), TraitText(Traits(meta)[i]))
  {
    var t := Traits(meta);
    seq(|t|, i requires 0 <= i < |t| => (TraitName(t[i]), TraitText(t[i])))
  }

  /** The link dialog's confirm, forwarded to the page's link write with this
      dialog's token id. */
  function Forward(tokenId: int, e: LinkModal.Effect): Option<Call> {
    match e
    case ConfirmCall(k, id) => Some(Mint.LinkCall(k, tokenId, id))
    case _ => None
  }

  // ---------------------------------------------------------------------------
  // Properties
  // ---------------------------------------------------------------------------

  /** The media area shows the animation first, the image second, and the
      text only when neither is named; the full-screen button appears
      exactly with the animation. */
  lemma MediaPriority(meta: Option<Meta>)
    ensures MediaOf(meta).Animation? <==> Truthy(AnimationUrl(meta))
    ensures MediaOf(meta).Image? <==> !Truthy(AnimationUrl(meta)) && Truthy(ImageUrl(meta))
    ensures MediaOf(meta) == NoMedia <==> !Truthy(AnimationUrl(meta)) && !Truthy(ImageUrl(meta))
    ensures MediaOf(meta) != NoMedia ==> MediaOf(meta).src != ""
    ensures FullscreenOffered(meta) <==> MediaOf(meta).Animation?
  {
  }

  /** A trait's name follows `trait_type ?? type ?? 'Trait'`; its text is a
      string value as given, a number's decimal digits (after a minus sign
      when negative), and empty when the value is missing. */
  lemma TraitLabelFallback(a: Attribute)
    ensures a.traitType.Some? ==> TraitName(a) == a.traitType.value
    ensures a.traitType.None? && a.typeName.Some? ==> TraitName(a) == a.typeName.value
    ensures a.traitType.None? && a.typeName.None? ==> TraitName(a) == "Trait"
    ensures a.value.None? ==> TraitText(a) == ""
    ensures forall s :: a.value == Some(Str(s)) ==> TraitText(a) == s
    ensures a.value.Some? && a.value.value.Num? && a.value.value.n >= 0 ==>
              AllDigitsIn(TraitText(a), 10) && ValueIn(TraitText(a), 10) == a.value.value.n
    ensures a.value.Some? && a.value.value.Num? && a.value.value.n < 0 ==>
              |TraitText(a)| >= 2 && TraitText(a)[0] == '-'
              && AllDigitsIn(TraitText(a)[1..], 10) && ValueIn(TraitText(a)[1..], 10) == -a.value.value.n
  {
    if a.value.Some? && a.value.value.Num? {
      var n := a.value.value.n;
      if n >= 0 {
        RadixRoundTrip(n, 10);
      } else {
        NegativeShape(n);
      }
    }
  }

  /** Attributes built from name/text pairs, each with a `trait_type` and a
      string value, are listed as exactly those pairs, in order. */
  lemma TraitLinesShowPairs(pairs: seq<(string, string)>)
    ensures var attrs := seq(|pairs|, i requires 0 <= i < |pairs| => Attribute(Some(pairs[i].0), None, Some(Str(pairs[i].1))));
      TraitLines(Some(Meta(None, None, Some(attrs)))) == pairs
  {
    var attrs := seq(|pairs|, i requires 0 <= i < |pairs| => Attribute(Some(pairs[i].0), None, Some(Str(pairs[i].1))));
    var r := TraitLines(Some(Meta(None, None, Some(attrs))));
    assert |r| == |pairs|;
    forall i | 0 <= i < |pairs| ensures r[i] == pairs[i] {
      TraitLabelFallback(attrs[i]);
    }
  }

  /** Missing metadata or missing attributes list no traits. */
  lemma TraitsDefaultEmpty(meta: Option<Meta>)
    ensures meta.None? || meta.value.attributes.None? ==> TraitLines(meta) == []
  {
  }

  /** End to end: in a well-formed link dialog with a selection, an enabled
      confirm issues one callback, and the dialog turns it into the link
      write for this token and the selected entry, in that argument order. */
  lemma ConfirmLinksThisToken(tokenId: int, s: LinkModal.State, k: DataUri.Kind, clientReady: bool)
    requires LinkModal.Wf(s) && LinkModal.Enabled(s, LinkModal.ConfirmButton(k))
    ensures var r := LinkModal.Press(s, LinkModal.ConfirmButton(k), clientReady);
      var id := LinkModal.PaneOf(s, k).selected.value;
      && |r.effects| == 1
      && Forward(tokenId, r.effects[0]) == Some(Mint.LinkCall(k, tokenId, id))
      && Forward(tokenId, r.effects[0]).value.args == [Uint(tokenId), Uint(id)]
  {
    LinkModal.ConfirmGuard(s, k, clientReady);
  }

  /** The page's write for a confirmed link: the HTML tab's confirm calls
      `linkToHtmlEntry`, the preview tab's `linkToPreviewEntry`, with this
      token and the selected entry and no ether attached. */
  lemma ConfirmCallsPageLinkWrite(tokenId: int, s: LinkModal.State, k: DataUri.Kind, clientReady: bool)
    requires LinkModal.Wf(s) && LinkModal.Enabled(s, LinkModal.ConfirmButton(k))
    ensures var r := LinkModal.Press(s, LinkModal.ConfirmButton(k), clientReady);
      && |r.effects| == 1 && Forward(tokenId, r.effects[0]).Some?
      && var c := Forward(tokenId, r.effects[0]).value;
      && (c.fn == "linkToHtmlEntry" <==> k == DataUri.Html)
      && (c.fn == "linkToPreviewEntry" <==> k == DataUri.Preview)
      && c.args == [Uint(tokenId), Uint(LinkModal.PaneOf(s, k).selected.value)]
      && c.value == 0
  {
    ConfirmLinksThisToken(tokenId, s, k, clientReady);
  }

  /** Only confirms are forwarded: reads and closes write nothing. */
  lemma OnlyConfirmsWrite(tokenId: int, e: LinkModal.Effect)
    ensures Forward(tokenId, e).Some? <==> e.ConfirmCall?
  {
  }
}
