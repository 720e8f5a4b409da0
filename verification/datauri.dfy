/** The two data-URI checks (RFC 2397, section 3 syntax `data:[<mediatype>][;base64],<data>`).

    The entry-creation form validates leniently: it trims the text,
    lower-cases it and looks for one of a fixed set of media-type prefixes.
    The registry browser validates what it reads back strictly: the raw text
    must start with `data:text/html` (HTML registry) or `data:image` (preview
    registry), case-sensitively. */
module DataUri {
  import opened Wrappers
  import opened JsText

  /** The two on-chain registries an entry can belong to. */
  datatype Kind = Html | Preview

  const HtmlPrefixes: seq<string> := ["data:text/html;base64,", "data:text/html;utf8,", "data:text/html,"]

  const RasterPrefixes: seq<string> :=
    ["data:image/png;base64,", "data:image/jpeg;base64,", "data:image/gif;base64,", "data:image/webp;base64,"]

  const SvgPrefixes: seq<string> := ["data:image/svg+xml;base64,", "data:image/svg+xml;utf8,", "data:image/svg+xml,"]

  /** What the creation form compares: the trimmed, lower-cased text. */
  function Normalize(s: string): string {
    Lower(Trim(s))
  }

  /** The prefix test the creation form applies to the normalised HTML text. */
  predicate HtmlPrefixed(v: string) {
    StartsWith(v, HtmlPrefixes[0]) || StartsWith(v, HtmlPrefixes[1]) || StartsWith(v, HtmlPrefixes[2])
  }

  /** The prefix test the creation form applies to the normalised image text:
      a raster prefix, else an SVG prefix. */
  predicate ImagePrefixed(v: string) {
    if StartsWith(v, RasterPrefixes[0]) || StartsWith(v, RasterPrefixes[1])
       || StartsWith(v, RasterPrefixes[2]) || StartsWith(v, RasterPrefixes[3])
    then true
    else StartsWith(v, SvgPrefixes[0]) || StartsWith(v, SvgPrefixes[1]) || StartsWith(v, SvgPrefixes[2])
  }

  /** The creation form's HTML check. */
  predicate HtmlValid(s: string) {
    HtmlPrefixed(Normalize(s))
  }

  /** The creation form's image check. */
  predicate PreviewValid(s: string) {
    ImagePrefixed(Normalize(s))
  }

  /** The HTML registry loader's check on the text read back (a missing value fails). */
  predicate HtmlLoaderAccepts(v: Option<string>) {
    v.Some? && StartsWith(v.value, "data:text/html")
  }

  /** The preview registry loader's check on the text read back. */
  predicate PreviewLoaderAccepts(v: Option<string>) {
    v.Some? && StartsWith(v.value, "data:image")
  }

  /** `v` is one of the prefixes followed by some payload. */
  ghost predicate HasPrefixFrom(v: string, prefixes: seq<string>) {
    exists i, payload :: 0 <= i < |prefixes| && v == prefixes[i] + payload
  }

  /** Starting with some prefix from a list is having the shape prefix + payload. */
  lemma StartsWithSome(v: string, prefixes: seq<string>)
    ensures (exists i :: 0 <= i < |prefixes| && StartsWith(v, prefixes[i])) <==> HasPrefixFrom(v, prefixes)
  {
    if exists i :: 0 <= i < |prefixes| && StartsWith(v, prefixes[i]) {
      var i :| 0 <= i < |prefixes| && StartsWith(v, prefixes[i]);
      assert v == prefixes[i] + v[|prefixes[i]|..];
    }
    if HasPrefixFrom(v, prefixes) {
      var i, payload :| 0 <= i < |prefixes| && v == prefixes[i] + payload;
      assert v[..|prefixes[i]|] == prefixes[i];
    }
  }

  /** The HTML check holds exactly when the normalised text is one of the
      three HTML prefixes followed by a payload. */
  lemma HtmlValidMeaning(s: string)
    ensures HtmlValid(s) <==> HasPrefixFrom(Normalize(s), HtmlPrefixes)
  {
    var v := Normalize(s);
    StartsWithSome(v, HtmlPrefixes);
    HtmlPrefixedSome(v);
  }

  /** The HTML prefix test is a test against the three prefixes in turn. */
  lemma HtmlPrefixedSome(v: string)
    ensures HtmlPrefixed(v) <==> exists i :: 0 <= i < |HtmlPrefixes| && StartsWith(v, HtmlPrefixes[i])
  {
    if HtmlPrefixed(v) {
      if StartsWith(v, HtmlPrefixes[0]) {
        assert StartsWith(v, HtmlPrefixes[0]);
      } else if StartsWith(v, HtmlPrefixes[1]) {
        assert StartsWith(v, HtmlPrefixes[1]);
      } else {
        assert StartsWith(v, HtmlPrefixes[2]);
      }
    }
  }

  /** The image check holds exactly when the normalised text is one of the
      four raster or three SVG prefixes followed by a payload. */
  lemma PreviewValidMeaning(s: string)
    ensures PreviewValid(s) <==> HasPrefixFrom(Normalize(s), RasterPrefixes + SvgPrefixes)
  {
    var v := Normalize(s);
    StartsWithSome(v, RasterPrefixes + SvgPrefixes);
    ImagePrefixedSome(v);
  }

  /** The image prefix test is a test against the seven prefixes in turn. */
  lemma ImagePrefixedSome(v: string)
    ensures var all := RasterPrefixes + SvgPrefixes;
      ImagePrefixed(v) <==> exists i :: 0 <= i < |all| && StartsWith(v, all[i])
  {
    var all := RasterPrefixes + SvgPrefixes;
    assert |all| == 7;
    assert all[..4] == RasterPrefixes && all[4..] == SvgPrefixes;
    if ImagePrefixed(v) {
      if StartsWith(v, RasterPrefixes[0]) {
        assert StartsWith(v, all[0]);
      } else if StartsWith(v, RasterPrefixes[1]) {
        assert StartsWith(v, all[1]);
      } else if StartsWith(v, RasterPrefixes[2]) {
        assert StartsWith(v, all[2]);
      } else if StartsWith(v, RasterPrefixes[3]) {
        assert StartsWith(v, all[3]);
      } else if StartsWith(v, SvgPrefixes[0]) {
        assert StartsWith(v, all[4]);
      } else if StartsWith(v, SvgPrefixes[1]) {
        assert StartsWith(v, all[5]);
      } else {
        assert StartsWith(v, all[6]);
      }
    }
    if exists i :: 0 <= i < |all| && StartsWith(v, all[i]) {
      var i :| 0 <= i < |all| && StartsWith(v, all[i]);
      if i < 4 {
        assert all[i] == RasterPrefixes[i];
      } else {
        assert all[i] == SvgPrefixes[i - 4];
      }
    }
  }

  /** Upper-casing the text changes neither check's verdict. */
  lemma UpperKeepsVerdict(s: string)
    ensures HtmlValid(Upper(s)) == HtmlValid(s)
    ensures PreviewValid(Upper(s)) == PreviewValid(s)
  {
    TrimUpper(s);
    LowerOfUpper(Trim(s));
  }

  /** Both checks ignore ASCII letter case and surrounding white space:
      padding the text with spaces and upper-casing it changes nothing. */
  lemma ValidationIgnoresCaseAndSpace(s: string, w1: string, w2: string)
    requires AllSpace(w1) && AllSpace(w2)
    ensures HtmlValid(w1 + Upper(s) + w2) == HtmlValid(s)
    ensures PreviewValid(w1 + Upper(s) + w2) == PreviewValid(s)
  {
    TrimPadded(w1, Upper(s), w2);
    TrimUpper(s);
    LowerOfUpper(Trim(s));
    assert Normalize(w1 + Upper(s) + w2) == Normalize(s);
  }

  lemma StartsWithChar(v: string, p: string, k: nat)
    requires StartsWith(v, p) && k < |p|
    ensures v[k] == p[k]
  {
    assert v[..|p|][k] == v[k];
  }

  /** Every HTML prefix reads `data:t…`, every image prefix `data:i…`. */
  lemma PrefixedSixthChar(v: string)
    ensures HtmlPrefixed(v) ==> |v| > 5 && v[5] == 't'
    ensures ImagePrefixed(v) ==> |v| > 5 && v[5] == 'i'
  {
    forall i | 0 <= i < |HtmlPrefixes| && StartsWith(v, HtmlPrefixes[i])
      ensures v[5] == 't'
    {
      StartsWithChar(v, HtmlPrefixes[i], 5);
    }
    forall i | 0 <= i < |RasterPrefixes| && StartsWith(v, RasterPrefixes[i])
      ensures v[5] == 'i'
    {
      StartsWithChar(v, RasterPrefixes[i], 5);
    }
    forall i | 0 <= i < |SvgPrefixes| && StartsWith(v, SvgPrefixes[i])
      ensures v[5] == 'i'
    {
      StartsWithChar(v, SvgPrefixes[i], 5);
    }
  }

  /** No text passes both creation checks. */
  lemma ValidatorsDisjoint(s: string)
    ensures !(HtmlValid(s) && PreviewValid(s))
  {
    PrefixedSixthChar(Normalize(s));
  }

  /** A lower-case prefix that does not begin or end with white space
      survives normalisation of any text it starts. */
  lemma NormalizeKeepsPrefix(p: string, payload: string)
    requires |p| > 0 && !IsSpace(p[0]) && !IsSpace(p[|p| - 1])
    requires forall i :: 0 <= i < |p| ==> !('A' <= p[i] <= 'Z')
    ensures StartsWith(Normalize(p + payload), p)
  {
    TrimKeepsPrefix(p, payload);
    var t := Trim(p + payload);
    assert t == p + t[|p|..];
    LowerAppend(p, t[|p|..]);
    LowerOfLowercase(p);
  }

  /** Every HTML prefix followed by any payload passes the HTML check. */
  lemma HtmlAcceptsPrefixed(i: nat, payload: string)
    requires i < |HtmlPrefixes|
    ensures HtmlValid(HtmlPrefixes[i] + payload)
  {
    var p := HtmlPrefixes[i];
    assert p[0] == 'd' && p[|p| - 1] == ',';
    NormalizeKeepsPrefix(p, payload);
  }

  /** Every raster or SVG prefix followed by any payload passes the image check. */
  lemma PreviewAcceptsPrefixed(i: nat, payload: string)
    requires i < |RasterPrefixes + SvgPrefixes|
    ensures PreviewValid((RasterPrefixes + SvgPrefixes)[i] + payload)
  {
    var p := (RasterPrefixes + SvgPrefixes)[i];
    assert p[0] == 'd' && p[|p| - 1] == ',';
    NormalizeKeepsPrefix(p, payload);
    var v := Normalize(p + payload);
    if i < 4 {
      assert p == RasterPrefixes[i];
    } else {
      assert p == SvgPrefixes[i - 4];
    }
  }

  /** The registry loaders are disjoint as well: no text is both an HTML and
      an image entry. */
  lemma LoadersDisjoint(v: Option<string>)
    ensures !(HtmlLoaderAccepts(v) && PreviewLoaderAccepts(v))
  {
    if HtmlLoaderAccepts(v) {
      assert v.value[5] == "data:text/html"[5];
    }
  }

  /** The loaders are case-sensitive and do not trim: an HTML entry the
      creation form accepts (here ` DATA:TEXT/HTML,…`) can be refused when it
      is read back. */
  lemma CreatedHtmlMayNotLoad(payload: string)
    ensures HtmlValid(" " + Upper(HtmlPrefixes[2] + payload))
    ensures !HtmlLoaderAccepts(Some(" " + Upper(HtmlPrefixes[2] + payload)))
  {
    HtmlAcceptsPrefixed(2, payload);
    ValidationIgnoresCaseAndSpace(HtmlPrefixes[2] + payload, " ", "");
    assert " " + Upper(HtmlPrefixes[2] + payload) + "" == " " + Upper(HtmlPrefixes[2] + payload);
    assert (" " + Upper(HtmlPrefixes[2] + payload))[0] == ' ';
  }

  /** The same for an image entry written in capitals (`DATA:IMAGE/PNG;BASE64,…`). */
  lemma CreatedImageMayNotLoad(payload: string)
    ensures PreviewValid(Upper(RasterPrefixes[0] + payload))
    ensures !PreviewLoaderAccepts(Some(Upper(RasterPrefixes[0] + payload)))
  {
    var x := RasterPrefixes[0] + payload;
    PreviewAcceptsPrefixed(0, payload);
    assert (RasterPrefixes + SvgPrefixes)[0] == RasterPrefixes[0];
    UpperKeepsVerdict(x);
    CapitalNotLowerPrefix(x, "data:image");
  }

  /** Upper-casing a text that starts with a lower-case letter moves it out of
      reach of a prefix test that starts with that letter. */
  lemma CapitalNotLowerPrefix(x: string, p: string)
    requires |x| > 0 && |p| > 0 && x[0] == p[0] && 'a' <= p[0] <= 'z'
    ensures !StartsWith(Upper(x), p)
  {
    assert Upper(x)[0] == AsciiUpper(x[0]);
  }

  /** An entry written with a lower-case prefix and no leading white space
      passes both the creation check and the loader check of its registry. */
  lemma CanonicalEntriesLoad(i: nat, payload: string)
    ensures i < |HtmlPrefixes| ==> HtmlLoaderAccepts(Some(HtmlPrefixes[i] + payload))
    ensures i < |RasterPrefixes + SvgPrefixes| ==> PreviewLoaderAccepts(Some((RasterPrefixes + SvgPrefixes)[i] + payload))
  {
    if i < |HtmlPrefixes| {
      var p := HtmlPrefixes[i];
      assert (p + payload)[..14] == p[..14];
    }
    if i < |RasterPrefixes + SvgPrefixes| {
      var p := (RasterPrefixes + SvgPrefixes)[i];
      assert (p + payload)[..10] == p[..10];
    }
  }
}
