/** Token metadata helpers shared by the gallery cards and the token dialog:
    reading a token URI, reading a token id string as a `BigInt`, and the
    JavaScript `||` fallback on strings.

    A token URI is `data:application/json;base64,<payload>` (RFC 2397). The
    base64 decoding (RFC 4648, section 4) and `JSON.parse` of the payload are
    one parameter `decode` of the reading functions; `None` stands for either
    of them throwing. */
module TokenMeta {
  import opened Wrappers
  import opened JsText

  /** A trait value is a string or a number. */
  datatype TraitValue = Str(s: string) | Num(n: int)

  datatype Attribute = Attribute(traitType: Option<string>, typeName: Option<string>, value: Option<TraitValue>)

  /** The metadata fields the application reads. */
  datatype Meta = Meta(image: Option<string>, animationUrl: Option<string>, attributes: Option<seq<Attribute>>)

  const JsonPrefix: string := "data:application/json;base64,"

  /** A present, non-empty string: what JavaScript counts as true. */
  predicate Truthy(a: Option<string>) {
    a.Some? && a.value != ""
  }

  /** `a || b` for an optional string: the value unless missing or empty. */
  function OrElse(a: Option<string>, b: string): (r: string)
    ensures Truthy(a) ==> r == a.value
    ensures !Truthy(a) ==> r == b
  {
    if Truthy(a) then a.value else b
  }

  // ---------------------------------------------------------------------------
  // `String.prototype.replace` with a string pattern
  // ---------------------------------------------------------------------------

  /** `s.indexOf(p)`: the first position at which `p` occurs. */
  function IndexOf(s: string, p: string): (r: Option<nat>)
    ensures r.Some? ==> r.value + |p| <= |s| && s[r.value..r.value + |p|] == p
    ensures r.Some? ==> forall j :: 0 <= j < r.value ==> !StartsWith(s[j..], p)
    ensures r.None? ==> forall j :: 0 <= j <= |s| ==> !StartsWith(s[j..], p)
  {
    IndexFrom(s, p, 0)
  }

  /** The first position at or after `k` at which `p` occurs. */
  function IndexFrom(s: string, p: string, k: nat): (r: Option<nat>)
    requires k <= |s|
    ensures r.Some? ==> k <= r.value && r.value + |p| <= |s| && s[r.value..r.value + |p|] == p
    ensures r.Some? ==> forall j :: k <= j < r.value ==> !StartsWith(s[j..], p)
    ensures r.None? ==> forall j :: k <= j <= |s| ==> !StartsWith(s[j..], p)
    decreases |s| - k
  {
    if StartsWith(s[k..], p) then
      assert s[k..][..|p|] == s[k..k + |p|];
      Some(k)
    else if k == |s| then None
    else IndexFrom(s, p, k + 1)
  }

  /** `s.replace(p, q)`: only the first occurrence is replaced. */
  function ReplaceFirst(s: string, p: string, q: string): string {
    match IndexOf(s, p)
    case None => s
    case Some(i) => s[..i] + q + s[i + |p|..]
  }

  /** Removing a prefix that a text starts with leaves the rest of the text,
      even when the rest contains the prefix again. */
  lemma ReplaceLeadingPrefix(p: string, rest: string)
    ensures ReplaceFirst(p + rest, p, "") == rest
  {
    assert StartsWith(p + rest, p);
    assert (p + rest)[|p|..] == rest;
  }

  // ---------------------------------------------------------------------------
  // decodeTokenUri
  // ---------------------------------------------------------------------------

  /** The metadata of a token URI: nothing unless the URI is present and
      starts with the JSON data prefix; otherwise the decoded payload after
      the prefix, or nothing when decoding fails. */
  function DecodeTokenUri(uri: Option<string>, decode: string -> Option<Meta>): Option<Meta> {
    if uri.None? || uri.value == "" || !StartsWith(uri.value, JsonPrefix) then None
    else decode(ReplaceFirst(uri.value, JsonPrefix, ""))
  }

  /** Metadata is only ever produced from a present URI with the JSON prefix. */
  lemma DecodeNeedsPrefix(uri: Option<string>, decode: string -> Option<Meta>)
    ensures DecodeTokenUri(uri, decode).Some? ==> uri.Some? && StartsWith(uri.value, JsonPrefix)
    ensures uri.None? ==> DecodeTokenUri(uri, decode) == None
  {
  }

  /** A prefixed URI is decoded from exactly the payload after the prefix, and
      a payload that fails to decode yields nothing. */
  lemma DecodeStripsPrefix(payload: string, decode: string -> Option<Meta>)
    ensures DecodeTokenUri(Some(JsonPrefix + payload), decode) == decode(payload)
    ensures decode(payload).None? ==> DecodeTokenUri(Some(JsonPrefix + payload), decode) == None
  {
    ReplaceLeadingPrefix(JsonPrefix, payload);
    assert (JsonPrefix + payload)[..|JsonPrefix|] == JsonPrefix;
  }

  // ---------------------------------------------------------------------------
  // BigInt(string)
  // ---------------------------------------------------------------------------

  /** A non-empty string of digits of the radix, read as a number. */
  function Digits(s: string, radix: nat): (r: Option<nat>)
    ensures r.Some? <==> |s| > 0 && AllDigitsIn(s, radix)
  {
    if |s| > 0 && AllDigitsIn(s, radix) then Some(ValueIn(s, radix)) else None
  }

  predicate PrefixChar(t: string, c: char) {
    |t| >= 2 && t[0] == '0' && AsciiLower(t[1]) == c
  }

  /** `BigInt(s)` for a string: surrounding white space is ignored, the empty
      string is 0, `0x`/`0o`/`0b` select hexadecimal, octal and binary
      digits, anything else must be a decimal integer with an optional sign.
      `None` is the `SyntaxError` `BigInt` throws. */
  function StringToBigInt(s: string): Option<int> {
    ReadTrimmed(Trim(s))
  }

  /** What `BigInt` reads from a text that has already been trimmed. */
  function ReadTrimmed(t: string): Option<int> {
    if |t| == 0 then Some(0)
    else if PrefixChar(t, 'x') then Signed(Digits(t[2..], 16), false)
    else if PrefixChar(t, 'o') then Signed(Digits(t[2..], 8), false)
    else if PrefixChar(t, 'b') then Signed(Digits(t[2..], 2), false)
    else if t[0] == '-' then Signed(Digits(t[1..], 10), true)
    else if t[0] == '+' then Signed(Digits(t[1..], 10), false)
    else Signed(Digits(t, 10), false)
  }

  function Signed(d: Option<nat>, negative: bool): Option<int> {
    match d
    case None => None
    case Some(n) => if negative then Some(0 - n as int) else Some(n as int)
  }

  lemma DigitNotSpace(c: char)
    requires HexValue(c) < 16
    ensures !IsSpace(c) && c != '-' && c != '+'
  {
  }

  /** A string that neither begins nor ends with white space is its own trim. */
  lemma TrimOfTight(t: string)
    requires |t| > 0 && !IsSpace(t[0]) && !IsSpace(t[|t| - 1])
    ensures Trim(t) == t
  {
    assert TrimStart(t) == t;
  }

  /** A digit string with no redundant leading zero is read as decimal. */
  lemma PlainDecimal(d: string)
    requires |d| > 0 && AllDigitsIn(d, 10) && (d[0] != '0' || |d| == 1)
    ensures StringToBigInt(d) == Some(ValueIn(d, 10))
  {
    DigitNotSpace(d[0]);
    DigitNotSpace(d[|d| - 1]);
    TrimOfTight(d);
    assert !PrefixChar(d, 'x') && !PrefixChar(d, 'o') && !PrefixChar(d, 'b');
  }

  /** `BigInt` reads back the decimal text of any non-negative integer. */
  lemma DecimalRoundTrip(n: nat)
    ensures StringToBigInt(DecimalString(n)) == Some(n)
  {
    var d := DecimalString(n);
    RadixRoundTrip(n, 10);
    if n == 0 {
      assert d == [DigitChars[0]];
    }
    PlainDecimal(d);
  }

  /** A digit run written for a number in any radix reads back as that
      number. */
  lemma DigitsRoundTrip(n: nat, radix: nat)
    requires 2 <= radix <= 16
    ensures Digits(ToRadix(n, radix), radix) == Some(n)
  {
    RadixRoundTrip(n, radix);
  }

  /** `BigInt` reads back the `toString` text of any integer, sign included,
      so a card's label names the id the card read. */
  lemma IntStringRoundTrip(i: int)
    ensures StringToBigInt(IntString(i)) == Some(i)
  {
    if i >= 0 {
      DecimalRoundTrip(i);
    } else {
      NegativeIntString(i);
    }
  }

  /** The text of a negative integer is a minus sign and its magnitude's
      digits, and `BigInt` reads it back. */
  lemma NegativeIntString(i: int)
    requires i < 0
    ensures StringToBigInt(IntString(i)) == Some(i)
  {
    NegativeShape(i);
    NegativeDecimal(IntString(i));
  }

  /** The text of a negative integer is a minus sign followed by decimal
      digits whose value is its magnitude. */
  lemma NegativeShape(i: int)
    requires i < 0
    ensures |IntString(i)| >= 2 && IntString(i)[0] == '-'
    ensures AllDigitsIn(IntString(i)[1..], 10) && ValueIn(IntString(i)[1..], 10) == 0 - i
  {
    var d := DecimalString(0 - i);
    RadixRoundTrip(0 - i, 10);
    assert IntString(i) == "-" + d;
    assert ("-" + d)[1..] == d;
  }

  /** A minus sign followed by decimal digits is read as the negated value. */
  lemma NegativeDecimal(t: string)
    requires |t| >= 2 && t[0] == '-' && AllDigitsIn(t[1..], 10)
    ensures StringToBigInt(t) == Some(0 - ValueIn(t[1..], 10))
  {
    DigitNotSpace(t[|t| - 1]);
    TrimOfTight(t);
    assert !PrefixChar(t, 'x') && !PrefixChar(t, 'o') && !PrefixChar(t, 'b');
  }

  /** `BigInt` reads `0x` followed by the hexadecimal digits of `n` as `n`. */
  lemma HexRoundTrip(n: nat)
    ensures StringToBigInt("0x" + ToRadix(n, 16)) == Some(n)
  {
    var h := ToRadix(n, 16);
    var t := "0x" + h;
    RadixRoundTrip(n, 16);
    DigitNotSpace(h[|h| - 1]);
    assert t[|t| - 1] == h[|h| - 1];
    TrimOfTight(t);
    assert t[2..] == h;
  }

  /** White space around the text does not change what `BigInt` reads. */
  lemma BigIntIgnoresPadding(w1: string, s: string, w2: string)
    requires AllSpace(w1) && AllSpace(w2)
    ensures StringToBigInt(w1 + s + w2) == StringToBigInt(s)
  {
    TrimPadded(w1, s, w2);
  }

  // ---------------------------------------------------------------------------
  // Token ids
  // ---------------------------------------------------------------------------

  /** The gallery card's id: a `0x` id through `BigInt`, any other through
      `BigInt` with a missing id read as "0". */
  function CardTokenId(v: Option<string>): Option<int> {
    if v.Some? && StartsWith(v.value, "0x") then StringToBigInt(v.value)
    else StringToBigInt(v.GetOr("0"))
  }

  /** The token dialog's id: a missing id is "0"; both arms of its `0x` test
      call `BigInt`. */
  function DialogTokenId(v: Option<string>): Option<int> {
    var w := v.GetOr("0");
    if StartsWith(w, "0x") then StringToBigInt(w) else StringToBigInt(w)
  }

  /** The card and the dialog agree on every id: a missing id is 0, a `0x`
      id is read as hexadecimal and a decimal id as itself. */
  lemma TokenIdNormalisation(v: Option<string>, n: nat)
    ensures CardTokenId(v) == DialogTokenId(v)
    ensures v.None? ==> CardTokenId(v) == Some(0)
    ensures v == Some("0x" + ToRadix(n, 16)) ==> CardTokenId(v) == Some(n)
    ensures v == Some(DecimalString(n)) ==> CardTokenId(v) == Some(n)
  {
    DecimalRoundTrip(0);
    assert DecimalString(0) == "0";
    HexRoundTrip(n);
    DecimalRoundTrip(n);
  }

  /** The skull card's label: a `0x` id in decimal, any other id as it is. */
  function SkullLabel(v: string): Option<string> {
    if StartsWith(v, "0x") then
      match StringToBigInt(v)
      case Some(n) => Some(IntString(n))
      case None => None
    else Some(v)
  }

  /** A hexadecimal id is shown in decimal and a decimal one unchanged. */
  lemma SkullLabelIsDecimal(n: nat, v: string)
    ensures SkullLabel("0x" + ToRadix(n, 16)) == Some(DecimalString(n))
    ensures !StartsWith(v, "0x") ==> SkullLabel(v) == Some(v)
  {
    HexRoundTrip(n);
    assert ("0x" + ToRadix(n, 16))[..2] == "0x";
  }
}
