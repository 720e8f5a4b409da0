# 1337CRU front end — a Dafny model of its client-side logic

1337CRU is an NFT collection on Ethereum mainnet, and this is a model of its web front end. The front end does six things:

- It mints tokens from one page.
- It shows the owner's tokens in a two-tab gallery: CRU and 1337 SKULLS.
- It opens a token dialog that decodes the token's on-chain metadata.
- From that dialog it links the token to an entry in one of two on-chain registries. One registry holds HTML data URIs; the other holds preview images.
- It creates new registry entries.
- Its landing page shows a looping story ticker and a launch countdown.

The model covers the logic of those screens. Each screen is a state record. A click is a pure function `Press(state, control, …)` that does something only when the control is on screen and not disabled. What the screen asks the outside world to do comes back as a list of effects: read a contract, write a contract, switch the chain, close the dialog. Each answer from the outside world is a separate transition function that takes the outcome as a parameter.

| module | file | what it models |
|---|---|---|
| `Wrappers` | wrappers.dfy | `undefined`/`null` as `Option`; awaited calls as `Result` |
| `JsText` | jstext.dfy | ASCII `trim`, `toLowerCase`/`toUpperCase`, `startsWith`, `padStart`, radix digits of `toString` |
| `JsError` | jserror.dfy | how each screen turns a thrown error into text (`??` and `\|\|` chains) |
| `Contract` | contract.dfy | a contract write: function name, arguments, ether value |
| `DataUri` | datauri.dfy | the creation form's lenient URI checks and the registry browser's strict ones |
| `LinkModal` | linkmodal.dfy | the registry browser: counts, id lists, entry loads, confirm/busy lock |
| `CreateEntry` | createentry.dfy | the entry-creation dialog |
| `Mint` | mint.dfy | the mint page: contract reads, guards, the write plan, quantity controls, labels, link writes |
| `Story` | story.dfy | the landing page ticker: five acts of messages and the bounce counter |
| `Countdown` | countdown.dfy | the `DD:HH:MM:SS` launch countdown |
| `TokenMeta` | tokenmeta.dfy | `decodeTokenUri`, `String.replace`, ECMAScript `BigInt(string)`, token-id normalisation |
| `Gallery` | gallery.dfy | the owner's gallery: fetch guard, loading/error/list views, card contents, tabs |
| `NftModal` | nftmodal.dfy | the token dialog: media priority, trait list, forwarding confirms to link writes |

Three behaviours of the code worth knowing:

- **No stale-answer guard.** The registry browser does not check an entry that arrives late against the current selection. The last answer to arrive is shown. `LinkModal.LateAnswerIsShown` exhibits this.
- **Case-sensitive loaders.** The browser's checks on what it reads back are case-sensitive and do not trim. Only the creation form ignores case and surrounding white space.
- **A failed link shows nothing.** The link confirm has `try/finally` and no `catch`, so a failed link write shows no error text. It only releases the busy lock.

## Model

| member | source | states |
|---|---|---|
| DataUri.HtmlValidMeaning | src/components/CreateEntryModal.tsx:39-46 | The HTML check passes exactly when the trimmed, lower-cased text is one of the three `data:text/html` prefixes followed by a payload. |
| DataUri.PreviewValidMeaning | src/components/CreateEntryModal.tsx:48-66 | The image check passes exactly when the trimmed, lower-cased text is one of the four raster or three SVG prefixes followed by a payload. |
| DataUri.ValidationIgnoresCaseAndSpace | src/components/CreateEntryModal.tsx:39-66 | Padding the text with white space and upper-casing it changes neither check's verdict. |
| DataUri.ValidatorsDisjoint | src/components/CreateEntryModal.tsx:39-66 | No text passes both the HTML and the image check. |
| DataUri.HtmlAcceptsPrefixed | src/components/CreateEntryModal.tsx:41-45 | Every HTML prefix followed by any payload passes the HTML check. |
| DataUri.PreviewAcceptsPrefixed | src/components/CreateEntryModal.tsx:50-64 | Every raster or SVG prefix followed by any payload passes the image check. |
| DataUri.LoadersDisjoint | src/components/LinkHtmlModal.tsx:122-166 | No text read back is accepted by both the HTML loader and the preview loader. |
| DataUri.CreatedHtmlMayNotLoad | src/components/LinkHtmlModal.tsx:135 | An entry the creation form accepts (a leading space, capitals) is refused by the case-sensitive HTML loader. |
| DataUri.CreatedImageMayNotLoad | src/components/LinkHtmlModal.tsx:158 | An image entry the creation form accepts, written in capitals, is refused by the preview loader. |
| DataUri.CanonicalEntriesLoad | src/components/LinkHtmlModal.tsx:122-166 | An entry with a lower-case prefix and no leading space is accepted by the loader of its registry. |
| JsText.TrimPadded | src/components/CreateEntryModal.tsx:40 | `trim` ignores any ASCII white space added around a text. |
| JsText.TrimUpper | src/components/CreateEntryModal.tsx:40 | Trimming and upper-casing commute. |
| JsText.TrimKeepsPrefix | src/components/CreateEntryModal.tsx:40-45 | Trimming keeps a prefix that starts and ends with non-space characters. |
| JsText.TrimStart | src/components/CreateEntryModal.tsx:40 | The result is the suffix that starts at the first non-space character; everything dropped is white space. |
| JsText.TrimEnd | src/components/CreateEntryModal.tsx:40 | The result is the prefix that ends at the last non-space character; everything dropped is white space. |
| JsText.ToRadix | src/app/page.tsx:141-147 | `toString` yields at least one digit of the radix, with no leading zero unless the number is 0. |
| JsText.RadixRoundTrip | src/app/page.tsx:141-147 | Reading back the digits `toString` wrote gives the number. |
| JsText.PadStart | src/app/page.tsx:141-147 | `padStart` reaches the width, ends with the original text and fills the front with the fill character. |
| JsError.WagmiTextPrecedence | src/components/LinkHtmlModal.tsx:113 | The error text is the first present field in the order short message, message, fallback. |
| JsError.ThrownShowsOwnMessage | src/components/CreateEntryModal.tsx:72 | An error the handler throws itself shows its own message under every text chain (under `\|\|` only when non-empty). |
| JsError.MintTextExtendsWagmiText | src/app/mint/page.tsx:151-155 | The mint page's chain inserts the cause's short message between the short message and the message. |
| JsError.EmptyMessageHandling | src/components/Gallery.tsx:166 | `message \|\| default` is never empty, while `??` shows a present empty short message as empty. |
| LinkModal.Ids | src/components/LinkHtmlModal.tsx:62-70 | One id per registry entry, and none while the count is unknown or not positive. |
| LinkModal.IdsAreOneToCount | src/components/LinkHtmlModal.tsx:62-70 | The ids offered are exactly 1..count, in order. |
| LinkModal.ListStatesExclusive | src/components/LinkHtmlModal.tsx:200-210 | Exactly one of "loading entries", "no entries" and the id grid is shown; the grid exactly when the count is positive. |
| LinkModal.OpenWf | src/components/LinkHtmlModal.tsx:73-81 | Opening reads the counts when a client exists, else shows "Public client not ready." and reads nothing. |
| LinkModal.PressPreservesWf | src/components/LinkHtmlModal.tsx:210-218 | Every click keeps each selection within the offered ids, and every read it issues is of an offered id. |
| LinkModal.CountsPreserveWf | src/components/LinkHtmlModal.tsx:96-109 | Counts arriving keep the dialog well-formed and read only offered ids. |
| LinkModal.ApplyPreservesWf | src/components/LinkHtmlModal.tsx:73-166 | Every event (click, counts, entry answer, confirm settled) keeps the dialog well-formed. |
| LinkModal.CountsAutoSelect | src/components/LinkHtmlModal.tsx:100-109 | A registry with a positive count gets id 1 selected and loading, and exactly one read of id 1; other registries are untouched. |
| LinkModal.CountsFailure | src/components/LinkHtmlModal.tsx:110-114 | A failed count read sets the error text and starts nothing. No count is known afterwards, so both lists keep showing "Loading entries…" and no later event reads an entry. |
| LinkModal.LoadStartsClean | src/components/LinkHtmlModal.tsx:122-131 | A load clears the error and the pane's text, marks the pane loading, leaves the other pane alone and reads that one entry. |
| LinkModal.LoadOutcome | src/components/LinkHtmlModal.tsx:122-143 | A load ends not loading: an accepted text is shown; a refused text, a failed read or a missing client set their error texts. |
| LinkModal.PreviewRefusesHtml | src/components/LinkHtmlModal.tsx:145-166 | An HTML entry read from the preview registry is refused and the preview is not replaced. |
| LinkModal.ConfirmGuard | src/components/LinkHtmlModal.tsx:255-264 | Confirm is disabled exactly without a selection or while busy; enabled, it locks and issues one link callback for the selection, and never closes by itself. The handler itself also starts nothing without a selection. |
| LinkModal.SettleReleasesLock | src/components/LinkHtmlModal.tsx:258-264 | The lock is released whatever the outcome; the dialog closes exactly when the callback resolved. |
| LinkModal.NoSecondConfirmWhileBusy | src/components/LinkHtmlModal.tsx:254-265 | While a confirm is pending, no sequence of events issues another confirm or releases the lock. |
| LinkModal.LateAnswerIsShown | src/components/LinkHtmlModal.tsx:213-216 | After clicking id 3 while id 1 is still loading, the late answer for id 1 is shown with id 3 selected. |
| CreateEntry.InvalidIssuesNoWrite | src/components/CreateEntryModal.tsx:68-96 | An invalid text shows the tab's fixed message, leaves the dialog unlocked and writes nothing. |
| CreateEntry.WriteCarriesRawText | src/components/CreateEntryModal.tsx:74-101 | A valid text locks the dialog and writes `(tokenId, text)` to the tab's create function. The text is sent as typed, not trimmed. |
| CreateEntry.RawTextExample | src/components/CreateEntryModal.tsx:78 | A padded, upper-cased HTML entry is written exactly as typed. |
| CreateEntry.SettleOutcome | src/components/CreateEntryModal.tsx:80-87 | On success the hash is kept and the dialog closes; on failure the error text is set. The lock is released either way. |
| CreateEntry.ButtonGuardsWrite | src/components/CreateEntryModal.tsx:196 | A disabled create button writes nothing; every write comes from an enabled button and carries that tab's raw text. |
| Mint.Decide | src/app/mint/page.tsx:119-158 | A write happens only connected, on mainnet, with an integer quantity in 1..10, not paused and not sold out; a chain switch only targets mainnet. |
| Mint.GuardMessages | src/app/mint/page.tsx:124-131 | The guards run in order and the first failing one decides the outcome and its message. |
| Mint.WriteShape | src/app/mint/page.tsx:133-145 | Past the guards, one token is `mint()` and more are `batchMint(qty)`, paying price × qty unless free. |
| Mint.FractionalQuantity | src/app/mint/page.tsx:135-137 | A fractional quantity past the guards is refused with the `BigInt` RangeError text, and nothing is written. |
| Mint.FreeLabelIsHonest | src/app/mint/page.tsx:264 | With a non-zero price, the button says "Free Mint" exactly when the click would send no ether. |
| Mint.DisconnectedPageIsInert | src/app/mint/page.tsx:208 | Without a connected wallet no control does anything. |
| Mint.HandlerClearsOutcome | src/app/mint/page.tsx:120-122 | A click clears the hash and the success line; an error is shown exactly when the click is refused. |
| Mint.SettleOutcome | src/app/mint/page.tsx:146-155 | Success records the hash, records the page's quantity as the success count and starts the rain; the success line shows exactly when the hash and the quantity are non-empty. Failure shows the error chain's text. |
| Mint.PendingPageIsInert | src/app/mint/page.tsx:223-261 | While a write is pending, any sequence of clicks changes nothing. |
| Mint.SuccessCountIsQuantityWritten | src/app/mint/page.tsx:133-148 | After a click that writes, any clicks while it is pending, and a successful settle, the success count is the number of tokens the write asked for, which is the quantity clicked with. |
| Mint.StepperKeepsQuantityValid | src/app/mint/page.tsx:221-245 | The −/+ buttons keep the quantity an integer in 1..10. |
| Mint.ButtonsKeepQuantityValid | src/app/mint/page.tsx:219-261 | Any sequence of button clicks (no typing) keeps the quantity an integer in 1..10. |
| Mint.TypedQuantity | src/app/mint/page.tsx:233-236 | Typing is the only way out of 1..10: the quantity stays valid exactly when the entry is valid or not finite (which becomes 1), and an invalid entry makes the next mint click on mainnet a refusal. |
| Mint.BannerMatchesFreePath | src/app/mint/page.tsx:198-205 | With an address, exactly one eligibility line is shown; it promises a free mint exactly when a single-token mint is free. |
| Mint.MissingReadsDefault | src/app/mint/page.tsx:105-115 | Reads that have not arrived count as zero or false, and with no supply read every control is disabled. |
| Story.ActsShape | src/app/page.tsx:17-24 | The five acts hold 9, 4, 4, 5 and 4 messages. |
| Story.Advance | src/app/page.tsx:60-83 | The next message is the next in the act, else the first of the next act, wrapping after the last act. |
| Story.AdvanceMessage | src/app/page.tsx:60-83 | Advancing shows the new cursor's message and act and resets the bounce budget to its linger count. |
| Story.AdvanceSteps | src/app/page.tsx:60-83 | Each advance moves one position forward in the 26-message order, modulo 26. |
| Story.AdvanceNSteps | src/app/page.tsx:60-83 | n advances move n positions forward, modulo 26. |
| Story.TableOrder | src/app/page.tsx:17-24 | Starting from the first message, the k-th advance reaches the k-th message of the table. |
| Story.CycleReturns | src/app/page.tsx:60-83 | Any whole number of 26-message cycles returns to the same message. |
| Story.NoEarlyRepeat | src/app/page.tsx:60-83 | No message repeats within one cycle. |
| Story.BounceRule | src/app/page.tsx:89-101 | A bounce decrements the budget, and advances when it runs out; the final message gets 3 bounces, all others 1. |
| Story.MessageStaysForLinger | src/app/page.tsx:89-101 | A message stays for exactly its budget of bounces, then the ticker advances. |
| Countdown.TimeLeft | src/app/page.tsx:136 | Time left never goes negative: 0 from the target on, else exactly the distance to it. |
| Countdown.Split | src/app/page.tsx:137-140 | Hours, minutes and seconds are in range, and the fields recombine to the time left, short of it by less than a second. |
| Countdown.Pad2Reads | src/app/page.tsx:141-147 | A padded field has at least two digits and reads back as its number. |
| Countdown.FormatReadsBack | src/app/page.tsx:141-147 | Splitting the text at its colons gives back exactly the four fields. |
| Countdown.CountdownReadsBack | src/app/page.tsx:133-147 | The shown text always parses, and its fields are within one second of the time left. |
| Countdown.PastTargetShowsZero | src/app/page.tsx:133-147 | From the target on, the text is `00:00:00:00`. |
| TokenMeta.IndexOf | src/components/Gallery.tsx:43 | The position found is the first occurrence of the pattern, and none means no occurrence. |
| TokenMeta.ReplaceLeadingPrefix | src/components/Gallery.tsx:43 | Replacing the leading prefix with nothing leaves the rest, even when the rest contains the prefix again. |
| TokenMeta.DecodeNeedsPrefix | src/components/Gallery.tsx:40-50 | Metadata comes only from a present URI with the JSON base64 prefix; the dialog's copy at NftModal.tsx lines 34-44 is the same. |
| TokenMeta.DecodeStripsPrefix | src/components/NftModal.tsx:34-44 | A prefixed URI is decoded from exactly its payload, and a payload that fails to decode gives nothing. |
| TokenMeta.DigitsRoundTrip | src/components/NftModal.tsx:64-67 | The digits written for n in any radix from 2 to 16 are read back as n. |
| TokenMeta.DecimalRoundTrip | src/components/Gallery.tsx:60-77 | `BigInt` reads back the decimal text of any non-negative integer. |
| TokenMeta.IntStringRoundTrip | src/components/Gallery.tsx:60-77 | A card's label, the id's `toString`, is text that `BigInt` reads back as the same id, sign included. |
| TokenMeta.HexRoundTrip | src/components/Gallery.tsx:101-104 | `BigInt` reads `0x` plus the hexadecimal digits of n as n. |
| TokenMeta.BigIntIgnoresPadding | src/components/NftModal.tsx:64-67 | White space around the text does not change what `BigInt` reads. |
| TokenMeta.TokenIdNormalisation | src/components/NftModal.tsx:64-67 | The card and the dialog read every id alike: a missing id is 0, a `0x` id hexadecimal and a decimal id itself. |
| TokenMeta.SkullLabelIsDecimal | src/components/Gallery.tsx:101-104 | A skull's hexadecimal id is labelled in decimal, and any other id unchanged. |
| Gallery.SkullImagePriority | src/components/Gallery.tsx:107-110 | A skull card shows the indexer image, else the metadata image, else the placeholder. |
| Gallery.CruCardShows | src/components/Gallery.tsx:60-88 | A CRU card is captioned with its decimal id and shows the decoded image, else the placeholder. |
| Gallery.FetchGuard | src/components/Gallery.tsx:149-158 | Without an owner, a valid address or a key the list is emptied and nothing is fetched. Otherwise exactly this owner's query is made, and the grid loads while keeping its list and its old error text. |
| Gallery.FetchOutcomes | src/components/Gallery.tsx:156-169 | Loading ends every time; a non-OK status, a thrown error and a missing list each have their own result. |
| Gallery.RenderPrecedence | src/components/Gallery.tsx:174-177 | Connect prompt, loading, error, empty text and cards each appear exactly when every earlier view does not apply. |
| Gallery.KindIgnoresCase | src/components/Gallery.tsx:182 | The card kind does not depend on the address's letter case. |
| Gallery.TabsShowTheirKind | src/components/Gallery.tsx:206-245 | The CRU tab shows CRU cards and the skulls tab skull cards. |
| Gallery.FreshListIsShown | src/components/Gallery.tsx:149-177 | With the corrected step that clears the error on each fetch (`StartFetchClearingError`), a list that arrives is shown whatever an earlier fetch left. |
| Gallery.StaleErrorAsWritten | src/components/Gallery.tsx:142-177 | As written: a failed CRU fetch followed by a successful skulls fetch still shows the old error. |
| Gallery.SwitchShowsNewTab | src/components/Gallery.tsx:230-245 | With the error cleared, the same sequence shows the skull cards. |
| NftModal.MediaPriority | src/components/NftModal.tsx:139-175 | The animation comes first, then the image, then the text; full screen is offered exactly with the animation. |
| NftModal.TraitLabelFallback | src/components/NftModal.tsx:183 | A trait is named by `trait_type`, else `type`, else "Trait". Its text is a string value as given, a number's decimal digits after a minus sign when negative, and empty when the value is missing. |
| NftModal.TraitsDefaultEmpty | src/components/NftModal.tsx:79-82 | Missing metadata or a missing attribute list gives no traits. |
| NftModal.TraitLinesShowPairs | src/components/NftModal.tsx:179-189 | Attributes built from name/text pairs are listed as exactly those pairs, in order. |
| NftModal.ConfirmLinksThisToken | src/components/NftModal.tsx:193-200 | An enabled confirm becomes exactly one link write for this token and the selected entry, in that order. |
| NftModal.OnlyConfirmsWrite | src/components/NftModal.tsx:193-200 | Only confirms are forwarded as writes; reads and closes write nothing. |
| NftModal.ConfirmCallsPageLinkWrite | src/app/mint/page.tsx:321-336 | A confirmed link calls `linkToHtmlEntry` from the HTML tab and `linkToPreviewEntry` from the preview tab, with the token and the selected entry and no ether. |

## Left out

- Rendering, styling and layout are left out: JSX, CSS and the fullscreen API. Only what decides which text, button or view is shown is modelled.
- The wallet and chain libraries are not modelled. Every contract read, write result, `isPending`, connection state and chain id is a parameter.
- The NFT indexer's HTTP request is an outcome parameter (`FetchOutcome`). The token dialog's metadata-refresh POST is not modelled: it is network I/O with only a busy flag and a message.
- Base64 decoding and `JSON.parse` in `decodeTokenUri` are one uninterpreted parameter `decode`. `isAddress` is the parameter `ownerIsAddress`.
- `formatEther` and the floating-point total/price display on the mint page are left out, because floating-point formatting is outside the model. Whether the mint is free, which the display depends on, is modelled.
- The sprite ticker, the pixel rain animation and the canvas geometry are left out: they are visual only. The rain is a flag.
- The about and how-to pages are static text and are left out.
- The `mounted` flag that stops updates after unmount is left out. The model has no unmounting.
- LinkModal.ApplyPreservesWf: requires that the counts have not arrived yet when they arrive. The count effect re-runs only when the client changes, and a client change is not modelled.
- `Number(bigint)` loss of precision beyond 2^53 is not modelled. Counts and entry ids are unbounded integers.
- Trimming and case mapping cover ASCII only. JavaScript's Unicode white space and case tables are not modelled.
- An image's `onError` fallback is left out, since it is browser behaviour.
- Trait values are strings or integers. Fractional numbers and a `null` element in the attribute list are left out.
- NftModal.TraitLabelFallback: a numeric value is an unbounded integer written in plain decimal digits. JavaScript writes magnitudes of 10^21 and more in exponent form (`String(1e21)` is `"1e+21"`), and that form is not modelled.
- Mint.Press: the quantity is an exact `real`, so the rounding of JavaScript numbers is not modelled. A typed `1e-17` followed by + gives 1 on the page, because `1e-17 + 1` rounds to 1. The model gives `1 + 1e-17`, which Mint.Decide refuses with the `RangeError` text.
- Mint.Decide: it sees the quantity as an exact `real`, so it inherits the rounding gap described for Mint.Press.
- DataUri.ValidationIgnoresCaseAndSpace: holds for the ASCII case mapping of the model only. JavaScript's `toUpperCase` maps `ı` (U+0131) to `I` and `ſ` (U+017F) to `S`, so `data:ımage/png;base64,x` fails the image check while its upper-case form passes it.
- Mint.Decide: the `RangeError` text `BigInt` throws for a fractional quantity differs between JavaScript engines, so it is a parameter.
- Mint.FreeLabelIsHonest: requires a non-zero price. With a zero price a paid mint also sends no ether.
- Story: the timer and the bounce detection against the screen edge are left out. A bounce is an event.
- Countdown: the clock is a parameter `now` in milliseconds.

## Findings

| source | as written | input that shows it | evidently intended | confidence | as-written member | corrected member |
|---|---|---|---|---|---|---|
| src/components/Gallery.tsx:142-177 | The grid never clears its error text. Both tabs render the grid at the same place, so the grid's state survives a tab switch and the error outlives the fetch that set it. | The CRU fetch answers non-OK; then the user switches to skulls, and the skulls fetch returns a non-empty list. | Each fetch clears the old error, so a successful fetch shows its list. | not executed | Gallery.StaleErrorAsWritten | Gallery.SwitchShowsNewTab |
