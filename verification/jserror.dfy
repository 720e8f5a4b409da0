/** How the catch blocks turn a thrown value into the text they display.
    Every catch block reads the error through the same loose shape: an
    optional short message, an optional message and an optional cause. */
module JsError {
  import opened Wrappers

  datatype Cause = Cause(shortMessage: Option<string>, message: Option<string>)

  /** The fields a catch block may read from what was thrown. A thrown value
      that has none of them (even `undefined`) is `ErrorInfo(None, None, None)`. */
  datatype ErrorInfo = ErrorInfo(shortMessage: Option<string>, message: Option<string>, cause: Option<Cause>)

  /** `new Error(msg)`: only the message field is present. */
  function Thrown(msg: string): ErrorInfo {
    ErrorInfo(None, Some(msg), None)
  }

  /** `er?.shortMessage ?? er?.message ?? fallback`: the `??` operator only
      skips missing fields, so a present but empty short message is shown as
      the empty string. */
  function WagmiText(e: ErrorInfo, fallback: string): string {
    e.shortMessage.GetOr(e.message.GetOr(fallback))
  }

  function CauseShortMessage(e: ErrorInfo): Option<string> {
    match e.cause
    case Some(c) => c.shortMessage
    case None => None
  }

  const MintFailed: string := "Mint failed"

  /** The mint page's chain: short message, then the cause's short message,
      then the message, then "Mint failed". */
  function MintText(e: ErrorInfo): string {
    e.shortMessage.GetOr(CauseShortMessage(e).GetOr(e.message.GetOr(MintFailed)))
  }

  /** `er?.message || fallback`: the `||` operator also skips an empty message. */
  function FetchText(e: ErrorInfo, fallback: string): string {
    if e.message.Some? && e.message.value != "" then e.message.value else fallback
  }

  /** The text is the first present field in the order short message, message,
      fallback; the fallback is shown only when the error carries neither. */
  lemma WagmiTextPrecedence(e: ErrorInfo, fallback: string)
    ensures e.shortMessage.Some? ==> WagmiText(e, fallback) == e.shortMessage.value
    ensures e.shortMessage.None? && e.message.Some? ==> WagmiText(e, fallback) == e.message.value
    ensures WagmiText(e, fallback) == fallback <== e.shortMessage.None? && e.message.None?
    ensures WagmiText(e, fallback) in {fallback} + (if e.shortMessage.Some? then {e.shortMessage.value} else {})
                                               + (if e.message.Some? then {e.message.value} else {})
  {
  }

  /** An error the application throws itself is shown with its own message,
      by every one of the three chains. */
  lemma ThrownShowsOwnMessage(msg: string, fallback: string)
    ensures WagmiText(Thrown(msg), fallback) == msg
    ensures MintText(Thrown(msg)) == msg
    ensures msg != "" ==> FetchText(Thrown(msg), fallback) == msg
  {
  }

  /** The mint chain only differs from the common chain by consulting the
      cause's short message between the short message and the message. */
  lemma MintTextExtendsWagmiText(e: ErrorInfo)
    ensures CauseShortMessage(e).None? ==> MintText(e) == WagmiText(e, MintFailed)
    ensures e.shortMessage.None? && CauseShortMessage(e).Some? ==> MintText(e) == CauseShortMessage(e).value
  {
  }

  /** `||` never yields an empty text when the fallback is not empty, while
      `??` passes an empty short message through. */
  lemma EmptyMessageHandling(fallback: string)
    requires fallback != ""
    ensures forall e :: FetchText(e, fallback) != ""
    ensures WagmiText(ErrorInfo(Some(""), Some("x"), None), fallback) == ""
  {
  }
}
