/**
 * The error banner of the home page (src/web/components/error-alert.tsx):
 * nothing for no error, a fixed moderation notice with a "Report Error"
 * button for an error that speaks of inappropriate content, and the error
 * text itself for anything else.
 */
module ErrorAlert {
  import opened Optional
  import opened JsString

  /** What the banner shows. */
  datatype Alert = Hidden | ModerationNotice | Verbatim(text: string)

  const InappropriateNeedle: string := "inappropriate"
  const ContentNeedle: string := "content"

  /** The lower-cased error mentions `inappropriate` or `content`. */
  predicate IsModerationError(error: string) {
    var lower := LowerAscii(error);
    Includes(lower, InappropriateNeedle) || Includes(lower, ContentNeedle)
  }

  /**
   * The banner for the page's `error` state: `null` and the empty string show
   * nothing, a moderation error shows the notice, and any other text is shown
   * as it is.
   */
  function AlertFor(error: Option<string>): (a: Alert)
    ensures a == Hidden <==> error.None? || error.value == ""
    ensures a == ModerationNotice <==> error.Some? && error.value != "" && IsModerationError(error.value)
    ensures a.Verbatim? <==> error.Some? && error.value != "" && !IsModerationError(error.value)
    ensures a.Verbatim? ==> a.text == error.value
  {
    if error.None? || error.value == "" then Hidden
    else if IsModerationError(error.value) then ModerationNotice
    else Verbatim(error.value)
  }

  /** The classification ignores letter case: an error and its lower-cased form get the same kind of banner. */
  lemma ModerationIgnoresCase(error: string)
    ensures IsModerationError(error) <==> IsModerationError(LowerAscii(error))
  {
    LowerAsciiIdempotent(error);
  }

  /** Every non-empty error is shown, either as the notice or word for word. */
  lemma NonEmptyErrorShown(error: string)
    requires error != ""
    ensures AlertFor(Some(error)) == ModerationNotice || AlertFor(Some(error)) == Verbatim(error)
    ensures AlertFor(Some(error)) != Hidden
  {
  }
}
