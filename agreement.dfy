/**
 * How the client and the worker fit together: what the form lets through
 * is what the throw endpoint's checks accept, the hint promises the number
 * of bottles the endpoint sends back, the banner recognises the endpoint's
 * moderation refusal and no other refusal, and a reaction moves the
 * worker's count the way it moves the page's own record.
 */
module Agreement {
  import opened Optional
  import opened JsString
  import opened JsValue
  import opened Api
  import opened Bottles
  import opened Submission
  import opened LinkDetector
  import Worker
  import HomePage
  import CompositionForm
  import ErrorAlert

  /**
   * A message and nickname typed into the form and sent by `throwBottle`
   * pass every length check of the endpoint: the only refusal left is the
   * link check, and the draft holds the trimmed texts. The hint shown for
   * the message names the number of bottles the endpoint then sends back,
   * and an enabled throw button means the page's guard lets the throw go.
   */
  lemma ClientThrowScreened(typedMessage: string, typedNickname: string, country: string, loading: bool)
    requires HomePage.CanSubmit(CompositionForm.MessageInput(typedMessage))
    ensures var m := CompositionForm.MessageInput(typedMessage);
      var n := CompositionForm.NicknameInput(typedNickname);
      var request := HomePage.MessageRequest(m, n, country);
      && Screen(request.message, request.nickname) ==
           (if ContainsUrl(Trim(m)) then Failed(LinksNotAllowed)
            else Passed(Draft(Trim(m), if Trim(n) == "" then None else Some(Trim(n)))))
      && CompositionForm.Hints(m) == [CompositionForm.BottlesHint(Tier(JsLength(Trim(m))))]
      && (!CompositionForm.ThrowDisabled(loading, HomePage.CanSubmit(m)) ==> Trim(m) != "")
  {
    var m := CompositionForm.MessageInput(typedMessage);
    var n := CompositionForm.NicknameInput(typedNickname);
    FormScreened(m, n, country);
    JsLengthTrim(m);
    CompositionForm.ExactlyOneHint(m);
    TierBands(JsLength(Trim(m)));
  }

  /** Trimmed texts within the inputs' limits meet every length check of the endpoint. */
  lemma FormScreened(m: string, n: string, country: string)
    requires HomePage.CanSubmit(m) && JsLength(m) <= CompositionForm.MessageInputLimit
    requires JsLength(n) <= CompositionForm.NicknameInputLimit
    ensures var request := HomePage.MessageRequest(m, n, country);
      Screen(request.message, request.nickname) ==
        (if ContainsUrl(Trim(m)) then Failed(LinksNotAllowed)
         else Passed(Draft(Trim(m), if Trim(n) == "" then None else Some(Trim(n)))))
  {
    var request := HomePage.MessageRequest(m, n, country);
    TrimIdempotent(m);
    TrimIdempotent(n);
    JsLengthTrim(m);
    JsLengthTrim(n);
    if ContainsUrl(Trim(m)) {
      ScreenLink(Trim(m), request.nickname);
    } else {
      ScreenPassed(request.message, request.nickname);
      if Trim(n) != "" {
        assert TrimOrNull(request.nickname) == Value(Some(Trim(n)));
      }
    }
  }

  /** The endpoint's moderation refusal, shown on the page after a throw, selects the moderation notice. */
  lemma ModerationRefusalSelectsNotice()
    ensures HomePage.ThrowError(HomePage.Answered(Refused(InappropriateContent))) == Some(InappropriateContent.Text())
    ensures ErrorAlert.AlertFor(Some(InappropriateContent.Text())) == ErrorAlert.ModerationNotice
  {
    var text := InappropriateContentText;
    var lower := LowerAscii(text);
    MiddlePiece("Your ", "content", " contains ", "inappropriate content and cannot be sent");
    assert text[5..12] == ErrorAlert.ContentNeedle;
    forall k | 5 <= k < 12 ensures lower[k] == ErrorAlert.ContentNeedle[k - 5] {
      assert text[k] == text[5..12][k - 5];
    }
    assert lower[5..12] == ErrorAlert.ContentNeedle;
    assert Occurs(lower, ErrorAlert.ContentNeedle, 5);
  }

  /** The second of four pieces sits right after the first. */
  lemma MiddlePiece(a: string, b: string, c: string, d: string)
    ensures (a + b + c + d)[|a|..|a| + |b|] == b
  {
    assert a + b + c + d == a + b + (c + d);
  }

  /** The banner shows `text` word for word when neither needle survives folding. */
  lemma ShownVerbatim(text: string)
    requires text != ""
    requires !Includes(LowerAscii(text), ErrorAlert.InappropriateNeedle)
    requires !Includes(LowerAscii(text), ErrorAlert.ContentNeedle)
    ensures ErrorAlert.AlertFor(Some(text)) == ErrorAlert.Verbatim(text)
  {
  }

  /** `ch` folds to the lower-case letter `c`. */
  predicate FoldsTo(ch: char, c: char) {
    ch == c || ch as int == c as int - 32
  }

  // Each text below is scanned once: it lacks, in both cases, one letter of
  // each needle, or holds two adjacent letters of the needle only apart.

  lemma RateLimitVerbatim()
    ensures ErrorAlert.AlertFor(Some(RateLimitedText)) == ErrorAlert.Verbatim(RateLimitedText)
  {
    var text := RateLimitedText;
    assert forall j :: 0 <= j < |text| ==> !FoldsTo(text[j], 'c') && (FoldsTo(text[j], 'p') ==> j == 19);
    FoldedOnlyAt(text, 'p', {19});
    assert LowerAscii(text)[20] == 'l';
    MissingPairNotContained(LowerAscii(text), ErrorAlert.InappropriateNeedle, 3);
    FoldedAbsent(text, ErrorAlert.ContentNeedle, 0);
    ShownVerbatim(text);
  }

  /** A text without `p` and without one letter of `content`, in either case, is shown as it is. */
  lemma LacksBothVerbatim(text: string, k: nat)
    requires text != "" && k < 7
    requires forall j :: 0 <= j < |text| ==> !FoldsTo(text[j], 'p') && !FoldsTo(text[j], ErrorAlert.ContentNeedle[k])
    ensures ErrorAlert.AlertFor(Some(text)) == ErrorAlert.Verbatim(text)
  {
    FoldedAbsent(text, ErrorAlert.InappropriateNeedle, 3);
    FoldedAbsent(text, ErrorAlert.ContentNeedle, k);
  }

  lemma MessageRequiredVerbatim()
    ensures ErrorAlert.AlertFor(Some(MessageRequiredText)) == ErrorAlert.Verbatim(MessageRequiredText)
  {
    LacksBothVerbatim(MessageRequiredText, 0);
  }

  lemma MessageTooShortVerbatim()
    ensures ErrorAlert.AlertFor(Some(MessageTooShortText)) == ErrorAlert.Verbatim(MessageTooShortText)
  {
    LacksBothVerbatim(MessageTooShortText, 1);
  }

  lemma MessageTooLongVerbatim()
    ensures ErrorAlert.AlertFor(Some(MessageTooLongText)) == ErrorAlert.Verbatim(MessageTooLongText)
  {
    LacksBothVerbatim(MessageTooLongText, 2);
  }

  lemma LinksVerbatim()
    ensures ErrorAlert.AlertFor(Some(LinksNotAllowedText)) == ErrorAlert.Verbatim(LinksNotAllowedText)
  {
    LacksBothVerbatim(LinksNotAllowedText, 0);
  }

  lemma NicknameVerbatim()
    ensures ErrorAlert.AlertFor(Some(NicknameTooLongText)) == ErrorAlert.Verbatim(NicknameTooLongText)
  {
    var text := NicknameTooLongText;
    assert forall j :: 0 <= j < |text| ==> !FoldsTo(text[j], 'p') && (FoldsTo(text[j], 'o') ==> j == 31);
    FoldedAbsent(text, ErrorAlert.InappropriateNeedle, 3);
    FoldedOnlyAt(text, 'o', {31});
    assert LowerAscii(text)[32] == 'r';
    MissingPairNotContained(LowerAscii(text), ErrorAlert.ContentNeedle, 1);
    ShownVerbatim(text);
  }

  lemma ConnectionFailedVerbatim()
    ensures ErrorAlert.AlertFor(Some(HomePage.ConnectionFailed)) == ErrorAlert.Verbatim(HomePage.ConnectionFailed)
  {
    var text := HomePage.ConnectionFailed;
    assert forall j :: 0 <= j < |text| ==> !FoldsTo(text[j], 'p') && (FoldsTo(text[j], 'n') ==> j == 12 || j == 13);
    FoldedAbsent(text, ErrorAlert.InappropriateNeedle, 3);
    FoldedOnlyAt(text, 'n', {12, 13});
    assert LowerAscii(text)[13] == 'n' && LowerAscii(text)[14] == 'e';
    MissingPairNotContained(LowerAscii(text), ErrorAlert.ContentNeedle, 2);
    ShownVerbatim(text);
  }

  lemma FallbackVerbatim()
    ensures ErrorAlert.AlertFor(Some(HomePage.SomethingWentWrong)) == ErrorAlert.Verbatim(HomePage.SomethingWentWrong)
  {
    LacksBothVerbatim(HomePage.SomethingWentWrong, 0);
  }

  /**
   * The endpoint's rate-limit, message, link and nickname refusals are shown
   * word for word, and so are the page's own connection and fallback errors.
   */
  lemma OtherRefusalsShownVerbatim(e: ApiError)
    requires e in {TooManyRequests, MessageRequired, MessageTooShort, MessageTooLong, LinksNotAllowed, NicknameTooLong}
    ensures HomePage.ThrowError(HomePage.Answered(Refused(e))) == Some(e.Text())
    ensures ErrorAlert.AlertFor(Some(e.Text())) == ErrorAlert.Verbatim(e.Text())
    ensures ErrorAlert.AlertFor(Some(HomePage.ConnectionFailed)) == ErrorAlert.Verbatim(HomePage.ConnectionFailed)
    ensures ErrorAlert.AlertFor(Some(HomePage.SomethingWentWrong)) == ErrorAlert.Verbatim(HomePage.SomethingWentWrong)
  {
    RateLimitVerbatim();
    MessageRequiredVerbatim();
    MessageTooShortVerbatim();
    MessageTooLongVerbatim();
    LinksVerbatim();
    NicknameVerbatim();
    ConnectionFailedVerbatim();
    FallbackVerbatim();
  }

  /**
   * The action the page sends is the one the worker applies, and it moves
   * the worker's count the way it moves the page's record: up by one when
   * the emoji joins the bottle's set, down by one (never below zero) when it
   * leaves.
   */
  lemma ReactionDirectionsAgree(reacted: map<string, set<string>>, id: string, emoji: string, counts: map<string, int>)
    ensures var action := HomePage.ChooseAction(reacted, id, emoji);
      var after := HomePage.Mine(HomePage.Toggled(reacted, id, emoji, action), id);
      var stored := CountOf(Reacted(counts, emoji, Worker.ActionOf(Str(HomePage.ActionName(action)))), emoji);
      && Worker.ActionOf(Str(HomePage.ActionName(action))) != Other
      && (emoji in after ==> stored == CountOf(counts, emoji) + 1)
      && (emoji !in after ==> stored == (if CountOf(counts, emoji) > 1 then CountOf(counts, emoji) - 1 else 0))
  {
    var action := HomePage.ChooseAction(reacted, id, emoji);
    HomePage.ToggleFlips(reacted, id, emoji, emoji);
    ReactedCount(counts, emoji, Worker.ActionOf(Str(HomePage.ActionName(action))));
  }
}
