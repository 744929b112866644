/**
 * The checks the throw endpoint (worker/index.ts) makes on a message and a
 * nickname before it asks the moderation model, in the order it makes them,
 * and the number of bottles a sender receives back.
 */
module Submission {
  import opened Optional
  import opened JsString
  import opened JsValue
  import opened LinkDetector
  import opened Api

  const MinMessageLength: nat := 15
  const MaxMessageLength: nat := 300
  const MaxNicknameLength: nat := 30

  /** `v?.trim() || null` on a request field: `None` is `null`; a non-string value throws. */
  datatype Field = Value(value: Option<string>) | NotAString

  function TrimOrNull(v: JsValue): (r: Field)
    ensures r.Value? && r.value.Some? ==> r.value.value != "" && IsTrimmed(r.value.value)
    ensures r == Value(None) <==> IsNullish(v) || (v.Str? && IsBlank(v.s))
    ensures r.NotAString? <==> !IsNullish(v) && !v.Str?
  {
    if IsNullish(v) then Value(None)
    else if !v.Str? then NotAString
    else
      TrimSplits(v.s);
      TrimEmptyIffBlank(v.s);
      var t := Trim(v.s);
      if t == "" then Value(None) else Value(Some(t))
  }

  /** What passes the checks: the trimmed message and the trimmed nickname, if any. */
  datatype Draft = Draft(message: string, nickname: Option<string>)

  /** The outcome of the checks: a draft, a refusal, or a `TypeError` on a non-string field. */
  datatype Screened = Passed(draft: Draft) | Failed(error: ApiError) | FieldTypeError

  /** The message checks of lines 91-114, first failure wins; a passing message yields its trimmed form. */
  function CheckMessage(message: JsValue): Screened {
    if !Truthy(message) then Failed(MessageRequired)
    else if !message.Str? then FieldTypeError
    else if Trim(message.s) == "" then Failed(MessageRequired)
    else
      var trimmed := Trim(message.s);
      if JsLength(trimmed) < MinMessageLength then Failed(MessageTooShort)
      else if JsLength(trimmed) > MaxMessageLength then Failed(MessageTooLong)
      else if ContainsUrl(trimmed) then Failed(LinksNotAllowed)
      else Passed(Draft(trimmed, None))
  }

  /** The nickname check of lines 117-120, made once the message passed. */
  function CheckNickname(trimmed: string, nickname: JsValue): Screened {
    match TrimOrNull(nickname)
    case NotAString => FieldTypeError
    case Value(nick) =>
      if nick.Some? && JsLength(nick.value) > MaxNicknameLength then Failed(NicknameTooLong)
      else Passed(Draft(trimmed, nick))
  }

  /**
   * The checks of lines 91-120, first failure wins: message required, at
   * least 15 and at most 300 UTF-16 units once trimmed, no link, nickname at
   * most 30 units once trimmed.
   */
  function Screen(message: JsValue, nickname: JsValue): Screened {
    var m := CheckMessage(message);
    if m.Passed? then CheckNickname(m.draft.message, nickname) else m
  }

  /** The message checks let a message through exactly when it is 15 to 300 units long once trimmed and holds no link. */
  lemma CheckMessagePassed(s: string)
    ensures CheckMessage(Str(s)).Passed? <==> 15 <= JsLength(Trim(s)) <= 300 && !ContainsUrl(Trim(s))
    ensures CheckMessage(Str(s)).Passed? ==> CheckMessage(Str(s)).draft.message == Trim(s)
  {
  }

  /** The message is missing exactly when it is falsy or a string of white space only. */
  lemma ScreenMessageRequired(message: JsValue, nickname: JsValue)
    ensures Screen(message, nickname) == Failed(MessageRequired) <==>
      !Truthy(message) || (message.Str? && IsBlank(message.s))
  {
    if message.Str? {
      TrimEmptyIffBlank(message.s);
    }
  }

  /** Too short: not blank, and fewer than 15 units once trimmed. */
  lemma ScreenTooShort(s: string, nickname: JsValue)
    ensures Screen(Str(s), nickname) == Failed(MessageTooShort) <==> !IsBlank(s) && JsLength(Trim(s)) < 15
  {
    TrimEmptyIffBlank(s);
  }

  /** Too long: more than 300 units once trimmed. */
  lemma ScreenTooLong(s: string, nickname: JsValue)
    ensures Screen(Str(s), nickname) == Failed(MessageTooLong) <==> JsLength(Trim(s)) > 300
  {
    TrimEmptyIffBlank(s);
  }

  /** A link is refused only once the length checks passed. */
  lemma ScreenLink(s: string, nickname: JsValue)
    ensures Screen(Str(s), nickname) == Failed(LinksNotAllowed) <==>
      15 <= JsLength(Trim(s)) <= 300 && ContainsUrl(Trim(s))
  {
  }

  /** The nickname is looked at only for a message that passed every message check. */
  lemma ScreenNickname(s: string, nickname: JsValue)
    ensures Screen(Str(s), nickname) == Failed(NicknameTooLong) <==>
      15 <= JsLength(Trim(s)) <= 300 && !ContainsUrl(Trim(s)) &&
      nickname.Str? && JsLength(Trim(nickname.s)) > 30
    ensures Screen(Str(s), nickname) == FieldTypeError <==>
      15 <= JsLength(Trim(s)) <= 300 && !ContainsUrl(Trim(s)) && !IsNullish(nickname) && !nickname.Str?
  {
    CheckMessagePassed(s);
    if nickname.Str? {
      TrimEmptyIffBlank(nickname.s);
    }
  }

  /**
   * A message passes exactly when its trimmed form is 15 to 300 units long
   * and holds no link, and the nickname is absent or trims to at most 30
   * units; the draft then holds the trimmed texts.
   */
  lemma ScreenPassed(message: JsValue, nickname: JsValue)
    ensures Screen(message, nickname).Passed? <==>
      && message.Str?
      && 15 <= JsLength(Trim(message.s)) <= 300
      && !ContainsUrl(Trim(message.s))
      && (IsNullish(nickname) || (nickname.Str? && JsLength(Trim(nickname.s)) <= 30))
    ensures Screen(message, nickname).Passed? ==>
      var d := Screen(message, nickname).draft;
      && d.message == Trim(message.s) && IsTrimmed(d.message)
      && 15 <= JsLength(d.message) <= 300
      && d.nickname == TrimOrNull(nickname).value
  {
    if message.Str? {
      TrimSplits(message.s);
      CheckMessagePassed(message.s);
    }
  }

  /** A white-space nickname counts as no nickname, so it never causes a refusal. */
  lemma BlankNicknameIgnored(message: JsValue, nick: string)
    requires IsBlank(nick)
    ensures Screen(message, Str(nick)) == Screen(message, Null)
  {
    assert TrimOrNull(Str(nick)) == TrimOrNull(Null);
    var m := CheckMessage(message);
    if m.Passed? {
      assert CheckNickname(m.draft.message, Str(nick)) == CheckNickname(m.draft.message, Null);
    }
  }

  /** The text sent to the moderation model: the message, labelled with the nickname when there is one. */
  function ModerationContent(d: Draft): (content: string)
    ensures Contains(content, d.message)
    ensures d.nickname.Some? ==> Contains(content, d.nickname.value)
    ensures d.nickname.None? ==> content == d.message
  {
    match d.nickname
    case None =>
      assert Occurs(d.message, d.message, 0);
      d.message
    case Some(nick) =>
      var a := "Message: ";
      var b := "\nNickname: ";
      var content := a + d.message + b + nick;
      assert content[|a|..|a| + |d.message|] == d.message;
      assert Occurs(content, d.message, |a|);
      assert content[|a| + |d.message| + |b|..] == nick;
      assert Occurs(content, nick, |a| + |d.message| + |b|);
      content
  }

  /** `bottlesToReceive`: one, two or three bottles by the trimmed length. */
  function Tier(length: nat): (n: nat)
    ensures 1 <= n <= 3
  {
    if length >= 151 then 3 else if length >= 61 then 2 else 1
  }

  /** The tiers cover the accepted lengths in three bands, growing with the length. */
  lemma TierBands(length: nat)
    requires 15 <= length <= 300
    ensures Tier(length) == 1 <==> length <= 60
    ensures Tier(length) == 2 <==> 61 <= length <= 150
    ensures Tier(length) == 3 <==> 151 <= length
    ensures forall longer :: length <= longer ==> Tier(length) <= Tier(longer)
  {
  }
}
