/**
 * `moderateContent` of the worker (worker/index.ts): one call to a language
 * model and the reduction of its reply to a safe / unsafe verdict.
 */
module Moderation {
  import opened JsString
  import opened JsValue

  /** The instruction sent as the system message of every moderation call. */
  const SystemPrompt: string :=
    "You are a content moderator. Return only '1' only if you fully sure the context of the content "
    + "contains hate, violence, spam, scam, or PII. Return only '0' if it is safe. Output the integer only, "
    + "nothing else."

  /** How a call of the model ends: with a reply value, or with an exception. */
  datatype AiOutcome = Returned(reply: JsValue) | Threw

  /** The user message of a moderation call. */
  function UserPrompt(content: string): string {
    "Evaluate: " + content
  }

  /**
   * The decision text taken from a reply: the reply itself when it is a
   * string, otherwise `String(reply?.response || "")`.
   */
  function DecisionText(reply: JsValue): string {
    if reply.Str? then reply.s else ToJsString(Or(Get(reply, "response"), Str("")))
  }

  /** The verdict: unsafe exactly when the reply trims to `"1"`; a failed call is safe (fail open). */
  predicate IsSafe(outcome: AiOutcome) {
    match outcome
    case Threw => true
    case Returned(reply) => Trim(DecisionText(reply)) != "1"
  }

  /** A failing model lets every message through. */
  lemma FailOpen()
    ensures IsSafe(Threw)
  {
  }

  /** A plain-string reply is unsafe exactly when it is `1` with optional white space around it. */
  lemma {:induction false} StringReplyVerdict(s: string)
    ensures !IsSafe(Returned(Str(s))) <==> exists i, j :: 0 <= i <= j <= |s| && s[i..j] == "1" && IsBlank(s[..i]) && IsBlank(s[j..])
  {
    TrimSplits(s);
    if exists i, j :: 0 <= i <= j <= |s| && s[i..j] == "1" && IsBlank(s[..i]) && IsBlank(s[j..]) {
      var i, j :| 0 <= i <= j <= |s| && s[i..j] == "1" && IsBlank(s[..i]) && IsBlank(s[j..]);
      TrimOfPadded(s, i, j);
    }
  }

  /** A reply object whose `response` field is the number `n` is unsafe exactly when `n` is 1. */
  lemma NumberFieldVerdict(fields: map<string, JsValue>, n: int)
    requires "response" in fields && fields["response"] == Num(n)
    ensures !IsSafe(Returned(Obj(fields))) <==> n == 1
  {
    NumberStringIsOne(n);
    NumberStringIsTrimmed(n);
    if n != 0 {
      TrimOfTrimmed(ToJsString(Num(n)));
    }
  }

  /** A reply object without a truthy `response` field is safe. */
  lemma MissingFieldIsSafe(fields: map<string, JsValue>)
    requires "response" !in fields || !Truthy(fields["response"])
    ensures IsSafe(Returned(Obj(fields)))
  {
  }

  /** Replies that are neither strings nor objects carry no field and are safe. */
  lemma OtherRepliesAreSafe(reply: JsValue)
    requires !reply.Str? && !reply.Obj?
    ensures IsSafe(Returned(reply))
  {
  }

  /**
   * The model binding `ai.run`: it records every prompt it is given, and the
   * outcome of a call is an unknown but fixed function of the prompt.
   */
  class Classifier {
    var prompts: seq<string>
    const answer: string -> AiOutcome

    constructor(answer: string -> AiOutcome)
      ensures prompts == [] && this.answer == answer
    {
      prompts := [];
      this.answer := answer;
    }

    /** `moderateContent(ai, content)` */
    method Moderate(content: string) returns (safe: bool)
      modifies this
      ensures prompts == old(prompts) + [UserPrompt(content)]
      ensures safe == IsSafe(answer(UserPrompt(content)))
    {
      var prompt := UserPrompt(content);
      prompts := prompts + [prompt];
      var outcome := answer(prompt);
      match outcome {
        case Threw =>
          safe := true;
        case Returned(reply) =>
          var result := DecisionText(reply);
          safe := Trim(result) != "1";
      }
    }
  }
}
