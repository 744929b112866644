/**
 * The bottle-exchange endpoints of the worker (worker/index.ts): throw a
 * bottle and receive others, report a bottle, react to a bottle, and report
 * a moderation false positive. Requests are handled one at a time against
 * the database tables held by `BottleTable`.
 */
module Worker {
  import opened Optional
  import opened JsString
  import opened JsValue
  import opened Api
  import opened Bottles
  import opened LinkDetector
  import opened Submission
  import opened Moderation
  import opened Http
  import opened RateLimit

  /** The fields of a throw or false-positive request body. */
  datatype MessageBody = MessageBody(message: JsValue, nickname: JsValue, country: JsValue)

  /** The fields of a react request body. */
  datatype ReactBody = ReactBody(emoji: JsValue, action: JsValue)

  /** `{ reacted: true, emoji_reactions, action }` */
  datatype ReactReply = ReactReply(reactions: map<string, int>, action: JsValue)

  /** `{ submitted: true }` */
  datatype Ack = Submitted

  /** `action = "add"`: the default applies only to a missing field. */
  function ActionOf(action: JsValue): ReactAction {
    if action == Undefined || action == Str("add") then Add
    else if action == Str("remove") then Remove
    else Other
  }

  class BottleTable {
    var rows: seq<Bottle>
    var falsePositives: seq<FalsePositiveReport>

    /**
     * Ids are unique in both tables, `id_asc` is unique among bottles, and a
     * parsed reaction record holds only positive counts.
     */
    predicate Valid()
      reads this
    {
      && DistinctIds(rows)
      && DistinctIdAsc(rows)
      && (forall i :: 0 <= i < |rows| && rows[i].reactions.Counts? ==> Sparse(rows[i].reactions.counts))
      && (forall i, j :: 0 <= i < j < |falsePositives| ==> falsePositives[i].id != falsePositives[j].id)
    }

    predicate FreshId(id: string)
      reads this
    {
      !HasId(rows, id) && forall i :: 0 <= i < |falsePositives| ==> falsePositives[i].id != id
    }

    constructor()
      ensures rows == [] && falsePositives == [] && Valid()
    {
      rows := [];
      falsePositives := [];
    }

    /** `INSERT INTO bottles`: a row with a new id and an `id_asc` above every other. */
    method Insert(b: Bottle)
      requires Valid()
      requires !HasId(rows, b.id)
      requires forall i :: 0 <= i < |rows| ==> rows[i].idAsc < b.idAsc
      requires b.reactions == Counts(map[])
      modifies this
      ensures rows == old(rows) + [b] && falsePositives == old(falsePositives)
      ensures Valid()
    {
      rows := rows + [b];
    }

    /**
     * Consecutive inserts of rows with new, distinct ids, distinct `id_asc`
     * values above every other, and no reactions yet.
     */
    method InsertAll(batch: seq<Bottle>)
      requires Valid()
      requires DistinctIds(batch) && DistinctIdAsc(batch)
      requires forall k :: 0 <= k < |batch| ==> !HasId(rows, batch[k].id) && batch[k].reactions == Counts(map[])
      requires forall k, i :: 0 <= k < |batch| && 0 <= i < |rows| ==> rows[i].idAsc < batch[k].idAsc
      modifies this
      ensures rows == old(rows) + batch && falsePositives == old(falsePositives)
      ensures Valid()
    {
      rows := rows + batch;
    }

    /**
     * `SELECT * FROM bottles WHERE status = 'active' AND id != exclude
     * ORDER BY RANDOM() LIMIT limit`, projected to the public columns.
     */
    method SampleReceived(exclude: string, limit: nat) returns (received: seq<PublicBottle>)
      requires DistinctIds(rows)
      ensures exists picked :: IsSample(picked, Eligible(rows, exclude), limit) && received == PublishAll(picked)
    {
      var pool := Eligible(rows, exclude);
      EligibleDistinct(rows, exclude);
      SampleExists(pool, limit);
      var picked :| IsSample(picked, pool, limit);
      received := PublishAll(picked);
    }

    /**
     * `POST /api/bottles/throw` (lines 77-171). `newId` is the fresh id
     * `nanoid()` returns and `now` the insertion time.
     */
    method Throw(limiter: RateLimiter, ai: Classifier, headers: Headers, body: MessageBody, newId: string, now: int)
      returns (reply: Reply<seq<PublicBottle>>)
      requires Valid() && FreshId(newId)
      modifies this, limiter, ai
      ensures Valid()
      ensures falsePositives == old(falsePositives)
      ensures |limiter.log| == |old(limiter.log)| + 1 && limiter.log[..|old(limiter.log)|] == old(limiter.log)
      ensures limiter.log[|old(limiter.log)|].key == ClientIP(headers)
      // refused by the rate limiter: nothing else happens
      ensures !limiter.LastGranted() ==>
        reply == Refused(TooManyRequests) && rows == old(rows) && ai.prompts == old(ai.prompts)
      // refused by a check: the first failing one answers, no model call, no insert
      ensures limiter.LastGranted() && !Screen(body.message, body.nickname).Passed? ==>
        && rows == old(rows) && ai.prompts == old(ai.prompts)
        && reply == (if Screen(body.message, body.nickname).Failed?
                     then Refused(Screen(body.message, body.nickname).error) else InternalError)
      // passed the checks: exactly one model call, on the labelled content
      ensures limiter.LastGranted() && Screen(body.message, body.nickname).Passed? ==>
        var d := Screen(body.message, body.nickname).draft;
        var prompt := UserPrompt(ModerationContent(d));
        && ai.prompts == old(ai.prompts) + [prompt]
        && (!IsSafe(ai.answer(prompt)) ==> reply == Refused(InappropriateContent) && rows == old(rows))
        && (IsSafe(ai.answer(prompt)) && TrimOrNull(body.country).NotAString? ==>
              reply == InternalError && rows == old(rows))
        && (IsSafe(ai.answer(prompt)) && TrimOrNull(body.country).Value? ==>
              && rows == old(rows) + [NewBottle(newId, NextIdAsc(old(rows)), d.message, d.nickname,
                                                TrimOrNull(body.country).value, ClientIP(headers), now)]
              && reply.Ok?
              && exists picked :: IsSample(picked, Eligible(rows, newId), Tier(JsLength(d.message)))
                                  && reply.body == PublishAll(picked))
    {
      var ip := ClientIP(headers);
      var success := limiter.Limit(ip);
      if !success {
        return Refused(TooManyRequests);
      }
      var screened, bottlesToReceive := CheckThrow(body);
      if screened.Failed? {
        return Refused(screened.error);
      } else if screened.FieldTypeError? {
        return InternalError;
      }
      var draft := screened.draft;
      var trimmedMessage, trimmedNickname := draft.message, draft.nickname;

      var safe := ai.Moderate(ModerationContent(draft));
      if !safe {
        return Refused(InappropriateContent);
      }

      var nextIdAsc := NextIdAsc(rows);
      var country := TrimOrNull(body.country);
      if country.NotAString? {
        return InternalError;
      }
      var bottle := NewBottle(newId, nextIdAsc, trimmedMessage, trimmedNickname, country.value, ip, now);
      Insert(bottle);

      var received := SampleReceived(newId, bottlesToReceive);
      reply := Ok(received);
    }

    /** `POST /api/bottles/:id/report` (lines 175-198). */
    method Report(limiter: RateLimiter, headers: Headers, id: string) returns (reply: Reply<int>)
      requires Valid()
      modifies this, limiter
      ensures Valid()
      ensures falsePositives == old(falsePositives)
      ensures |limiter.log| == |old(limiter.log)| + 1 && limiter.log[..|old(limiter.log)|] == old(limiter.log)
      ensures limiter.log[|old(limiter.log)|].key == "report:" + ClientIP(headers)
      ensures !limiter.LastGranted() ==> reply == Refused(TooManyRequests) && rows == old(rows)
      ensures limiter.LastGranted() && id == "" ==> reply == Refused(InvalidBottleId) && rows == old(rows)
      ensures limiter.LastGranted() && id != "" && !HasId(old(rows), id) ==>
        reply == Refused(BottleNotFound) && rows == old(rows)
      ensures limiter.LastGranted() && id != "" && HasId(old(rows), id) ==>
        var i := Find(old(rows), id).value;
        && rows == old(rows)[i := old(rows)[i].(reportCount := old(rows)[i].reportCount + 1)]
        && reply == Ok(old(rows)[i].reportCount + 1)
    {
      var success := limiter.Limit("report:" + ClientIP(headers));
      if !success {
        return Refused(TooManyRequests);
      }
      if id == "" {
        return Refused(InvalidBottleId);
      }
      var found := Find(rows, id);
      if found.None? {
        return Refused(BottleNotFound);
      }
      var i := found.value;
      var updated := rows[i].(reportCount := rows[i].reportCount + 1);
      rows := rows[i := updated];
      reply := Ok(updated.reportCount);
    }

    /** `POST /api/bottles/:id/react` (lines 202-257). */
    method React(limiter: RateLimiter, headers: Headers, id: string, body: ReactBody) returns (reply: Reply<ReactReply>)
      requires Valid()
      modifies this, limiter
      ensures Valid()
      ensures falsePositives == old(falsePositives)
      ensures |limiter.log| == |old(limiter.log)| + 1 && limiter.log[..|old(limiter.log)|] == old(limiter.log)
      ensures limiter.log[|old(limiter.log)|].key == "react:" + ClientIP(headers)
      ensures !limiter.LastGranted() ==> reply == Refused(TooManyRequests) && rows == old(rows)
      ensures limiter.LastGranted() && id == "" ==> reply == Refused(InvalidBottleId) && rows == old(rows)
      ensures limiter.LastGranted() && id != "" && !(body.emoji.Str? && body.emoji.s != "") ==>
        reply == Refused(InvalidEmoji) && rows == old(rows)
      ensures limiter.LastGranted() && id != "" && body.emoji.Str? && body.emoji.s != "" && !HasId(old(rows), id) ==>
        reply == Refused(BottleNotFound) && rows == old(rows)
      ensures limiter.LastGranted() && id != "" && body.emoji.Str? && body.emoji.s != "" && HasId(old(rows), id) ==>
        var i := Find(old(rows), id).value;
        var counts := Reacted(Parsed(old(rows)[i].reactions), body.emoji.s, ActionOf(body.action));
        && rows == old(rows)[i := old(rows)[i].(reactions := Counts(counts))]
        && reply == Ok(ReactReply(counts, if body.action == Undefined then Str("add") else body.action))
    {
      var success := limiter.Limit("react:" + ClientIP(headers));
      if !success {
        return Refused(TooManyRequests);
      }
      var emoji := body.emoji;
      var action := if body.action == Undefined then Str("add") else body.action;
      if id == "" {
        return Refused(InvalidBottleId);
      }
      if !Truthy(emoji) || !emoji.Str? {
        return Refused(InvalidEmoji);
      }
      var found := Find(rows, id);
      if found.None? {
        return Refused(BottleNotFound);
      }
      var i := found.value;

      // malformed stored text is read as `{}`
      var reactions := Parsed(rows[i].reactions);
      var e := emoji.s;
      var currentCount := CountOf(reactions, e);
      if action == Str("add") {
        reactions := reactions[e := currentCount + 1];
      } else if action == Str("remove") {
        reactions := reactions[e := if currentCount - 1 > 0 then currentCount - 1 else 0];
        if reactions[e] == 0 {
          reactions := reactions - {e};
        }
      }
      assert reactions == Reacted(Parsed(rows[i].reactions), e, ActionOf(body.action));
      ReactedSparse(Parsed(rows[i].reactions), e, ActionOf(body.action));

      RecountKeepsKeys(rows, i, Counts(reactions));
      rows := rows[i := rows[i].(reactions := Counts(reactions))];
      reply := Ok(ReactReply(reactions, action));
    }

    /** `POST /api/false-positive` (lines 261-289). */
    method ReportFalsePositive(limiter: RateLimiter, headers: Headers, body: MessageBody, newId: string, now: int)
      returns (reply: Reply<Ack>)
      requires Valid() && FreshId(newId)
      modifies this, limiter
      ensures Valid()
      ensures rows == old(rows)
      ensures |limiter.log| == |old(limiter.log)| + 1 && limiter.log[..|old(limiter.log)|] == old(limiter.log)
      ensures limiter.log[|old(limiter.log)|].key == ClientIP(headers)
      ensures !limiter.LastGranted() ==> reply == Refused(TooManyRequests) && falsePositives == old(falsePositives)
      ensures limiter.LastGranted() ==>
        var entry := FalsePositiveEntry(body, newId, ClientIP(headers), now);
        && falsePositives == old(falsePositives) + (if entry.Ok? then [entry.body] else [])
        && reply == entry.Acknowledged(Submitted)
    {
      var ip := ClientIP(headers);
      var success := limiter.Limit(ip);
      if !success {
        return Refused(TooManyRequests);
      }
      var entry := FalsePositiveEntry(body, newId, ip, now);
      FalsePositiveStored(body, newId, ip, now);
      if entry.Ok? {
        falsePositives := falsePositives + [entry.body];
      }
      reply := entry.Acknowledged(Submitted);
    }
  }

  /**
   * The row the false-positive endpoint stores (lines 274-286): the trimmed
   * message, which must not be blank, and the trimmed nickname and country,
   * or `null`; a non-string field throws.
   */
  function FalsePositiveEntry(body: MessageBody, id: string, ip: string, now: int): Reply<FalsePositiveReport> {
    if !Truthy(body.message) then Refused(MessageRequired)
    else if !body.message.Str? then InternalError
    else if Trim(body.message.s) == "" then Refused(MessageRequired)
    else
      var nickname := TrimOrNull(body.nickname);
      var country := TrimOrNull(body.country);
      if nickname.NotAString? || country.NotAString? then InternalError
      else Ok(FalsePositiveReport(id, Trim(body.message.s), nickname.value, country.value, Some(ip), now))
  }

  /**
   * A report is stored exactly for a message that is a string with some
   * non-white-space character, with nickname and country absent or strings;
   * the stored texts are trimmed, the message is never empty, and a blank
   * nickname or country is stored as `null`.
   */
  lemma FalsePositiveStored(body: MessageBody, id: string, ip: string, now: int)
    ensures var e := FalsePositiveEntry(body, id, ip, now);
      && (e.Ok? <==>
            body.message.Str? && !IsBlank(body.message.s) &&
            (IsNullish(body.nickname) || body.nickname.Str?) && (IsNullish(body.country) || body.country.Str?))
      && (e == Refused(MessageRequired) <==> !Truthy(body.message) || (body.message.Str? && IsBlank(body.message.s)))
      && (e.Ok? ==>
            && e.body.message != "" && IsTrimmed(e.body.message)
            && (e.body.nickname.Some? ==> e.body.nickname.value != "" && IsTrimmed(e.body.nickname.value))
            && (e.body.country.Some? ==> e.body.country.value != "" && IsTrimmed(e.body.country.value))
            && e.body.id == id && e.body.ip == Some(ip))
  {
    if body.message.Str? {
      TrimEmptyIffBlank(body.message.s);
      TrimSplits(body.message.s);
    }
  }

  /**
   * Lines 90-120 of the throw endpoint, step by step: the checks on the
   * message and nickname, and the number of bottles to send back.
   */
  method CheckThrow(body: MessageBody) returns (screened: Screened, bottlesToReceive: nat)
    ensures screened == Screen(body.message, body.nickname)
    ensures screened.Passed? ==> bottlesToReceive == Tier(JsLength(screened.draft.message))
  {
    bottlesToReceive := 1;
    ScreenMessageRequired(body.message, body.nickname);
    var message := body.message;
    if !Truthy(message) {
      return Failed(MessageRequired), bottlesToReceive;
    }
    if !message.Str? {
      return FieldTypeError, bottlesToReceive;
    }
    TrimEmptyIffBlank(message.s);
    if Trim(message.s) == "" {
      return Failed(MessageRequired), bottlesToReceive;
    }
    var trimmedMessage := Trim(message.s);
    if JsLength(trimmedMessage) < MinMessageLength {
      ScreenTooShort(message.s, body.nickname);
      return Failed(MessageTooShort), bottlesToReceive;
    }
    if JsLength(trimmedMessage) > MaxMessageLength {
      ScreenTooLong(message.s, body.nickname);
      return Failed(MessageTooLong), bottlesToReceive;
    }

    if JsLength(trimmedMessage) >= 151 {
      bottlesToReceive := 3;
    } else if JsLength(trimmedMessage) >= 61 {
      bottlesToReceive := 2;
    }

    if ContainsUrl(trimmedMessage) {
      ScreenLink(message.s, body.nickname);
      return Failed(LinksNotAllowed), bottlesToReceive;
    }

    CheckMessagePassed(message.s);
    var nickname := TrimOrNull(body.nickname);
    if nickname.NotAString? {
      return FieldTypeError, bottlesToReceive;
    }
    var trimmedNickname := nickname.value;
    if trimmedNickname.Some? && JsLength(trimmedNickname.value) > MaxNicknameLength {
      return Failed(NicknameTooLong), bottlesToReceive;
    }
    screened := Passed(Draft(trimmedMessage, trimmedNickname));
  }

  /** The guard in front of every `/api/dev` route (lines 295-301): refused in production, passed on otherwise. */
  function DevGate(environment: string): (r: Option<ApiError>)
    ensures r.Some? <==> environment == "production"
    ensures r.Some? ==> r.value.Status() == 403
  {
    if environment == "production" then Some(DevEndpointsDisabled) else None
  }
}
