/**
 * The development seeding endpoint `POST /api/dev/generate-bottles`
 * (src/worker/dev-routes.ts): ask a language model for a JSON array of
 * messages, pull the text out of whichever reply shape came back, strip
 * Markdown code fences, parse it, and insert up to ten bottles with
 * consecutive `id_asc` values.
 */
module DevRoutes {
  import opened Optional
  import opened JsString
  import opened JsValue
  import opened Api
  import opened Bottles
  import opened Submission
  import opened Moderation
  import opened Worker

  // ---------------------------------------------------------------------------
  // Reading the model's reply

  /** What `Array.prototype.find` ends with: a matching index, no match, or a `TypeError` on a `null` element. */
  datatype Found = Hit(index: nat) | Miss | Fault(index: nat)

  /**
   * `items.find(accept)` from index `from`, where `accept` reads a property
   * of the element, so a `null` or `undefined` element throws.
   */
  function FindFrom(items: seq<JsValue>, accept: JsValue -> bool, from: nat): (r: Found)
    requires from <= |items|
    ensures r.Hit? ==> from <= r.index < |items| && !IsNullish(items[r.index]) && accept(items[r.index])
    ensures r.Fault? ==> from <= r.index < |items| && IsNullish(items[r.index])
    ensures r.Hit? || r.Fault? ==> forall j :: from <= j < r.index ==> !IsNullish(items[j]) && !accept(items[j])
    ensures r.Miss? ==> forall j :: from <= j < |items| ==> !IsNullish(items[j]) && !accept(items[j])
    decreases |items| - from
  {
    if from == |items| then Miss
    else if IsNullish(items[from]) then Fault(from)
    else if accept(items[from]) then Hit(from)
    else FindFrom(items, accept, from + 1)
  }

  function FindFirst(items: seq<JsValue>, accept: JsValue -> bool): Found {
    FindFrom(items, accept, 0)
  }

  /** `item.type === "message"` */
  predicate IsMessageItem(item: JsValue) {
    Get(item, "type") == Str("message")
  }

  /** `c.text`, tested for truthiness */
  predicate HasText(item: JsValue) {
    Truthy(Get(item, "text"))
  }

  /** The raw text of the reply, an error reply, or a `TypeError` that the handler's `catch` turns into a failure. */
  datatype Extracted = Raw(text: string) | Fail(error: ApiError) | Throws

  /**
   * Lines 40-66: a string reply; otherwise the `output` array, whose first
   * message item must hold a `content` array with a truthy `text`; otherwise
   * `String(response.response)`, then `String(response.result.response)`.
   * A non-string `text` is taken as is and makes the later `replace` throw.
   */
  function ExtractText(response: JsValue): (r: Extracted)
    ensures r.Fail? ==> r.error.Status() == 500
  {
    if response.Str? then Raw(response.s)
    else
      var output := Get(response, "output");
      if output.Arr? then
        match FindFirst(output.items, IsMessageItem)
        case Fault(_) => Throws
        case Miss => Fail(NoContentInAiResponse)
        case Hit(i) =>
          var content := Get(output.items[i], "content");
          if !content.Arr? then Fail(NoContentInAiResponse)
          else
            match FindFirst(content.items, HasText)
            case Fault(_) => Throws
            case Miss => Fail(NoTextInAiResponse)
            case Hit(k) =>
              var text := Get(content.items[k], "text");
              if text.Str? then Raw(text.s) else Throws
      else if Truthy(Get(response, "response")) then Raw(ToJsString(Get(response, "response")))
      else if Truthy(Get(Get(response, "result"), "response")) then Raw(ToJsString(Get(Get(response, "result"), "response")))
      else Fail(UnexpectedAiResponse)
  }

  /** A string reply is the text itself. */
  lemma StringReplyIsText(s: string)
    ensures ExtractText(Str(s)) == Raw(s)
  {
  }

  /**
   * Once a reply carries an `output` array, that array alone decides the
   * outcome: the `response` and `result` fields are never consulted, and the
   * "unexpected format" error is never the answer.
   */
  lemma OutputArrayDecides(a: JsValue, b: JsValue)
    requires !a.Str? && !b.Str? && Get(a, "output").Arr? && Get(a, "output") == Get(b, "output")
    ensures ExtractText(a) == ExtractText(b)
    ensures ExtractText(a) != Fail(UnexpectedAiResponse)
  {
  }

  /**
   * The text taken from an `output` array is the `text` of the first
   * content item with a truthy `text`, inside the first message item.
   */
  lemma OutputTextOrigin(response: JsValue)
    requires !response.Str? && Get(response, "output").Arr?
    requires ExtractText(response).Raw?
    ensures var items := Get(response, "output").items;
      exists i, k ::
        && 0 <= i < |items| && IsMessageItem(items[i])
        && (forall j :: 0 <= j < i ==> !IsMessageItem(items[j]))
        && Get(items[i], "content").Arr?
        && 0 <= k < |Get(items[i], "content").items|
        && HasText(Get(items[i], "content").items[k])
        && (forall k' :: 0 <= k' < k ==> !HasText(Get(items[i], "content").items[k']))
        && Get(Get(items[i], "content").items[k], "text") == Str(ExtractText(response).text)
  {
    var items := Get(response, "output").items;
    var i := FindFirst(items, IsMessageItem).index;
    var content := Get(items[i], "content");
    var k := FindFirst(content.items, HasText).index;
    assert IsMessageItem(items[i]);
  }

  /**
   * A message item without a `content` array, or whose content has no truthy
   * `text`, ends in an error reply instead of falling through to the
   * `response` fields.
   */
  lemma MissingContentIsError(response: JsValue, i: nat)
    requires !response.Str? && Get(response, "output").Arr?
    requires FindFirst(Get(response, "output").items, IsMessageItem) == Hit(i)
    requires var content := Get(Get(response, "output").items[i], "content");
      !content.Arr? || FindFirst(content.items, HasText).Miss?
    ensures ExtractText(response).Fail?
    ensures ExtractText(response).error.Status() == 500
    ensures ExtractText(response).error in {NoContentInAiResponse, NoTextInAiResponse}
  {
  }

  /**
   * Without an `output` array the `response` field wins over
   * `result.response`, which is taken only when `response` is falsy; the
   * format error comes only when both are falsy.
   */
  lemma ResponseFieldsInOrder(response: JsValue)
    requires !response.Str? && !Get(response, "output").Arr?
    ensures Truthy(Get(response, "response")) ==> ExtractText(response) == Raw(ToJsString(Get(response, "response")))
    ensures !Truthy(Get(response, "response")) && Truthy(Get(Get(response, "result"), "response")) ==>
      ExtractText(response) == Raw(ToJsString(Get(Get(response, "result"), "response")))
    ensures ExtractText(response) == Fail(UnexpectedAiResponse) <==>
      !Truthy(Get(response, "response")) && !Truthy(Get(Get(response, "result"), "response"))
  {
  }

  // ---------------------------------------------------------------------------
  // Cleaning the text

  const Fence: string := "```"
  const JsonFence: string := "```json"

  /**
   * `s.replace(/token\n?/g, "")`: from left to right, every occurrence of
   * `token` is deleted together with one newline right after it.
   */
  function StripToken(s: string, token: string): (r: string)
    requires token != []
    ensures |r| <= |s|
    decreases |s|
  {
    if s == [] then []
    else if Occurs(s, token, 0) then
      var rest := s[|token|..];
      if rest != [] && rest[0] == '\n' then StripToken(rest[1..], token) else StripToken(rest, token)
    else [s[0]] + StripToken(s[1..], token)
  }

  /** Lines 69-72: drop the `json` fences, then the bare fences, then trim. */
  function Clean(raw: string): string {
    Trim(StripToken(StripToken(raw, JsonFence), Fence))
  }

  /** Text too short to hold the token passes through unchanged. */
  lemma {:induction false} StripShort(s: string, token: string)
    requires token != [] && |s| < |token|
    ensures StripToken(s, token) == s
    decreases |s|
  {
    if s != [] {
      StripShort(s[1..], token);
    }
  }

  /** Text without the token's first character passes through unchanged, ahead of the rest. */
  lemma {:induction false} StripKeepsPrefix(p: string, q: string, token: string)
    requires token != [] && token[0] !in p
    ensures StripToken(p + q, token) == p + StripToken(q, token)
    decreases |p|
  {
    if p != [] {
      assert (p + q)[0] == p[0] && p[0] in p;
      assert !Occurs(p + q, token, 0) by {
        if |token| <= |p + q| {
          assert (p + q)[0..|token|][0] == p[0];
        }
      }
      assert (p + q)[1..] == p[1..] + q;
      StripKeepsPrefix(p[1..], q, token);
    } else {
      assert p + q == q;
    }
  }

  /** A fence at the start means three backticks. */
  lemma FenceAtStart(x: string)
    ensures Occurs(x, Fence, 0) <==> |x| >= 3 && x[0] == '`' && x[1] == '`' && x[2] == '`'
  {
    if |x| >= 3 {
      assert x[0..3] == [x[0], x[1], x[2]];
    }
  }

  /** Where no fence starts, stripping keeps the first character and goes on with the rest. */
  lemma StripHead(s: string)
    requires s != [] && !Occurs(s, Fence, 0)
    ensures var r := StripToken(s, Fence);
      |r| >= 1 && r[0] == s[0] && r[1..] == StripToken(s[1..], Fence)
  {
  }

  /** The first character after stripping fences is not the start of a fence. */
  lemma NoFenceAtStart(s: string)
    requires !Occurs(s, Fence, 0)
    ensures !Occurs(StripToken(s, Fence), Fence, 0)
  {
    var r := StripToken(s, Fence);
    FenceAtStart(r);
    if s == [] {
      return;
    }
    StripHead(s);
    if s[0] != '`' || |s| == 1 {
      return;
    }
    FenceAtStart(s);
    var s1 := s[1..];
    FenceAtStart(s1);
    StripHead(s1);
    if s1[0] != '`' || |s1| == 1 {
      return;
    }
    var s2 := s1[1..];
    FenceAtStart(s2);
    StripHead(s2);
  }

  /** After the second pass no fence is left anywhere in the text. */
  lemma {:induction false} NoFenceLeft(s: string)
    ensures forall i :: !Occurs(StripToken(s, Fence), Fence, i)
    decreases |s|
  {
    if s == [] {
    } else if Occurs(s, Fence, 0) {
      var rest := s[3..];
      if rest != [] && rest[0] == '\n' {
        NoFenceLeft(rest[1..]);
      } else {
        NoFenceLeft(rest);
      }
    } else {
      NoFenceLeft(s[1..]);
      NoFenceAtStart(s);
      var r := StripToken(s, Fence);
      var tail := StripToken(s[1..], Fence);
      assert r == [s[0]] + tail;
      forall i | i >= 1 ensures !Occurs(r, Fence, i) {
        if i + 3 <= |r| {
          assert r[i..i + 3] == tail[i - 1..i + 2];
        }
        assert Occurs(r, Fence, i) == Occurs(tail, Fence, i - 1);
      }
    }
  }

  /** The cleaned text never holds a code fence. */
  lemma CleanHasNoFence(raw: string)
    ensures !Includes(Clean(raw), Fence)
  {
    var x := StripToken(StripToken(raw, JsonFence), Fence);
    NoFenceLeft(StripToken(raw, JsonFence));
    var t := TrimStart(x);
    TrimStartSuffix(x);
    var r := TrimEnd(t);
    var lo := |x| - |t|;
    assert r == x[lo..lo + |r|];
    forall j ensures !Occurs(r, Fence, j) {
      OccursInSlice(x, lo, lo + |r|, Fence, j);
    }
  }

  /** A token and its newline at the start are deleted. */
  lemma StripLeading(token: string, q: string)
    requires token != []
    ensures StripToken(token + "\n" + q, token) == StripToken(q, token)
  {
    var s := token + "\n" + q;
    assert s[0..|token|] == token;
    assert s[|token|..] == "\n" + q;
    assert s[|token|..][1..] == q;
  }

  /** A lone token is deleted. */
  lemma StripLone(token: string)
    requires token != []
    ensures StripToken(token, token) == []
  {
    assert token[0..|token|] == token;
  }

  /** A body wrapped in a `json` code block comes out as the body itself. */
  lemma FencedJsonUnwrapped(body: string)
    requires '`' !in body && IsTrimmed(body)
    ensures Clean("```json\n" + body + "\n```") == body
  {
    var p := body + "\n";
    assert '`' !in p;
    assert "```json\n" + body + "\n```" == JsonFence + "\n" + (p + Fence);
    StripLeading(JsonFence, p + Fence);
    StripKeepsPrefix(p, Fence, JsonFence);
    StripShort(Fence, JsonFence);
    StripKeepsPrefix(p, Fence, Fence);
    StripLone(Fence);
    assert p + [] == p;
    if body == [] {
      TrimEmptyIffBlank(p);
    } else {
      assert p[0..|body|] == body;
      TrimOfPadded(p, 0, |body|);
    }
  }

  // ---------------------------------------------------------------------------
  // Inserting the generated bottles

  const MaxGenerated: nat := 10
  const DevIp: string := "127.0.0.1"

  /**
   * The items to insert, or the error reply, from the model call's outcome
   * and the `JSON.parse` of the cleaned text (`None` when it throws); an
   * exception anywhere ends in the handler's `catch`.
   */
  function Prepare(ai: AiOutcome, parse: string -> Option<JsValue>): (r: Reply<seq<JsValue>>)
    ensures !r.InternalError?
    ensures r.Ok? ==> r.body != []
    ensures r.Refused? ==> r.error.Status() == 500
  {
    match ai
    case Threw => Refused(GenerationFailed)
    case Returned(response) => ParseText(ExtractText(response), parse)
  }

  /** Lines 68-81 on the extracted text: clean, parse, and demand a non-empty array. */
  function ParseText(extracted: Extracted, parse: string -> Option<JsValue>): (r: Reply<seq<JsValue>>)
    requires extracted.Fail? ==> extracted.error.Status() == 500
    ensures !r.InternalError?
    ensures r.Ok? ==> r.body != []
    ensures r.Refused? ==> r.error.Status() == 500
  {
    match extracted
    case Throws => Refused(GenerationFailed)
    case Fail(e) => Refused(e)
    case Raw(raw) => CheckParsed(parse(Clean(raw)))
  }

  /** Lines 77-81: a parse that throws fails the request; anything but a non-empty array is invalid. */
  function CheckParsed(parsed: Option<JsValue>): (r: Reply<seq<JsValue>>)
    ensures !r.InternalError?
    ensures r.Ok? <==> parsed.Some? && parsed.value.Arr? && parsed.value.items != []
    ensures r.Ok? ==> r.body == parsed.value.items
    ensures r.Refused? ==> r.error.Status() == 500
  {
    match parsed
    case None => Refused(GenerationFailed)
    case Some(data) =>
      if !data.Arr? || data.items == [] then Refused(InvalidGeneratedData) else Ok(data.items)
  }

  /** `generatedData.slice(0, 10)` */
  function FirstBatch(items: seq<JsValue>): (batch: seq<JsValue>)
    ensures batch <= items && |batch| <= MaxGenerated
    ensures |items| <= MaxGenerated ==> batch == items
  {
    if |items| <= MaxGenerated then items else items[..MaxGenerated]
  }

  /**
   * The row lines 90-98 insert for one item, or `None` when building it
   * throws: `item.message` must be a string, and nickname and country must
   * be absent or strings.
   */
  function ConvertItem(item: JsValue, id: string, idAsc: int, now: int): (r: Option<Bottle>)
    ensures r.Some? <==>
      Get(item, "message").Str? && !TrimOrNull(Get(item, "nickname")).NotAString? && !TrimOrNull(Get(item, "country")).NotAString?
    ensures r.Some? ==>
      && r.value.id == id && r.value.idAsc == idAsc && r.value.createdAt == now
      && r.value.status == Active && r.value.ip == Some(DevIp) && r.value.reactions == Counts(map[])
      && IsTrimmed(r.value.message)
  {
    var message := Get(item, "message");
    var nickname := TrimOrNull(Get(item, "nickname"));
    var country := TrimOrNull(Get(item, "country"));
    if !message.Str? || nickname.NotAString? || country.NotAString? then None
    else
      TrimSplits(message.s);
      Some(NewBottle(id, idAsc, Trim(message.s), nickname.value, country.value, DevIp, now))
  }

  /** The row builder of one request: `ConvertItem` at the request's time. */
  function Converter(now: int): (JsValue, string, int) -> Option<Bottle> {
    (item, id, idAsc) => ConvertItem(item, id, idAsc, now)
  }

  /**
   * The rows the loop inserts before it stops: item `i` becomes row `i` with
   * `id_asc` `start + i`, up to the first item whose row cannot be built.
   */
  function Seeded(items: seq<JsValue>, ids: seq<string>, start: int, convert: (JsValue, string, int) -> Option<Bottle>)
    : (made: seq<Bottle>)
    requires |items| <= |ids|
    ensures |made| <= |items|
    ensures forall i :: 0 <= i < |made| ==> convert(items[i], ids[i], start + i) == Some(made[i])
    ensures |made| < |items| ==> convert(items[|made|], ids[|made|], start + |made|).None?
    decreases |items|
  {
    if items == [] then []
    else
      match convert(items[0], ids[0], start)
      case None => []
      case Some(b) =>
        var rest := Seeded(items[1..], ids[1..], start + 1, convert);
        var made := [b] + rest;
        assert forall i :: 0 < i < |made| ==> convert(items[i], ids[i], start + i) == Some(made[i]) by {
          forall i | 0 < i < |made| ensures convert(items[i], ids[i], start + i) == Some(made[i]) {
            assert items[i] == items[1..][i - 1] && ids[i] == ids[1..][i - 1] && made[i] == rest[i - 1];
          }
        }
        assert |made| < |items| ==> items[|made|] == items[1..][|rest|] && ids[|made|] == ids[1..][|rest|];
        made
  }

  /**
   * The inserted rows carry the given ids in order and consecutive `id_asc`
   * values from `start`, are active, and come from the development address.
   */
  lemma SeededRows(items: seq<JsValue>, ids: seq<string>, start: int, now: int)
    requires |items| <= |ids|
    ensures var made := Seeded(items, ids, start, Converter(now));
      forall i :: 0 <= i < |made| ==>
        && made[i].id == ids[i] && made[i].idAsc == start + i
        && made[i].status == Active && made[i].ip == Some(DevIp)
  {
    var made := Seeded(items, ids, start, Converter(now));
    forall i | 0 <= i < |made|
      ensures made[i].id == ids[i] && made[i].idAsc == start + i
      ensures made[i].status == Active && made[i].ip == Some(DevIp)
    {
      ConvertedRow(now, items[i], ids[i], start + i, made[i]);
    }
  }

  /** A row the converter builds carries the id and `id_asc` it was handed. */
  lemma ConvertedRow(now: int, item: JsValue, id: string, idAsc: int, row: Bottle)
    requires Converter(now)(item, id, idAsc) == Some(row)
    ensures row.id == id && row.idAsc == idAsc
    ensures row.status == Active && row.ip == Some(DevIp)
    ensures row.reactions == Counts(map[])
  {
    assert ConvertItem(item, id, idAsc, now) == Some(row);
  }

  /** A row builder that gives each row the id and `id_asc` it is handed, and no reactions yet. */
  ghost predicate BuildsNewRows(build: (JsValue, string, int) -> Option<Bottle>) {
    forall item, id, idAsc :: build(item, id, idAsc).Some? ==>
      && build(item, id, idAsc).value.id == id
      && build(item, id, idAsc).value.idAsc == idAsc
      && build(item, id, idAsc).value.reactions == Counts(map[])
  }

  lemma ConverterBuildsNewRows(now: int)
    ensures BuildsNewRows(Converter(now))
  {
    forall item, id, idAsc | Converter(now)(item, id, idAsc).Some?
      ensures Converter(now)(item, id, idAsc).value.id == id
      ensures Converter(now)(item, id, idAsc).value.idAsc == idAsc
      ensures Converter(now)(item, id, idAsc).value.reactions == Counts(map[])
    {
      ConvertedRow(now, item, id, idAsc, Converter(now)(item, id, idAsc).value);
    }
  }

  lemma PrefixGrows<T>(s: seq<T>, k: nat)
    requires k < |s|
    ensures s[..k + 1] == s[..k] + [s[k]]
  {
  }

  /**
   * Rows built from distinct ids that are new to the table, numbered from
   * the table's next `id_asc`, can all be inserted.
   */
  lemma SeededFitsTable(rows: seq<Bottle>, items: seq<JsValue>, ids: seq<string>, start: int,
                        build: (JsValue, string, int) -> Option<Bottle>)
    requires BuildsNewRows(build) && |items| <= |ids|
    requires forall i, j :: 0 <= i < j < |ids| ==> ids[i] != ids[j]
    requires forall k :: 0 <= k < |ids| ==> !HasId(rows, ids[k])
    requires forall i :: 0 <= i < |rows| ==> rows[i].idAsc < start
    ensures var made := Seeded(items, ids, start, build);
      && DistinctIds(made) && DistinctIdAsc(made)
      && (forall k :: 0 <= k < |made| ==> !HasId(rows, made[k].id) && made[k].reactions == Counts(map[]))
      && (forall k, i :: 0 <= k < |made| && 0 <= i < |rows| ==> rows[i].idAsc < made[k].idAsc)
  {
    var made := Seeded(items, ids, start, build);
    assert forall k :: 0 <= k < |made| ==>
      build(items[k], ids[k], start + k) == Some(made[k]) && made[k].id == ids[k] && made[k].idAsc == start + k;
  }

  /** The public columns of an inserted bottle. */
  datatype SeedSummary = SeedSummary(id: string, message: string, nickname: Option<string>, country: Option<string>)

  /** `{ success: true, generated, bottles }` */
  datatype Generated = Generated(generated: nat, bottles: seq<SeedSummary>)

  function Summaries(rows: seq<Bottle>): (r: seq<SeedSummary>)
    ensures |r| == |rows|
    ensures forall i :: 0 <= i < |rows| ==>
      r[i] == SeedSummary(rows[i].id, rows[i].message, rows[i].nickname, rows[i].country)
  {
    seq(|rows|, i requires 0 <= i < |rows| => SeedSummary(rows[i].id, rows[i].message, rows[i].nickname, rows[i].country))
  }

  /**
   * `POST /api/dev/generate-bottles` behind the development guard: outside
   * production, prepare the items, then insert the first ten of them.
   */
  method GenerateBottles(table: BottleTable, environment: string, ai: AiOutcome,
                         parse: string -> Option<JsValue>, newIds: seq<string>, now: int)
    returns (reply: Reply<Generated>)
    requires table.Valid()
    requires |newIds| >= MaxGenerated
    requires forall i, j :: 0 <= i < j < |newIds| ==> newIds[i] != newIds[j]
    requires forall i :: 0 <= i < |newIds| ==> table.FreshId(newIds[i])
    modifies table
    ensures table.Valid() && table.falsePositives == old(table.falsePositives)
    ensures DevGate(environment).Some? ==> reply == Refused(DevEndpointsDisabled) && table.rows == old(table.rows)
    ensures DevGate(environment).None? && Prepare(ai, parse).Refused? ==>
      reply == Refused(Prepare(ai, parse).error) && table.rows == old(table.rows)
    ensures DevGate(environment).None? && Prepare(ai, parse).Ok? ==>
      var batch := FirstBatch(Prepare(ai, parse).body);
      var made := Seeded(batch, newIds, NextIdAsc(old(table.rows)), Converter(now));
      && table.rows == old(table.rows) + made
      && (if |made| == |batch| then reply == Ok(Generated(|made|, Summaries(made))) else reply == Refused(GenerationFailed))
  {
    var gate := DevGate(environment);
    if gate.Some? {
      return Refused(gate.value);
    }
    var prepared := Prepare(ai, parse);
    if !prepared.Ok? {
      return Refused(prepared.error);
    }
    ConverterBuildsNewRows(now);
    reply := InsertBatch(table, FirstBatch(prepared.body), newIds, Converter(now));
  }

  /**
   * Lines 83-112: read the next `id_asc`, then insert the items one by one.
   * An item whose row cannot be built stops the loop; the rows inserted
   * before it stay, and the reply is the generic failure of the `catch`.
   */
  method InsertBatch(table: BottleTable, batch: seq<JsValue>, newIds: seq<string>,
                     build: (JsValue, string, int) -> Option<Bottle>)
    returns (reply: Reply<Generated>)
    requires BuildsNewRows(build)
    requires table.Valid()
    requires |batch| <= |newIds|
    requires forall i, j :: 0 <= i < j < |newIds| ==> newIds[i] != newIds[j]
    requires forall i :: 0 <= i < |newIds| ==> table.FreshId(newIds[i])
    modifies table
    ensures table.Valid() && table.falsePositives == old(table.falsePositives)
    ensures var made := Seeded(batch, newIds, NextIdAsc(old(table.rows)), build);
      && table.rows == old(table.rows) + made
      && (if |made| == |batch| then reply == Ok(Generated(|made|, Summaries(made))) else reply == Refused(GenerationFailed))
  {
    var start := NextIdAsc(table.rows);
    var nextIdAsc := start;
    ghost var made := Seeded(batch, newIds, start, build);
    var inserted: seq<Bottle> := [];
    var failed := false;
    while !failed && |inserted| < |batch|
      invariant |inserted| <= |made| && inserted == made[..|inserted|]
      invariant failed ==> inserted == made && |made| < |batch|
      invariant nextIdAsc == start + |inserted|
      invariant unchanged(table)
      decreases |batch| - |inserted|, if failed then 0 else 1
    {
      var k := |inserted|;
      var row := build(batch[k], newIds[k], nextIdAsc);
      assert k < |made| ==> build(batch[k], newIds[k], start + k) == Some(made[k]);
      if row.None? {
        // the `TypeError` leaves the loop for the `catch`
        failed := true;
      } else {
        nextIdAsc := nextIdAsc + 1;
        assert k < |made| && made[k] == row.value;
        PrefixGrows(made, k);
        inserted := inserted + [row.value];
      }
    }
    if |inserted| == |batch| {
      assert inserted == made;
    }
    SeededFitsTable(table.rows, batch, newIds, start, build);
    table.InsertAll(inserted);
    if failed {
      return Refused(GenerationFailed);
    }
    reply := Ok(Generated(|inserted|, Summaries(inserted)));
  }
}
