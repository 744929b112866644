# Riverbank bottle exchange, modelled in Dafny

Riverbank lets a visitor write a short message, "throw" it into a river,
and receive up to three messages other visitors threw before. This project
models the core of the system and proves properties of the model.

The back end is a worker with four endpoints:

- **throw:** rate limit, message and nickname checks, a link heuristic, moderation by a language model, then insertion and a random sample of other bottles;
- **report:** adds one to a bottle's report count;
- **react:** keeps a sparse emoji-to-count record per bottle;
- **false positive:** stores a dispute of a moderation refusal.

It also has a CORS origin callback, the `getClientIP` helper and a development seeding endpoint that asks a model for ten messages.

On the client side, the model covers:

- the home page's handlers: throw, report, react, and report a false positive;
- the composition form: input truncation, the bottle-count hint, the counter, the throw button and the lazily loaded region list;
- the received-bottle card;
- the error banner of the `src/web` client (`src/web/components/error-alert.tsx`), taken as the classification the page's banner makes.

Agreement lemmas tie the client to the worker:

- what the form lets through is what the throw checks accept;
- the hint names the number of bottles the worker sends back;
- the banner's classification recognises the worker's moderation refusal and no other refusal;
- a reaction moves the worker's count the way it moves the page's own record.

Modules, one per file:

- **Strings and values:**
  - `JsString` models JavaScript strings as `seq<char>`. It covers `trim`, `.length` in UTF-16 units, `slice`, `includes` and ASCII `toLowerCase`.
  - `JsValue` models JavaScript values with truthiness, `v?.key` and `String(v)`.
  - `Optional` and `Api` hold the error replies, their statuses and texts.
- **Data:** `Bottles` holds the rows, queries and reaction records.
- **Worker logic:**
  - `Http`: the client address and CORS.
  - `LinkDetector`: `containsURL`.
  - `Moderation`: `moderateContent`.
  - `RateLimit`: the rate-limiter binding.
  - `Submission`: the throw checks and the bottle tier.
  - `Worker`: the endpoints, as methods of the `BottleTable` class.
  - `DevRoutes`: the seeding endpoint.
- **Client:** `HomePage` (the page state as the `Page` class), `CompositionForm`, `BottleCard` and `ErrorAlert`.
- **Cross-checks:** `Agreement` holds the client-worker lemmas.

External capabilities are parameters:

- the rate-limiter verdicts and the language model's replies (oracles recorded in a log);
- `nanoid()` ids, the insertion time, `JSON.parse`, and the sampling done by `ORDER BY RANDOM()` (any subset of the eligible rows of the right size);
- the worker's reply to each `fetch` of the client.

Two points of the code that shape the model:

- **Rate-limit keys:** throws and false-positive reports each have their own limiter binding (`THROW_RATE_LIMITER`, `FALSE_POSITIVE_RATE_LIMITER`) keyed by the bare client address. Report and react share `ACTION_RATE_LIMITER`, so they prefix the address (`report:`, `react:`) to keep separate keys.
- **Reaction counts:** the react endpoint reads the stored record, changes it and writes it back. It does not use an atomic increment. The model handles requests one at a time.

## Model

| member | source | states |
|---|---|---|
| Http.FirstField | worker/index.ts:11 | `split(",")[0]`: a prefix of the header holding no comma, cut exactly at the first comma |
| Http.ClientIP | worker/index.ts:9-13 | the address is never empty, and a non-empty `CF-Connecting-IP` header wins |
| Http.ClientIPFallback | worker/index.ts:10-12 | without that header, the address is the first comma-separated `X-Forwarded-For` entry with only blank text around it removed (a comma-free piece of the header), and `"unknown"` exactly when that entry is blank or missing |
| Http.TrimIsPiece | worker/index.ts:11 | the trimmed text is a substring of the text |
| Http.CorsOriginAsWritten | worker/index.ts:55-66 | the callback as written only ever echoes the origin, and always echoes the two production origins |
| Http.CorsAdmitsForeignHost | worker/index.ts:57 | the written check admits `https://localhost.evil.example`, a foreign host |
| Http.AfterScheme | worker/index.ts:57 | splits an origin into its `http://` or `https://` scheme and the rest |
| Http.BeforeColon | worker/index.ts:57 | the host part of `host:port`: a colon-free prefix, cut at the first colon |
| Http.CorsOrigin | worker/index.ts:55-66 | the corrected callback echoes only the origin, and admits the production origins |
| Http.BeforeColonOfHost | worker/index.ts:57 | a colon-free host followed by a port suffix yields that host |
| Http.CorsAdmitsOnlyLoopback | worker/index.ts:55-66 | a non-production `scheme://host[:port]` origin is admitted exactly when the host is `localhost` or `127.0.0.1` |
| Http.CorsRefusesForeignHost | worker/index.ts:57 | the corrected check refuses `https://localhost.evil.example` |
| LinkDetector.SearchFromFinds | worker/index.ts:22 | `pattern.test` succeeds exactly when the pattern matches at some start index |
| LinkDetector.TldsEndInWordChars | worker/index.ts:20 | every listed top-level domain is non-empty and ends in a word character |
| LinkDetector.AlternativeAtFinds | worker/index.ts:20 | the alternation matches exactly when one listed domain occurs there followed by a word boundary |
| LinkDetector.BoundaryAfterWord | worker/index.ts:20 | after a word character, `\b` means the end of the text or a non-word character |
| LinkDetector.SuffixFollowedAt | worker/index.ts:20 | `\.` + domain + `\b` at `i` means `.`, the domain, and then the end or a non-word character |
| LinkDetector.SuffixAtIff | worker/index.ts:20 | the domain pattern matches at `i` exactly when some listed domain follows a `.` there with a boundary after it |
| LinkDetector.SchemeMatches | worker/index.ts:18 | `https?://` matches at `i` exactly when `http://` or `https://` occurs there |
| LinkDetector.SearchSchemeIff | worker/index.ts:18 | the scheme pattern finds a match exactly when the text contains `http://` or `https://` |
| LinkDetector.SearchWwwIff | worker/index.ts:19 | the `www.` pattern finds a match exactly when the text contains `www.` |
| LinkDetector.SearchTldIff | worker/index.ts:20 | the domain pattern finds a match exactly when some listed domain follows a `.` and is followed by the end or a non-word character |
| LinkDetector.ContainsUrlIff | worker/index.ts:16-23 | `containsURL` holds exactly when the case-folded text contains `http://`, `https://`, `www.`, or `.` + a listed domain not followed by a word character |
| LinkDetector.ContainsUrl | worker/index.ts:16-23 | `containsURL`: some of the three patterns (scheme, `www.`, listed domain) matches the ASCII-folded text |
| LinkDetector.NoDotNoSlashNoLink | worker/index.ts:16-23 | a text with neither `.` nor `/` is never a link |
| LinkDetector.TrailingTldIsLink | worker/index.ts:20 | a text ending in `.` + a listed domain, in any letter case, is a link |
| Moderation.FailOpen | worker/index.ts:45-48 | a call that throws yields a safe verdict |
| Moderation.DecisionText | worker/index.ts:42 | the reply itself when it is a string, otherwise `String` of its `response` field, or of `""` when that field is falsy |
| Moderation.IsSafe | worker/index.ts:42-48 | unsafe exactly when the decision text trims to `"1"`; a call that threw is safe |
| Moderation.StringReplyVerdict | worker/index.ts:42-44 | a string reply is unsafe exactly when it is `1` surrounded only by white space |
| Moderation.NumberFieldVerdict | worker/index.ts:42-44 | a reply whose `response` field is the number `n` is unsafe exactly when `n` is 1 |
| Moderation.MissingFieldIsSafe | worker/index.ts:42 | a reply object without a truthy `response` field is safe |
| Moderation.OtherRepliesAreSafe | worker/index.ts:42 | a reply that is neither a string nor an object is safe |
| Moderation.Classifier.Moderate | worker/index.ts:26-49 | one model call is logged with the user prompt, and the verdict is the reduction of its outcome |
| RateLimit.RateLimiter.Limit | worker/index.ts:79 | one call is appended to the limiter's log, with the key and the verdict returned |
| JsValue.Decimal | worker/index.ts:42 | the decimal notation of a number is non-empty, holds only digits, and has one digit exactly below 10 |
| JsValue.NumberStringIsOne | worker/index.ts:42-44 | `String(n)` is `"1"` exactly for `n == 1` |
| JsValue.NumberStringIsTrimmed | worker/index.ts:44 | `String(n)` has no surrounding white space |
| JsString.TrimSplits | worker/index.ts:91-95 | `trim` removes exactly a white-space prefix and suffix, and the result is trimmed |
| JsString.TrimEmptyIffBlank | worker/index.ts:91 | `s.trim() === ""` exactly when `s` is all white space |
| JsString.TrimIdempotent | worker/index.ts:95 | trimming twice is trimming once |
| JsString.TrimOfPadded | worker/index.ts:42-44 | white space around a trimmed, non-empty core trims to the core |
| JsString.JsLength | worker/index.ts:96-99 | `.length` counts between one and two UTF-16 units per character |
| JsString.JsLengthAppend | worker/index.ts:96-99 | `.length` of a concatenation is the sum of the lengths |
| JsString.JsLengthTrim | worker/index.ts:96-99 | trimming never makes a text longer |
| JsString.SliceTo | src/components/message-composition-form.tsx:93 | `slice(0, n)` gives the longest prefix within `n` units, and the whole text when it already fits |
| JsString.IndexOf | src/web/components/error-alert.tsx:25 | the first occurrence at or after `from`, or -1 when there is none |
| JsString.Includes | src/web/components/error-alert.tsx:25 | `includes` holds exactly when the needle occurs somewhere |
| JsString.LowerAscii | src/web/components/error-alert.tsx:25 | `toLowerCase` keeps the length and folds each character |
| JsString.LowerAsciiIdempotent | src/web/components/error-alert.tsx:25 | lower-casing twice is lower-casing once |
| Submission.TrimOrNull | worker/index.ts:117 | `v?.trim() \|\| null` gives a non-empty trimmed text, `null` exactly for a missing or blank value, and a TypeError exactly for a non-string value |
| Submission.CheckMessagePassed | worker/index.ts:91-114 | the message checks pass exactly for 15 to 300 units once trimmed and no link, and yield the trimmed text |
| Submission.CheckMessage | worker/index.ts:90-114 | the message checks in order, first failure wins: required, at least 15 and at most 300 units once trimmed, no link; a passing message yields its trimmed text |
| Submission.CheckNickname | worker/index.ts:117-120 | the trimmed nickname, or none when missing or blank; refused when longer than 30 units; a non-string nickname is a `TypeError` |
| Submission.Screen | worker/index.ts:90-120 | the nickname is checked only after the message passed every check |
| Submission.ScreenMessageRequired | worker/index.ts:91-93 | "Message is required" is the answer exactly for a falsy or blank message |
| Submission.ScreenTooShort | worker/index.ts:96-98 | "at least 15" is the answer exactly for a non-blank message under 15 units once trimmed |
| Submission.ScreenTooLong | worker/index.ts:99-101 | "300 or less" is the answer exactly for more than 300 units once trimmed |
| Submission.ScreenLink | worker/index.ts:112-114 | the link refusal comes only for a message of allowed length that contains a link |
| Submission.ScreenNickname | worker/index.ts:117-120 | the nickname is refused, or its type error raised, only after every message check passed |
| Submission.ScreenPassed | worker/index.ts:91-120 | the checks pass exactly for an allowed, link-free message and a nickname absent or at most 30 units once trimmed; the draft holds the trimmed texts |
| Submission.BlankNicknameIgnored | worker/index.ts:117-118 | a white-space nickname is treated exactly as no nickname |
| Submission.ModerationContent | worker/index.ts:123-125 | the moderated text contains the message and the nickname, and is the bare message without a nickname |
| Submission.Tier | worker/index.ts:104-109 | `bottlesToReceive` is one, two or three |
| Submission.TierBands | worker/index.ts:103-109 | one bottle for 15-60 units, two for 61-150, three from 151; the count never falls as the length grows |
| Bottles.NewBottle | worker/db/schema.ts:4-17 | a new row is active, has no reactions and no reports |
| Bottles.PublishAll | worker/index.ts:160-168 | the received list has one public projection per sampled row, in order |
| Bottles.Find | worker/index.ts:188-191 | finds a row with the id, and none exactly when no row has it |
| Bottles.MaxIdAsc | worker/index.ts:133 | `max(id_asc)` is null exactly on an empty table, and otherwise is the greatest value present |
| Bottles.NextIdAsc | worker/index.ts:134 | the next `id_asc` is above every row's, 1 on an empty table, and one more than an existing value otherwise |
| Bottles.Eligible | worker/index.ts:153-156 | the pool holds exactly the active rows other than the new one |
| Bottles.EligibleDistinct | worker/index.ts:150-156 | filtering keeps ids distinct |
| Bottles.SampleExists | worker/index.ts:157-158 | some sample always exists, even from an empty pool |
| Bottles.ReactedOthersUnchanged | worker/index.ts:239-248 | a reaction changes no other emoji's count or presence |
| Bottles.Reacted | worker/index.ts:236-248 | `add` counts the emoji once more; `remove` counts it once less, floored at zero, and deletes it at zero; any other action changes nothing |
| Bottles.ReactedCount | worker/index.ts:236-248 | `add` counts one more, `remove` one less with a floor at zero and the key dropped at zero, and any other action nothing |
| Bottles.ReactedSparse | worker/index.ts:243-247 | a record of positive counts stays one |
| Bottles.RemoveAbsentUnchanged | worker/index.ts:241-247 | removing an absent emoji leaves the record unchanged |
| Bottles.AddThenRemoveRestores | worker/index.ts:239-248 | `add` then `remove` restores the record exactly, with the key absent rather than zero |
| Worker.BottleTable.constructor | worker/db/schema.ts:4-17 | the tables start empty and consistent |
| Worker.BottleTable.Insert | worker/index.ts:137-145 | appends one row and keeps ids and `id_asc` unique |
| Worker.BottleTable.InsertAll | src/worker/dev-routes.ts:89-101 | appends the batch in order and keeps the table consistent |
| Worker.BottleTable.SampleReceived | worker/index.ts:150-168 | the received list is the projection of a sample of the eligible rows |
| Worker.BottleTable.Throw | worker/index.ts:77-171 | one rate-limit call on the client address; a refusal leaves everything unchanged; otherwise the first failing check answers with no model call and no insert; otherwise one model call on the labelled content; an unsafe verdict refuses, a safe one inserts exactly the new row (next `id_asc`, trimmed texts, caller address, active) and answers with a sample of the tier's size that excludes it |
| Worker.BottleTable.Report | worker/index.ts:175-198 | 429, 400 for an empty id, 404 for an unknown id with no change, otherwise only that row's report count rises by one and the new value is returned |
| Worker.BottleTable.React | worker/index.ts:202-257 | 429, 400 for an empty id or an invalid emoji, 404 for an unknown id, otherwise only that row's record becomes the reacted record (unparsable text read as `{}`) and the action echoed defaults to `add` |
| Worker.ActionOf | worker/index.ts:211 | a missing `action` defaults to `add`; only the exact strings `add` and `remove` are recognised |
| Worker.BottleTable.ReportFalsePositive | worker/index.ts:261-289 | 429 with nothing stored; otherwise the report is appended exactly when it can be built, and the reply follows it |
| Worker.FalsePositiveStored | worker/index.ts:274-286 | a report is stored exactly for a non-blank string message with nickname and country absent or strings; stored texts are trimmed and non-empty, blanks become `null` |
| Worker.FalsePositiveEntry | worker/index.ts:274-286 | the stored dispute: the required non-blank message trimmed, nickname and country trimmed or `null`, a non-string field a `TypeError` |
| Worker.CheckThrow | worker/index.ts:90-120 | the step-by-step checks give the screening verdict and, on a pass, the tier of the trimmed length |
| Worker.DevGate | worker/index.ts:295-301 | the development routes are refused with 403 exactly in production |
| Api.Reply.Acknowledged | worker/index.ts:288 | replacing the success body keeps the kind of reply and its status |
| DevRoutes.FindFrom | src/worker/dev-routes.ts:45 | `find` stops at the first accepted element, throws at a `null` element before it, and otherwise finds nothing |
| DevRoutes.ExtractText | src/worker/dev-routes.ts:40-66 | every error reply of the extraction has status 500 |
| DevRoutes.StringReplyIsText | src/worker/dev-routes.ts:41-42 | a string reply is the text |
| DevRoutes.OutputArrayDecides | src/worker/dev-routes.ts:43-58 | with an `output` array, nothing else in the reply matters and the "unexpected format" error never comes |
| DevRoutes.OutputTextOrigin | src/worker/dev-routes.ts:45-50 | the text is that of the first truthy-`text` content item of the first message item |
| DevRoutes.MissingContentIsError | src/worker/dev-routes.ts:46-58 | a message item without content, or without text, ends in a 500 error, not in the later branches |
| DevRoutes.ResponseFieldsInOrder | src/worker/dev-routes.ts:59-66 | `String(response.response)` when that field is truthy, otherwise `String(response.result.response)` when that one is, and the format error exactly when both are falsy |
| DevRoutes.StripToken | src/worker/dev-routes.ts:70-71 | the global replace never lengthens the text |
| DevRoutes.StripShort | src/worker/dev-routes.ts:70-71 | a text shorter than the token is unchanged |
| DevRoutes.StripKeepsPrefix | src/worker/dev-routes.ts:70-71 | text without the token's first character passes through unchanged |
| DevRoutes.NoFenceAtStart | src/worker/dev-routes.ts:71 | stripping never creates a fence at the start |
| DevRoutes.NoFenceLeft | src/worker/dev-routes.ts:71 | after the bare-fence pass no fence remains anywhere |
| DevRoutes.CleanHasNoFence | src/worker/dev-routes.ts:69-72 | the cleaned text never contains a code fence |
| DevRoutes.Clean | src/worker/dev-routes.ts:69-72 | deletes every `` ```json `` and then every `` ``` `` fence, each with one following newline, then trims |
| DevRoutes.FencedJsonUnwrapped | src/worker/dev-routes.ts:69-72 | a body in a `json` code block comes out as the body |
| DevRoutes.Prepare | src/worker/dev-routes.ts:33-81 | the prepared items are non-empty, and every failure has status 500 |
| DevRoutes.ParseText | src/worker/dev-routes.ts:68-81 | cleaning and parsing yield a non-empty array or a 500 |
| DevRoutes.CheckParsed | src/worker/dev-routes.ts:77-81 | the items pass exactly when the parse gave a non-empty array, and are its elements |
| DevRoutes.FirstBatch | src/worker/dev-routes.ts:89 | `slice(0, 10)`: a prefix of at most ten items, all of them when there are few enough |
| DevRoutes.ConvertItem | src/worker/dev-routes.ts:90-98 | a row is built exactly for a string message and string-or-absent nickname and country, with trimmed texts, the dev address and active status |
| DevRoutes.Seeded | src/worker/dev-routes.ts:89-101 | item `i` becomes row `i` with `id_asc` start + `i`, up to the first item that cannot be built |
| DevRoutes.SeededRows | src/worker/dev-routes.ts:89-98 | inserted rows carry the given ids, consecutive `id_asc` values, active status and the dev address |
| DevRoutes.ConvertedRow | src/worker/dev-routes.ts:90-98 | a row the converter builds has the given id and `id_asc`, active status, the dev address and no reactions |
| DevRoutes.ConverterBuildsNewRows | src/worker/dev-routes.ts:90-98 | the row builder gives each row the id and `id_asc` it is handed |
| DevRoutes.SeededFitsTable | src/worker/dev-routes.ts:84-101 | rows with fresh distinct ids numbered from the next `id_asc` can all be inserted |
| DevRoutes.Summaries | src/worker/dev-routes.ts:106-111 | one summary per inserted row, with its id and texts |
| DevRoutes.GenerateBottles | src/worker/dev-routes.ts:9-121 | refused in production with nothing inserted; a preparation failure inserts nothing; otherwise the seeded rows of the first ten items are appended, and `generated` counts them when all were built |
| DevRoutes.InsertBatch | src/worker/dev-routes.ts:83-112 | appends exactly the seeded rows, numbered from the table's next `id_asc`, and answers with their count or the generic failure |
| HomePage.ThrowError | src/routes/index.tsx:136-171 | an error exactly when the reply is not OK; it is never empty, and a refusal shows the worker's own text |
| HomePage.ToggledShape | src/routes/index.tsx:206-225 | the map never holds an empty set, and other bottles' sets are unchanged |
| HomePage.CanSubmit | src/routes/index.tsx:104 | the trimmed message is at least 15 UTF-16 units long |
| HomePage.MessageRequest | src/routes/index.tsx:129-133 | the trimmed message, the trimmed nickname unless blank, and the country as chosen unless empty |
| HomePage.ChooseAction | src/routes/index.tsx:194-195 | `remove` when the emoji is among this browser's reactions to the bottle, `add` otherwise |
| HomePage.Toggled | src/routes/index.tsx:206-223 | the emoji joins or leaves the bottle's set, and a set that becomes empty is deleted |
| HomePage.ToggleFlips | src/routes/index.tsx:194-222 | the chosen action flips the emoji's membership and leaves the other emoji alone |
| HomePage.ToggleTwiceRestores | src/routes/index.tsx:191-225 | reacting twice with the same emoji restores the map |
| HomePage.WithReactions | src/routes/index.tsx:227-229 | same bottles in the same order; only those with the matching id take the stored reactions |
| HomePage.Settled | src/routes/index.tsx:135-174 | after the reply the page is neither loading nor animating the throw; the message is cleared only on success, and bottles are shown only when some arrived |
| HomePage.Thrown | src/routes/index.tsx:106-175 | a throw forgets reactions and reports, ends out of loading, shows the reply's error, and shows bottles exactly when an OK reply brought some |
| HomePage.Page.constructor | src/routes/index.tsx:62-76 | the initial state of every field |
| HomePage.Page.ThrowBottle | src/routes/index.tsx:106-175 | no request and no change exactly when the message cannot be sent; otherwise the request holds the trimmed message, the trimmed nickname unless blank, and the country as chosen unless empty (`MessageRequest`), and the state is `Thrown` |
| HomePage.Page.BeginThrow | src/routes/index.tsx:110-123 | the error cleared, loading, reactions and reports forgotten, the throw animation started |
| HomePage.Page.SettleThrow | src/routes/index.tsx:135-174 | the state becomes `Settled` |
| HomePage.Page.ReportBottle | src/routes/index.tsx:177-189 | the id joins the reported set only when the worker accepted the report |
| HomePage.Page.ReactToBottle | src/routes/index.tsx:191-234 | the request carries the chosen action; on an OK reply the emoji is toggled and the bottle takes the stored reactions, otherwise nothing changes |
| HomePage.Page.SubmitFalsePositive | src/routes/index.tsx:236-259 | the request is that of a throw; on acceptance the dialog closes and the error clears |
| CompositionForm.MessageInput | src/components/message-composition-form.tsx:93 | the textarea keeps a prefix of at most 300 units, and all of a text that fits |
| CompositionForm.NicknameInput | src/components/message-composition-form.tsx:120 | the nickname keeps a prefix of at most 30 units, and all of a text that fits |
| CompositionForm.InputsSettle | src/components/message-composition-form.tsx:93 | truncating twice is truncating once |
| CompositionForm.ExactlyOneHint | src/components/message-composition-form.tsx:101-106 | no hint for a blank message; otherwise exactly one, with the minimum below 15 and one, two or three bottles in the bands 15-60, 61-150, 151 on, each both ways |
| CompositionForm.CounterOfInput | src/components/message-composition-form.tsx:108 | the remaining count is 0 to 300, and red exactly past 270 units |
| CompositionForm.Hints | src/components/message-composition-form.tsx:101-106 | the four conditional labels, in order, each testing the trimmed length |
| CompositionForm.CharsRemaining | src/components/message-composition-form.tsx:60 | `300 - message.length` of the untrimmed message |
| CompositionForm.CounterIsRed | src/components/message-composition-form.tsx:108 | fewer than 30 units remain |
| CompositionForm.ThrowDisabled | src/components/message-composition-form.tsx:155 | loading, or the message cannot be sent |
| CompositionForm.CountriesCache.constructor | src/components/message-composition-form.tsx:21 | no promise and no import yet |
| CompositionForm.CountriesCache.Load | src/components/message-composition-form.tsx:23-31 | at most one import ever; the first load caches the outcome, later loads return the cached one |
| CompositionForm.CountryPicker.constructor | src/components/message-composition-form.tsx:62-63 | no data, not loading |
| CompositionForm.CountryPicker.EnsureCountriesLoaded | src/components/message-composition-form.tsx:65-73 | a no-op when data is loaded or a load is running; otherwise the data is the cached outcome and loading ends |
| BottleCard.FormatSender | src/components/bottle-card.tsx:33-44 | "from " then the nickname or "a stranger", then, when there is a country, " in " + the country with nothing else in between (the length is the sum of the three parts); exactly the short form without one |
| BottleCard.EmptyFieldIsNull | src/components/bottle-card.tsx:34-42 | an empty nickname or country reads as none |
| BottleCard.ControlsFor | src/components/bottle-card.tsx:66-86 | the like button is disabled exactly for a liked bottle, its count shows exactly when positive, and the report button shows exactly until reported |
| BottleCard.ReportTouchesOneCard | src/components/bottle-card.tsx:76-86 | reporting one bottle changes only its own card |
| BottleCard.LikeTouchesOneCard | src/components/bottle-card.tsx:64-74 | liking one bottle disables only its own like button |
| ErrorAlert.AlertFor | src/web/components/error-alert.tsx:14-39 | nothing exactly for no or empty error, the notice exactly for a moderation error, otherwise the error text itself |
| ErrorAlert.ModerationIgnoresCase | src/web/components/error-alert.tsx:25 | an error and its lower-cased form are classified alike |
| ErrorAlert.NonEmptyErrorShown | src/web/components/error-alert.tsx:14-38 | every non-empty error is shown, as the notice or word for word |
| ErrorAlert.IsModerationError | src/web/components/error-alert.tsx:25 | the lower-cased error contains `inappropriate` or `content` |
| Agreement.ClientThrowScreened | src/routes/index.tsx:103-134 | a message the page sends passes every length check, so only the link check can refuse it; the draft is the trimmed text, the hint names the tier, and an enabled button means a non-blank message |
| Agreement.FormScreened | worker/index.ts:91-120 | trimmed texts within the form's input limits pass every length check of the endpoint; only a link refuses them, and otherwise the draft holds the trimmed message and the nickname unless it is blank |
| Agreement.ModerationRefusalSelectsNotice | src/web/components/error-alert.tsx:25 | the worker's moderation refusal (worker/index.ts:129) reaches the page as its text and selects the moderation notice |
| Agreement.ShownVerbatim | src/web/components/error-alert.tsx:37-38 | a text with neither needle after folding is shown word for word |
| Agreement.RateLimitVerbatim | worker/index.ts:81 | the rate-limit text is shown word for word |
| Agreement.MessageRequiredVerbatim | worker/index.ts:92 | the required-message text is shown word for word |
| Agreement.MessageTooShortVerbatim | worker/index.ts:97 | the too-short text is shown word for word |
| Agreement.MessageTooLongVerbatim | worker/index.ts:100 | the too-long text is shown word for word |
| Agreement.LinksVerbatim | worker/index.ts:113 | the link text is shown word for word |
| Agreement.NicknameVerbatim | worker/index.ts:119 | the nickname text is shown word for word |
| Agreement.ConnectionFailedVerbatim | src/routes/index.tsx:170 | the connection failure is shown word for word |
| Agreement.FallbackVerbatim | src/routes/index.tsx:139 | the fallback error is shown word for word |
| Agreement.OtherRefusalsShownVerbatim | src/web/components/error-alert.tsx:25-38 | the rate-limit, length, link and nickname refusals reach the page as their texts and are shown word for word, as are the page's own two errors |
| Agreement.ReactionDirectionsAgree | src/routes/index.tsx:194-222 | the page's action is one the worker applies (worker/index.ts:239-248); the worker's count rises by one when the emoji joins the page's set and falls by one, floored at zero, when it leaves |

## Left out

- Rendering, animations, timers and layout are not modelled. After a throw, `showReceiveAnimation` stays set; the page resets it 500 ms later with a timer.
- Concurrency is not modelled: requests and handlers run one at a time. The races of the non-atomic `max(id_asc) + 1` and of the reaction record's read-modify-write are not modelled. The table invariant `BottleTable.Valid` (distinct `id_asc` values, reaction records holding only positive counts) holds of the model only; `worker/db/schema.ts` enforces neither, and concurrent throws could store a repeated `id_asc`.
- JSON encoding and decoding, and header-name case, are not modelled. Headers are keyed by lower-case name. `JSON.parse` is a parameter. A stored reaction record is either parsed counts or unparsable text.
- The worker's plain-text 500 reply to a non-JSON request body is not modelled. A `TypeError` from a field of the wrong type is modelled as `InternalError`, which the page reports as a connection failure.
- Numbers in JavaScript values are integers only; floating point is not modelled.
- Lone surrogates are not modelled. Text is a sequence of characters, and `slice` drops a character whose surrogate pair would be cut, where JavaScript keeps half of it.
- JsString.LowerAscii: `toLowerCase` folds ASCII letters only. That is exact for the needles `inappropriate` and `content`, but not for other scripts.
- The rate limiters' quotas and windows belong to the platform; each verdict is an input.
- `nanoid()` freshness is not modelled; new ids are inputs that are assumed fresh.
- The uniform distribution of `ORDER BY RANDOM()` is not modelled; any subset of the right size is allowed.
- The prompts' wording is not modelled; the seeding prompt is not stored.
- The language model's replies are an arbitrary fixed function of the prompt.
- Console logging is not modelled.
- Property names such as `__proto__` in parsed records are not modelled.
- The client's replies come from the worker's `Reply`, so a reply's error text is always one of the worker's texts.
- CompositionForm.CountryPicker.EnsureCountriesLoaded runs to completion. A second call while the import is still pending, which the `isLoadingCountries` guard turns away, is not modelled as an interleaving.
- ErrorAlert.AlertFor: models `src/web/components/error-alert.tsx`. The home page imports its banner from `@/components/error-alert` (`src/routes/index.tsx:7`), that is `src/components/error-alert.tsx`, which is not part of this model. The banner lemmas of `Agreement` assume that component classifies errors the same way.
- Apart from its error banner, the older client in `src/web` (its `/like` endpoint and like-based schema) and the starter-template routes in `src/worker/index.ts` are not modelled.

## Findings

| source | as written | input that shows it | evidently intended | confidence | as-written member | corrected member |
|---|---|---|---|---|---|---|
| worker/index.ts:57 | any origin whose text contains `localhost` or `127.0.0.1` is echoed back with credentials allowed | `https://localhost.evil.example` | only origins whose host is exactly `localhost` or `127.0.0.1` (development) | not executed | Http.CorsAdmitsForeignHost | Http.CorsAdmitsOnlyLoopback |
