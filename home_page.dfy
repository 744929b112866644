/**
 * The home page of the client (src/routes/index.tsx): the state it keeps
 * and its four request handlers — throw a bottle, report a received bottle,
 * react to a received bottle, and report a moderation false positive. Each
 * handler runs to completion against the worker's reply to its request,
 * given as a parameter; the page's state setters become field updates.
 */
module HomePage {
  import opened Optional
  import opened JsString
  import opened JsValue
  import opened Api
  import opened Bottles
  import opened Worker

  /** What `fetch` yields: no answer at all, or the worker's reply. */
  datatype Fetched<T> = Unreachable | Answered(reply: Reply<T>) {
    /** `response.ok` on a body `response.json()` can read. */
    predicate IsOk() {
      Answered? && reply.Ok?
    }
  }

  const MinChars: nat := 15
  const ConnectionFailed: string := "Failed to connect " + "to the river"
  const SomethingWentWrong: string := "Something went wrong"

  /** `canSubmit`: the trimmed message is at least 15 UTF-16 units long. */
  predicate CanSubmit(message: string) {
    JsLength(Trim(message)) >= MinChars
  }

  /**
   * The body of a throw or false-positive request: the trimmed message, the
   * trimmed nickname unless it is blank, and the country unless it is empty.
   */
  function MessageRequest(message: string, nickname: string, country: string): MessageBody {
    MessageBody(
      Str(Trim(message)),
      if Trim(nickname) == "" then Undefined else Str(Trim(nickname)),
      if country == "" then Undefined else Str(country))
  }

  /**
   * The error a failed throw leaves on the page: the reply's `error` text, or
   * a fallback when it is empty; an answer that is not JSON (the worker's
   * plain-text 500) or no answer at all is reported as a connection failure.
   */
  function ThrowError(response: Fetched<seq<PublicBottle>>): (e: Option<string>)
    ensures e.None? <==> response.IsOk()
    ensures e.Some? ==> e.value != ""
    ensures response.Answered? && response.reply.Refused? ==> e == Some(response.reply.error.Text())
  {
    match response
    case Unreachable => Some(ConnectionFailed)
    case Answered(Ok(_)) => None
    case Answered(Refused(err)) => Some(if err.Text() != "" then err.Text() else SomethingWentWrong)
    case Answered(InternalError) => Some(ConnectionFailed)
  }

  // ---------------------------------------------------------------------------
  // Reactions

  /** The action a reaction request carries. */
  datatype ClientAction = AddEmoji | RemoveEmoji

  function ActionName(a: ClientAction): string {
    match a
    case AddEmoji => "add"
    case RemoveEmoji => "remove"
  }

  /** The emoji this browser has reacted with on the bottle. */
  function Mine(reacted: map<string, set<string>>, id: string): set<string> {
    if id in reacted then reacted[id] else {}
  }

  /** `remove` when the emoji is already among this browser's reactions to the bottle, `add` otherwise. */
  function ChooseAction(reacted: map<string, set<string>>, id: string, emoji: string): ClientAction {
    if emoji in Mine(reacted, id) then RemoveEmoji else AddEmoji
  }

  /** The reaction map never records a bottle with no emoji. */
  predicate NoEmptySets(reacted: map<string, set<string>>) {
    forall id :: id in reacted ==> reacted[id] != {}
  }

  /**
   * The reaction map after a successful reaction: the emoji joins or leaves
   * the bottle's set, and a bottle whose set empties is dropped.
   */
  function Toggled(reacted: map<string, set<string>>, id: string, emoji: string, action: ClientAction)
    : map<string, set<string>>
  {
    var updated := if action == AddEmoji then Mine(reacted, id) + {emoji} else Mine(reacted, id) - {emoji};
    if updated != {} then reacted[id := updated] else reacted - {id}
  }

  /** A toggle keeps the map free of empty sets and leaves every other bottle's set as it was. */
  lemma ToggledShape(reacted: map<string, set<string>>, id: string, emoji: string, action: ClientAction, other: string)
    requires NoEmptySets(reacted)
    ensures NoEmptySets(Toggled(reacted, id, emoji, action))
    ensures other != id ==> Mine(Toggled(reacted, id, emoji, action), other) == Mine(reacted, other)
    ensures other != id ==> (other in Toggled(reacted, id, emoji, action) <==> other in reacted)
  {
  }

  /**
   * The chosen action flips the emoji's membership in the bottle's set and
   * leaves the other emoji in it alone.
   */
  lemma ToggleFlips(reacted: map<string, set<string>>, id: string, emoji: string, e: string)
    ensures var after := Mine(Toggled(reacted, id, emoji, ChooseAction(reacted, id, emoji)), id);
      && (emoji in after <==> emoji !in Mine(reacted, id))
      && (e != emoji ==> (e in after <==> e in Mine(reacted, id)))
  {
  }

  /** Reacting twice with the same emoji restores the map. */
  lemma ToggleTwiceRestores(reacted: map<string, set<string>>, id: string, emoji: string)
    requires NoEmptySets(reacted)
    ensures var once := Toggled(reacted, id, emoji, ChooseAction(reacted, id, emoji));
      Toggled(once, id, emoji, ChooseAction(once, id, emoji)) == reacted
  {
    var once := Toggled(reacted, id, emoji, ChooseAction(reacted, id, emoji));
    var twice := Toggled(once, id, emoji, ChooseAction(once, id, emoji));
    assert Mine(twice, id) == Mine(reacted, id);
    assert forall k :: k in twice <==> k in reacted;
  }

  /**
   * `prev.map(...)` over the received bottles: the same bottles in the same
   * order, the matching ones with the reactions the worker stored.
   */
  function WithReactions(bottles: seq<PublicBottle>, id: string, reactions: StoredReactions): (r: seq<PublicBottle>)
    ensures |r| == |bottles|
    ensures forall i :: 0 <= i < |r| && bottles[i].id != id ==> r[i] == bottles[i]
    ensures forall i :: 0 <= i < |r| && bottles[i].id == id ==> r[i] == bottles[i].(reactions := reactions)
  {
    seq(|bottles|, i requires 0 <= i < |bottles| =>
      if bottles[i].id == id then bottles[i].(reactions := reactions) else bottles[i])
  }

  /**
   * The state a throw leaves once the worker answered: a received bottle is
   * shown only when some arrived, the message is cleared only on success,
   * and the page is no longer loading nor animating the throw.
   */
  function Settled(s: PageState, response: Fetched<seq<PublicBottle>>): (t: PageState)
    ensures !t.loading && !t.showThrowAnimation
    ensures t.error == (if response.IsOk() then s.error else ThrowError(response))
    ensures t.message == (if response.IsOk() then "" else s.message)
    ensures t.showReceivedBottle <==> (response.IsOk() && response.reply.body != []) || s.showReceivedBottle
    ensures t.receivedBottles == (if response.IsOk() && response.reply.body != [] then response.reply.body else s.receivedBottles)
    ensures t.(message := s.message, receivedBottles := s.receivedBottles, showReceivedBottle := s.showReceivedBottle,
               loading := s.loading, error := s.error, showThrowAnimation := s.showThrowAnimation,
               showReceiveAnimation := s.showReceiveAnimation) == s
  {
    match response
    case Answered(Ok(received)) =>
      if received != [] then
        s.(message := "", receivedBottles := received, showReceiveAnimation := true, showThrowAnimation := false,
           showReceivedBottle := true, loading := false)
      else s.(message := "", showThrowAnimation := false, loading := false)
    case _ => s.(error := ThrowError(response), showThrowAnimation := false, loading := false)
  }

  /** `Settled`, case by case. */
  lemma SettledByCase(s: PageState, response: Fetched<seq<PublicBottle>>)
    ensures response.IsOk() && response.reply.body != [] ==>
      (Settled(s, response) == s.(message := "", receivedBottles := response.reply.body, showReceiveAnimation := true,
         showThrowAnimation := false, showReceivedBottle := true, loading := false))
    ensures response.IsOk() && response.reply.body == [] ==>
      (Settled(s, response) == s.(message := "", showThrowAnimation := false, loading := false))
    ensures !response.IsOk() ==>
      (Settled(s, response) == s.(error := ThrowError(response), showThrowAnimation := false, loading := false))
  {
  }

  /**
   * The whole throw: the reactions and reports of the previous throw are
   * forgotten, the error cleared, and the worker's reply settled.
   */
  function Thrown(s: PageState, response: Fetched<seq<PublicBottle>>): (t: PageState)
    ensures t.reactedBottles == map[] && t.reportedBottles == {}
    ensures !t.loading && !t.showThrowAnimation
    ensures t.error == ThrowError(response)
    ensures t.showReceivedBottle <==> t.showReceiveAnimation
    ensures t.showReceivedBottle <==> response.IsOk() && response.reply.body != []
    ensures t.nickname == s.nickname && t.country == s.country
  {
    Settled(s.(showReceivedBottle := false, loading := true, error := None, showThrowAnimation := true,
               showReceiveAnimation := false, reactedBottles := map[], reportedBottles := {}), response)
  }

  // ---------------------------------------------------------------------------
  // The page

  /** The page's state, field by field. */
  datatype PageState = PageState(
    message: string,
    nickname: string,
    country: string,
    receivedBottles: seq<PublicBottle>,
    showReceivedBottle: bool,
    loading: bool,
    error: Option<string>,
    showThrowAnimation: bool,
    showReceiveAnimation: bool,
    reactedBottles: map<string, set<string>>,
    reportedBottles: set<string>,
    showFalsePositiveDialog: bool,
    submittingFalsePositive: bool)

  class Page {
    var message: string
    var nickname: string
    var country: string
    var receivedBottles: seq<PublicBottle>
    var showReceivedBottle: bool
    var loading: bool
    var error: Option<string>
    var showThrowAnimation: bool
    var showReceiveAnimation: bool
    var reactedBottles: map<string, set<string>>
    var reportedBottles: set<string>
    var showFalsePositiveDialog: bool
    var submittingFalsePositive: bool

    function State(): PageState
      reads this
    {
      PageState(message, nickname, country, receivedBottles, showReceivedBottle, loading, error,
        showThrowAnimation, showReceiveAnimation, reactedBottles, reportedBottles,
        showFalsePositiveDialog, submittingFalsePositive)
    }

    predicate Valid()
      reads this
    {
      NoEmptySets(reactedBottles)
    }

    constructor()
      ensures State() == PageState("", "", "", [], false, false, None, false, false, map[], {}, false, false)
      ensures Valid()
    {
      message, nickname, country := "", "", "";
      receivedBottles := [];
      showReceivedBottle, loading, error := false, false, None;
      showThrowAnimation, showReceiveAnimation := false, false;
      reactedBottles, reportedBottles := map[], {};
      showFalsePositiveDialog, submittingFalsePositive := false, false;
    }

    /**
     * `throwBottle`, run to completion with the worker's reply: no request
     * unless the message can be sent; otherwise the per-throw reactions and
     * reports are forgotten, and the page ends out of its loading state
     * either showing the bottles received, with the form cleared, or the
     * error, with the message kept for another try.
     */
    method ThrowBottle(response: Fetched<seq<PublicBottle>>) returns (request: Option<MessageBody>)
      requires Valid()
      modifies this
      ensures Valid()
      ensures request.None? <==> !CanSubmit(old(message))
      ensures request.None? ==> State() == old(State())
      ensures request.Some? ==> request.value == MessageRequest(old(message), old(nickname), old(country))
      ensures request.Some? ==> State() == Thrown(old(State()), response)
    {
      if Trim(message) == "" || !CanSubmit(message) {
        return None;
      }
      request := Some(MessageRequest(message, nickname, country));
      BeginThrow();
      SettleThrow(response);
    }

    /** Lines 110-123: the error is cleared, the page starts loading, and the throw animation starts. */
    method BeginThrow()
      modifies this
      ensures State() == old(State()).(
        showReceivedBottle := false,
        loading := true,
        error := None,
        showThrowAnimation := true,
        showReceiveAnimation := false,
        reactedBottles := map[],
        reportedBottles := {})
    {
      error := None;
      loading := true;
      reactedBottles := map[];
      reportedBottles := {};
      if showReceivedBottle {
        showReceivedBottle := false;
      }
      showThrowAnimation := true;
      showReceiveAnimation := false;
    }

    /** Lines 135-174: the page takes in the worker's reply and stops loading. */
    method SettleThrow(response: Fetched<seq<PublicBottle>>)
      modifies this
      ensures State() == Settled(old(State()), response)
    {
      SettledByCase(State(), response);
      match response {
        case Answered(Ok(received)) =>
          message := "";
          if |received| > 0 {
            receivedBottles := received;
            showReceiveAnimation := true;
            showThrowAnimation := false;
            showReceivedBottle := true;
          } else {
            showThrowAnimation := false;
          }
        case Answered(Refused(err)) =>
          var text := err.Text();
          error := Some(if text != "" then text else SomethingWentWrong);
          showThrowAnimation := false;
          loading := false;
        case _ =>
          error := Some(ConnectionFailed);
          showThrowAnimation := false;
      }
      loading := false;
    }

    /** `reportBottle`: the bottle counts as reported once the worker accepted the report, and only then. */
    method ReportBottle(id: string, response: Fetched<int>)
      modifies this
      ensures State() == old(State()).(
        reportedBottles := if response.IsOk() then old(reportedBottles) + {id} else old(reportedBottles))
    {
      if response.IsOk() {
        reportedBottles := reportedBottles + {id};
      }
    }

    /**
     * `reactToBottle`: the request carries the action `ChooseAction` picks;
     * once the worker accepted it the emoji is toggled in the bottle's set,
     * and the bottle takes the reactions the worker stored.
     */
    method ReactToBottle(id: string, emoji: string, response: Fetched<ReactReply>) returns (request: ReactBody)
      requires Valid()
      modifies this
      ensures Valid()
      ensures request == ReactBody(Str(emoji), Str(ActionName(ChooseAction(old(reactedBottles), id, emoji))))
      ensures !response.IsOk() ==> State() == old(State())
      ensures response.IsOk() ==> State() == old(State()).(
        reactedBottles := Toggled(old(reactedBottles), id, emoji, ChooseAction(old(reactedBottles), id, emoji)),
        receivedBottles := WithReactions(old(receivedBottles), id, Counts(response.reply.body.reactions)))
    {
      var userEmojis := if id in reactedBottles then reactedBottles[id] else {};
      var action := if emoji in userEmojis then RemoveEmoji else AddEmoji;
      request := ReactBody(Str(emoji), Str(ActionName(action)));
      if response.IsOk() {
        var newMap := reactedBottles;
        var newUserEmojis := if id in newMap then newMap[id] else {};
        if action == AddEmoji {
          newUserEmojis := newUserEmojis + {emoji};
        } else {
          newUserEmojis := newUserEmojis - {emoji};
        }
        if |newUserEmojis| > 0 {
          newMap := newMap[id := newUserEmojis];
        } else {
          newMap := newMap - {id};
        }
        ToggledShape(reactedBottles, id, emoji, action, id);
        reactedBottles := newMap;
        receivedBottles := WithReactions(receivedBottles, id, Counts(response.reply.body.reactions));
      }
    }

    /**
     * `submitFalsePositiveReport`: sends the form as a throw would, and on
     * acceptance closes the dialog and clears the error.
     */
    method SubmitFalsePositive(response: Fetched<Ack>) returns (request: MessageBody)
      modifies this
      ensures request == MessageRequest(old(message), old(nickname), old(country))
      ensures State() == old(State()).(
        showFalsePositiveDialog := if response.IsOk() then false else old(showFalsePositiveDialog),
        error := if response.IsOk() then None else old(error),
        submittingFalsePositive := false)
    {
      submittingFalsePositive := true;
      request := MessageRequest(message, nickname, country);
      if response.IsOk() {
        showFalsePositiveDialog := false;
        error := None;
      }
      submittingFalsePositive := false;
    }
  }
}
