/**
 * The card of one received bottle (src/components/bottle-card.tsx): the
 * sender line, the like button with its count, and the report button that
 * turns into a "Reported" label.
 */
module BottleCard {
  import opened Optional

  /** The received bottle as the card reads it. */
  datatype CardBottle = CardBottle(
    id: string,
    idAsc: int,
    message: string,
    nickname: Option<string>,
    country: Option<string>,
    likeCount: int,
    reportCount: int)

  /** A nullable text field is truthy: present and not empty. */
  predicate Present(field: Option<string>) {
    field.Some? && field.value != ""
  }

  const From: string := "from "
  const Stranger: string := "a stranger"
  const In: string := " in "

  /**
   * `formatSender`: "from" followed by the nickname, or "a stranger" when
   * there is none, followed by " in " and the country when there is one.
   */
  function FormatSender(b: CardBottle): (s: string)
    ensures |s| >= |From| && s[..|From|] == From
    ensures Present(b.nickname) ==> b.nickname.value <= s[|From|..]
    ensures !Present(b.nickname) ==> Stranger <= s[|From|..]
    ensures Present(b.country) ==> |s| >= |In + b.country.value| && s[|s| - |In + b.country.value|..] == In + b.country.value
    ensures Present(b.country) ==>
      |s| == |From| + |(if Present(b.nickname) then b.nickname.value else Stranger)| + |In + b.country.value|
    ensures !Present(b.country) ==> s == From + (if Present(b.nickname) then b.nickname.value else Stranger)
  {
    if Present(b.nickname) && Present(b.country) then From + b.nickname.value + In + b.country.value
    else if Present(b.nickname) then From + b.nickname.value
    else if Present(b.country) then From + Stranger + In + b.country.value
    else From + Stranger
  }

  /** An empty nickname or country reads as no nickname or country at all. */
  lemma EmptyFieldIsNull(b: CardBottle)
    ensures FormatSender(b.(nickname := Some(""))) == FormatSender(b.(nickname := None))
    ensures FormatSender(b.(country := Some(""))) == FormatSender(b.(country := None))
  {
  }

  /** The state of the card's two buttons. */
  datatype Controls = Controls(likeDisabled: bool, likeCountShown: bool, reportButton: bool)

  /**
   * The like button is disabled once the bottle is liked, its count shows
   * only when positive, and the report button shows until the bottle is
   * reported, after which the "Reported" label replaces it.
   */
  function ControlsFor(b: CardBottle, likedBottles: set<string>, reportedBottles: set<string>): (c: Controls)
    ensures c.likeDisabled <==> b.id in likedBottles
    ensures c.likeCountShown <==> b.likeCount > 0
    ensures c.reportButton <==> b.id !in reportedBottles
  {
    Controls(b.id in likedBottles, b.likeCount > 0, b.id !in reportedBottles)
  }

  /**
   * Liking one bottle disables its own like button and leaves every other
   * card as it was.
   */
  lemma LikeTouchesOneCard(b: CardBottle, liked: set<string>, reported: set<string>, id: string)
    ensures b.id == id ==> ControlsFor(b, liked + {id}, reported).likeDisabled
    ensures b.id != id ==> ControlsFor(b, liked + {id}, reported) == ControlsFor(b, liked, reported)
  {
  }

  /**
   * Reporting one bottle turns its own report button into the label and
   * leaves every other card as it was.
   */
  lemma ReportTouchesOneCard(b: CardBottle, liked: set<string>, reported: set<string>, id: string)
    ensures b.id == id ==> !ControlsFor(b, liked, reported + {id}).reportButton
    ensures b.id != id ==> ControlsFor(b, liked, reported + {id}) == ControlsFor(b, liked, reported)
  {
  }
}
