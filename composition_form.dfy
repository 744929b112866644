/**
 * The message composition form (src/components/message-composition-form.tsx):
 * the truncating inputs, the bottle-count hint, the character counter, the
 * throw button, and the lazily loaded list of regions.
 */
module CompositionForm {
  import opened Optional
  import opened JsString

  const MessageInputLimit: nat := 300
  const NicknameInputLimit: nat := 30
  const MinChars: nat := 15
  const CounterWarning: int := 30

  /** The textarea keeps the first 300 UTF-16 units of what is typed. */
  function MessageInput(typed: string): (m: string)
    ensures m <= typed && JsLength(m) <= MessageInputLimit
    ensures JsLength(typed) <= MessageInputLimit ==> m == typed
  {
    SliceTo(typed, MessageInputLimit)
  }

  /** The nickname input keeps the first 30 UTF-16 units of what is typed. */
  function NicknameInput(typed: string): (n: string)
    ensures n <= typed && JsLength(n) <= NicknameInputLimit
    ensures JsLength(typed) <= NicknameInputLimit ==> n == typed
  {
    SliceTo(typed, NicknameInputLimit)
  }

  /** Truncating an input that was already truncated changes nothing. */
  lemma InputsSettle(typed: string)
    ensures MessageInput(MessageInput(typed)) == MessageInput(typed)
    ensures NicknameInput(NicknameInput(typed)) == NicknameInput(typed)
  {
  }

  // ---------------------------------------------------------------------------
  // The hint under the message

  /** A label under the textarea: the minimum length, or the number of bottles a throw brings back. */
  datatype Hint = MinCharsHint | BottlesHint(count: nat)

  /**
   * The labels rendered for a message, in the order the four conditional
   * spans of lines 101-106 appear, each testing the trimmed length.
   */
  function Hints(message: string): seq<Hint> {
    var t := JsLength(Trim(message));
    (if t < MinChars && t > 0 then [MinCharsHint] else [])
    + (if t >= 151 then [BottlesHint(3)] else [])
    + (if t >= 61 && t < 151 then [BottlesHint(2)] else [])
    + (if t >= MinChars && t < 61 then [BottlesHint(1)] else [])
  }

  /**
   * No label for a blank message, and exactly one otherwise: the minimum
   * below 15 units, then one, two or three bottles in the bands 15-60,
   * 61-150 and from 151 on.
   */
  lemma ExactlyOneHint(message: string)
    ensures var t := JsLength(Trim(message));
      && (t == 0 <==> Hints(message) == [])
      && (t > 0 ==> |Hints(message)| == 1)
      && (0 < t < 15 <==> Hints(message) == [MinCharsHint])
      && (15 <= t < 61 <==> Hints(message) == [BottlesHint(1)])
      && (61 <= t < 151 <==> Hints(message) == [BottlesHint(2)])
      && (151 <= t <==> Hints(message) == [BottlesHint(3)])
  {
    var t := JsLength(Trim(message));
    if t == 0 {
      assert Hints(message) == [];
    } else if t < 15 {
      assert Hints(message) == [MinCharsHint];
    } else if t < 61 {
      assert Hints(message) == [BottlesHint(1)];
    } else if t < 151 {
      assert Hints(message) == [BottlesHint(2)];
    } else {
      assert Hints(message) == [BottlesHint(3)];
    }
  }

  // ---------------------------------------------------------------------------
  // The counter and the throw button

  /** `300 - message.length`, in UTF-16 units of the untrimmed message. */
  function CharsRemaining(message: string): int {
    MessageInputLimit - JsLength(message)
  }

  /** The counter is drawn in red when fewer than 30 units remain. */
  predicate CounterIsRed(message: string) {
    CharsRemaining(message) < CounterWarning
  }

  /**
   * For anything the textarea holds, the remaining count stays between 0 and
   * 300, and the counter turns red exactly past 270 units.
   */
  lemma CounterOfInput(typed: string)
    ensures var m := MessageInput(typed);
      && 0 <= CharsRemaining(m) <= MessageInputLimit
      && (CounterIsRed(m) <==> JsLength(m) > 270)
  {
  }

  /** The throw button is disabled while a throw is in flight or the message cannot be sent. */
  predicate ThrowDisabled(loading: bool, canSubmit: bool) {
    loading || !canSubmit
  }

  // ---------------------------------------------------------------------------
  // The regions list

  datatype CountryOption = CountryOption(code: string, name: string)

  /**
   * The module-level `countriesDataPromise`: `None` until the first load,
   * then the outcome the dynamic import settles to, a list or a rejection
   * (`None`), kept for every later load. `imports` counts the dynamic imports
   * started.
   */
  class CountriesCache {
    var promise: Option<Option<seq<CountryOption>>>
    var imports: nat

    /** One import exactly when a promise is cached. */
    ghost predicate Valid()
      reads this
    {
      imports == (if promise.Some? then 1 else 0)
    }

    constructor()
      ensures promise.None? && imports == 0 && Valid()
    {
      promise := None;
      imports := 0;
    }

    /**
     * `loadCountriesData`: the first call starts the import, whose outcome is
     * `outcome`; every later call settles to the cached outcome without
     * importing again.
     */
    method Load(outcome: Option<seq<CountryOption>>) returns (settled: Option<seq<CountryOption>>)
      requires Valid()
      modifies this
      ensures Valid() && imports <= 1
      ensures old(promise).Some? ==> promise == old(promise) && imports == old(imports)
      ensures old(promise).None? ==> promise == Some(outcome) && imports == 1
      ensures promise.Some? && settled == promise.value
    {
      if promise.None? {
        promise := Some(outcome);
        imports := imports + 1;
      }
      settled := promise.value;
    }
  }

  /** The form's `countriesData` and `isLoadingCountries` state. */
  class CountryPicker {
    var countriesData: Option<seq<CountryOption>>
    var isLoadingCountries: bool

    constructor()
      ensures countriesData.None? && !isLoadingCountries
    {
      countriesData := None;
      isLoadingCountries := false;
    }

    /**
     * `ensureCountriesLoaded`, run to completion: nothing happens when the
     * list is loaded or a load is under way; otherwise the list becomes what
     * the cached load settles to (none after a rejection, which stays cached),
     * and the loading flag is cleared again.
     */
    method EnsureCountriesLoaded(cache: CountriesCache, outcome: Option<seq<CountryOption>>)
      requires cache.Valid()
      modifies this, cache
      ensures cache.Valid()
      ensures old(countriesData).Some? || old(isLoadingCountries) ==> unchanged(this) && unchanged(cache)
      ensures old(countriesData).None? && !old(isLoadingCountries) ==>
        && cache.promise == (if old(cache.promise).Some? then old(cache.promise) else Some(outcome))
        && countriesData == cache.promise.value
        && !isLoadingCountries
    {
      if countriesData.Some? || isLoadingCountries {
        return;
      }
      isLoadingCountries := true;
      var settled := cache.Load(outcome);
      if settled.Some? {
        countriesData := settled;
      }
      isLoadingCountries := false;
    }
  }
}
