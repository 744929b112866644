/**
 * The link heuristic `containsURL` of the worker (worker/index.ts): three
 * case-insensitive regular expressions, tried in turn, any of which may
 * match anywhere in the text.
 */
module LinkDetector {
  import opened JsString

  /** The alternatives of the top-level-domain pattern, in the order the expression lists them. */
  const Tlds: seq<string> := [
    "com", "org", "net", "edu", "gov", "io", "co", "app", "dev", "xyz", "info", "biz", "me", "ai",
    "tech", "online", "site", "store", "shop", "blog", "tv", "cc", "link", "click", "ly", "gl",
    "bit", "tinyurl"]

  /** `/https?:\/\//i`, `/www\./i` and `/\.(com|org|...)\b/i` */
  datatype Pattern = Scheme | Www | TldSuffix

  const UrlPatterns: seq<Pattern> := [Scheme, Www, TldSuffix]

  // With the `i` flag and without `u`, an ASCII letter of a pattern matches exactly the
  // two ASCII cases of that letter, and `\b` uses the ASCII word characters. So each
  // pattern is matched, case-sensitively, against the ASCII-folded text `u`.

  /** `\b` at position `p` of `u`: a word character on exactly one side. */
  predicate WordBoundary(u: string, p: nat)
    requires p <= |u|
  {
    (p > 0 && IsWordChar(u[p - 1])) != (p < |u| && IsWordChar(u[p]))
  }

  /** `(alts[0]|alts[1]|...)\b` matches at `j`: the alternatives are tried in order. */
  predicate AlternativeAt(u: string, j: nat, alts: seq<string>)
    decreases |alts|
  {
    alts != [] &&
    ((Occurs(u, alts[0], j) && WordBoundary(u, j + |alts[0]|)) || AlternativeAt(u, j, alts[1..]))
  }

  /** Pattern `p` matches `u` starting at index `i`. */
  predicate MatchesAt(p: Pattern, u: string, i: nat) {
    match p
    // `s?` first tries to take the `s`, then backtracks without it
    case Scheme => Occurs(u, "http", i) && (Occurs(u, "s://", i + 4) || Occurs(u, "://", i + 4))
    case Www => Occurs(u, "www.", i)
    case TldSuffix => SuffixAt(u, i, Tlds)
  }

  /** `\.(alts[0]|alts[1]|...)\b` matches at `i`. */
  predicate SuffixAt(u: string, i: nat, alts: seq<string>) {
    Occurs(u, ".", i) && AlternativeAt(u, i + 1, alts)
  }

  /** `p.test(u)`: a match is tried at every start index from `from` on. */
  predicate SearchFrom(p: Pattern, u: string, from: nat)
    decreases |u| + 1 - from
  {
    from <= |u| && (MatchesAt(p, u, from) || SearchFrom(p, u, from + 1))
  }

  /** `patterns.some(pattern => pattern.test(u))` */
  predicate AnyPatternMatches(patterns: seq<Pattern>, u: string) {
    patterns != [] && (SearchFrom(patterns[0], u, 0) || AnyPatternMatches(patterns[1..], u))
  }

  /** `containsURL(text)` */
  predicate ContainsUrl(text: string) {
    AnyPatternMatches(UrlPatterns, LowerAscii(text))
  }

  // ---------------------------------------------------------------------------
  // A reference description of what the heuristic rejects, and its proof.

  /** `.tld` occurs at `i` and is followed by the end of the text or a non-word character. */
  predicate TldFollowed(u: string, i: int, tld: string) {
    Occurs(u, "." + tld, i) && (i + 1 + |tld| == |u| || !IsWordChar(u[i + 1 + |tld|]))
  }

  /** What the heuristic is meant to catch, stated without regular expressions. */
  ghost predicate LooksLikeLink(u: string) {
    || Contains(u, "http://") || Contains(u, "https://") || Contains(u, "www.")
    || exists k, i :: 0 <= k < |Tlds| && TldFollowed(u, i, Tlds[k])
  }

  lemma OccursConcat(u: string, a: string, b: string, i: nat)
    ensures Occurs(u, a + b, i) <==> Occurs(u, a, i) && Occurs(u, b, i + |a|)
  {
    if i + |a| + |b| <= |u| {
      assert u[i..i + |a| + |b|] == u[i..i + |a|] + u[i + |a|..i + |a| + |b|];
      if u[i..i + |a| + |b|] == a + b {
        assert u[i..i + |a|] == (a + b)[..|a|];
        assert u[i + |a|..i + |a| + |b|] == (a + b)[|a|..];
      }
    }
  }

  lemma {:induction false} SearchFromFinds(p: Pattern, u: string, from: nat)
    ensures SearchFrom(p, u, from) <==> exists i :: from <= i <= |u| && MatchesAt(p, u, i)
    decreases |u| + 1 - from
  {
    if from <= |u| {
      SearchFromFinds(p, u, from + 1);
      if exists i :: from <= i <= |u| && MatchesAt(p, u, i) {
        var i :| from <= i <= |u| && MatchesAt(p, u, i);
        assert i == from || (from + 1 <= i <= |u| && MatchesAt(p, u, i));
      }
    }
  }

  /** Every alternative is non-empty and ends in a word character. */
  predicate EndInWordChars(alts: seq<string>) {
    forall k :: 0 <= k < |alts| ==> |alts[k]| > 0 && IsWordChar(alts[k][|alts[k]| - 1])
  }

  lemma TldsEndInWordChars()
    ensures EndInWordChars(Tlds)
  {
  }

  lemma {:induction false} AlternativeAtFinds(u: string, j: nat, alts: seq<string>)
    ensures AlternativeAt(u, j, alts) <==>
      exists k :: 0 <= k < |alts| && Occurs(u, alts[k], j) && WordBoundary(u, j + |alts[k]|)
    decreases |alts|
  {
    if alts != [] {
      AlternativeAtFinds(u, j, alts[1..]);
      if exists k :: 0 <= k < |alts| && Occurs(u, alts[k], j) && WordBoundary(u, j + |alts[k]|) {
        var k :| 0 <= k < |alts| && Occurs(u, alts[k], j) && WordBoundary(u, j + |alts[k]|);
        if k > 0 {
          assert alts[1..][k - 1] == alts[k];
        }
      }
    }
  }

  /** After a word character, `\b` means: end of text or a non-word character next. */
  lemma BoundaryAfterWord(u: string, j: nat, t: string)
    requires |t| > 0 && IsWordChar(t[|t| - 1]) && Occurs(u, t, j)
    ensures WordBoundary(u, j + |t|) <==> (j + |t| == |u| || !IsWordChar(u[j + |t|]))
  {
    assert u[j + |t| - 1] == u[j..j + |t|][|t| - 1];
  }

  lemma SuffixFollowedAt(u: string, i: nat, t: string)
    requires |t| > 0 && IsWordChar(t[|t| - 1])
    ensures (Occurs(u, ".", i) && Occurs(u, t, i + 1) && WordBoundary(u, i + 1 + |t|))
      <==> TldFollowed(u, i, t)
  {
    OccursConcat(u, ".", t, i);
    if Occurs(u, t, i + 1) {
      BoundaryAfterWord(u, i + 1, t);
    }
  }

  lemma SuffixAtGivesTld(u: string, i: nat, alts: seq<string>) returns (k: nat)
    requires EndInWordChars(alts) && SuffixAt(u, i, alts)
    ensures k < |alts| && TldFollowed(u, i, alts[k])
  {
    AlternativeAtFinds(u, i + 1, alts);
    k :| 0 <= k < |alts| && Occurs(u, alts[k], i + 1) && WordBoundary(u, i + 1 + |alts[k]|);
    SuffixFollowedAt(u, i, alts[k]);
  }

  lemma TldGivesSuffixAt(u: string, i: nat, alts: seq<string>, k: nat)
    requires EndInWordChars(alts) && k < |alts| && TldFollowed(u, i, alts[k])
    ensures SuffixAt(u, i, alts)
  {
    SuffixFollowedAt(u, i, alts[k]);
    AlternativeAtFinds(u, i + 1, alts);
  }

  lemma SuffixAtIff(u: string, i: nat, alts: seq<string>)
    requires EndInWordChars(alts)
    ensures SuffixAt(u, i, alts) <==> exists k :: 0 <= k < |alts| && TldFollowed(u, i, alts[k])
  {
    if SuffixAt(u, i, alts) {
      var k := SuffixAtGivesTld(u, i, alts);
    }
    if exists k :: 0 <= k < |alts| && TldFollowed(u, i, alts[k]) {
      var k :| 0 <= k < |alts| && TldFollowed(u, i, alts[k]);
      TldGivesSuffixAt(u, i, alts, k);
    }
  }

  lemma SchemeMatches(u: string, i: nat)
    ensures MatchesAt(Scheme, u, i) <==> Occurs(u, "http://", i) || Occurs(u, "https://", i)
  {
    assert "http://" == "http" + "://";
    assert "https://" == "http" + "s://";
    OccursConcat(u, "http", "://", i);
    OccursConcat(u, "http", "s://", i);
  }

  lemma SearchSchemeIff(u: string)
    ensures SearchFrom(Scheme, u, 0) <==> Contains(u, "http://") || Contains(u, "https://")
  {
    SearchFromFinds(Scheme, u, 0);
    if SearchFrom(Scheme, u, 0) {
      var i :| 0 <= i <= |u| && MatchesAt(Scheme, u, i);
      SchemeMatches(u, i);
    }
    if Contains(u, "http://") {
      var i :| Occurs(u, "http://", i);
      SchemeMatches(u, i);
    }
    if Contains(u, "https://") {
      var i :| Occurs(u, "https://", i);
      SchemeMatches(u, i);
    }
  }

  lemma SearchWwwIff(u: string)
    ensures SearchFrom(Www, u, 0) <==> Contains(u, "www.")
  {
    SearchFromFinds(Www, u, 0);
    if SearchFrom(Www, u, 0) {
      var i :| 0 <= i <= |u| && MatchesAt(Www, u, i);
      assert Occurs(u, "www.", i);
    }
    if Contains(u, "www.") {
      var i :| Occurs(u, "www.", i);
      assert MatchesAt(Www, u, i);
    }
  }

  lemma SearchTldIff(u: string)
    ensures SearchFrom(TldSuffix, u, 0) <==> exists k, i :: 0 <= k < |Tlds| && TldFollowed(u, i, Tlds[k])
  {
    SearchFromFinds(TldSuffix, u, 0);
    TldsEndInWordChars();
    if SearchFrom(TldSuffix, u, 0) {
      var i :| 0 <= i <= |u| && MatchesAt(TldSuffix, u, i);
      SuffixAtIff(u, i, Tlds);
    }
    if exists k, i :: 0 <= k < |Tlds| && TldFollowed(u, i, Tlds[k]) {
      var k, i :| 0 <= k < |Tlds| && TldFollowed(u, i, Tlds[k]);
      SuffixAtIff(u, i, Tlds);
      assert MatchesAt(TldSuffix, u, i);
    }
  }

  /**
   * `containsURL` holds exactly when the folded text contains `http://`,
   * `https://` or `www.`, or a `.` and a listed domain followed by the end of
   * the text or a character outside `[A-Za-z0-9_]`.
   */
  lemma ContainsUrlIff(text: string)
    ensures ContainsUrl(text) <==> LooksLikeLink(LowerAscii(text))
  {
    var u := LowerAscii(text);
    assert UrlPatterns[0] == Scheme && UrlPatterns[1..] == [Www, TldSuffix];
    assert [Www, TldSuffix][1..] == [TldSuffix] && [TldSuffix][1..] == [];
    assert AnyPatternMatches([TldSuffix], u) == SearchFrom(TldSuffix, u, 0);
    assert AnyPatternMatches([Www, TldSuffix], u) == (SearchFrom(Www, u, 0) || SearchFrom(TldSuffix, u, 0));
    assert ContainsUrl(text) == (SearchFrom(Scheme, u, 0) || SearchFrom(Www, u, 0) || SearchFrom(TldSuffix, u, 0));
    SearchSchemeIff(u);
    SearchWwwIff(u);
    SearchTldIff(u);
  }

  /** No `.` at `i`, so no domain suffix starts there. */
  lemma NoDotNoSuffix(u: string, i: int, tld: string)
    requires 0 <= i < |u| ==> u[i] != '.'
    ensures !TldFollowed(u, i, tld)
  {
    if 0 <= i && i + 1 + |tld| <= |u| {
      assert u[i..i + 1 + |tld|][0] != ("." + tld)[0];
    }
  }

  /** Text with neither a `.` nor a `/` is never taken for a link. */
  lemma NoDotNoSlashNoLink(text: string)
    requires '.' !in text && '/' !in text
    ensures !ContainsUrl(text)
  {
    var u := LowerAscii(text);
    forall i | 0 <= i < |u| ensures u[i] != '.' && u[i] != '/' {
      assert text[i] in text;
    }
    MissingCharNotContained(u, "http://", 5);
    MissingCharNotContained(u, "https://", 6);
    MissingCharNotContained(u, "www.", 3);
    forall k, i | 0 <= k < |Tlds| ensures !TldFollowed(u, i, Tlds[k]) {
      NoDotNoSuffix(u, i, Tlds[k]);
    }
    ContainsUrlIff(text);
  }

  /** A text that ends in `.` and a listed domain, in any letter case, is taken for a link. */
  lemma TrailingTldIsLink(text: string, k: nat)
    requires k < |Tlds|
    requires |text| > |Tlds[k]|
    requires LowerAscii(text[|text| - |Tlds[k]| - 1..]) == "." + Tlds[k]
    ensures ContainsUrl(text)
  {
    var u := LowerAscii(text);
    var i := |text| - |Tlds[k]| - 1;
    assert u[i..] == LowerAscii(text[i..]);
    assert u[i..i + 1 + |Tlds[k]|] == u[i..];
    assert TldFollowed(u, i, Tlds[k]);
    ContainsUrlIff(text);
  }
}
