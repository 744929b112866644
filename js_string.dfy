/**
 * The JavaScript string operations the service relies on, over `string`
 * (a sequence of Unicode scalar values): `trim`, `.length` counted in
 * UTF-16 code units, `slice(0, n)`, `includes`, and ASCII case folding.
 */
module JsString {

  /** The WhiteSpace and LineTerminator code points of ECMAScript: what `trim` strips. */
  predicate IsWhiteSpace(c: char) {
    || c == '\t' || c == '\U{000B}' || c == '\U{000C}' || c == ' ' || c == '\U{00A0}' || c == '\U{FEFF}'
    || c == '\U{1680}' || ('\U{2000}' <= c <= '\U{200A}') || c == '\U{202F}' || c == '\U{205F}' || c == '\U{3000}'
    || c == '\n' || c == '\r' || c == '\U{2028}' || c == '\U{2029}'
  }

  /** `s.trimStart()`: the suffix left after dropping leading white space. */
  function TrimStart(s: string): (r: string)
    ensures |r| <= |s|
    ensures r == [] || !IsWhiteSpace(r[0])
    ensures forall i :: 0 <= i < |s| - |r| ==> IsWhiteSpace(s[i])
  {
    if s != [] && IsWhiteSpace(s[0]) then TrimStart(s[1..]) else s
  }

  /** What `trimStart` keeps is a suffix of its input. */
  lemma {:induction false} TrimStartSuffix(s: string)
    ensures TrimStart(s) == s[|s| - |TrimStart(s)|..]
  {
    if s != [] && IsWhiteSpace(s[0]) {
      TrimStartSuffix(s[1..]);
      assert s[1..][|s[1..]| - |TrimStart(s[1..])|..] == s[|s| - |TrimStart(s)|..];
    }
  }

  /** `s.trimEnd()`: the prefix left after dropping trailing white space. */
  function TrimEnd(s: string): (r: string)
    ensures |r| <= |s| && r == s[..|r|]
    ensures r == [] || !IsWhiteSpace(r[|r| - 1])
    ensures forall i :: |r| <= i < |s| ==> IsWhiteSpace(s[i])
  {
    if s != [] && IsWhiteSpace(s[|s| - 1]) then TrimEnd(s[..|s| - 1]) else s
  }

  /** `s.trim()` */
  function Trim(s: string): (r: string)
  {
    TrimEnd(TrimStart(s))
  }

  /** All characters of `s` are white space. */
  predicate IsBlank(s: string) {
    forall i :: 0 <= i < |s| ==> IsWhiteSpace(s[i])
  }

  /** `s` neither starts nor ends with white space. */
  predicate IsTrimmed(s: string) {
    s == [] || (!IsWhiteSpace(s[0]) && !IsWhiteSpace(s[|s| - 1]))
  }

  /**
   * Reference definition of trimming: `s` splits into a blank head, the
   * result and a blank tail, and the result has no white space at either end.
   */
  lemma {:induction false} TrimSplits(s: string)
    ensures var r := Trim(s);
      exists i :: 0 <= i <= |s| - |r| && s[i..i + |r|] == r && IsBlank(s[..i]) && IsBlank(s[i + |r|..])
    ensures IsTrimmed(Trim(s))
  {
    var t := TrimStart(s);
    var r := TrimEnd(t);
    var i := |s| - |t|;
    TrimStartSuffix(s);
    assert s[i..i + |r|] == r;
    assert IsBlank(s[..i]);
    assert IsBlank(s[i + |r|..]) by {
      forall k | i + |r| <= k < |s| ensures IsWhiteSpace(s[k]) {
        assert s[k] == t[k - i];
      }
    }
    if r != [] {
      assert r[0] == t[0];
    }
  }

  /** The result of `trim` is empty exactly when the input is blank. */
  lemma TrimEmptyIffBlank(s: string)
    ensures Trim(s) == [] <==> IsBlank(s)
  {
    var t := TrimStart(s);
    TrimStartSuffix(s);
    if !IsBlank(s) {
      var k :| 0 <= k < |s| && !IsWhiteSpace(s[k]);
      assert t != [];
      assert !IsWhiteSpace(t[0]);
    }
  }

  /** Trimming an already trimmed string changes nothing. */
  lemma TrimOfTrimmed(s: string)
    requires IsTrimmed(s)
    ensures Trim(s) == s
  {
  }

  /** `trim` is idempotent. */
  lemma TrimIdempotent(s: string)
    ensures Trim(Trim(s)) == Trim(s)
  {
    TrimSplits(s);
    TrimOfTrimmed(Trim(s));
  }

  /** `w` is `s` with nothing but white space removed from its two ends. */
  ghost predicate BlankAround(s: string, w: string) {
    exists i :: 0 <= i <= |s| - |w| && s[i..i + |w|] == w && IsBlank(s[..i]) && IsBlank(s[i + |w|..])
  }

  /** `trim` removes only white space, and what it keeps starts and ends with none. */
  lemma TrimIsBlankAround(s: string)
    ensures BlankAround(s, Trim(s)) && IsTrimmed(Trim(s))
  {
    TrimSplits(s);
  }

  /** Trimming removes exactly a blank head and a blank tail around a trimmed middle. */
  lemma {:induction false} TrimOfPadded(s: string, i: nat, j: nat)
    requires i <= j <= |s| && IsTrimmed(s[i..j]) && s[i..j] != [] && IsBlank(s[..i]) && IsBlank(s[j..])
    ensures Trim(s) == s[i..j]
  {
    assert !IsWhiteSpace(s[i]) by { assert s[i..j][0] == s[i]; }
    assert !IsWhiteSpace(s[j - 1]) by { assert s[i..j][j - i - 1] == s[j - 1]; }
    TrimStartOfPadded(s, i);
    assert TrimStart(s) == s[i..];
    TrimEndOfPadded(s[i..], j - i);
    assert s[i..][..j - i] == s[i..j];
  }

  lemma {:induction false} TrimStartOfPadded(s: string, i: nat)
    requires i < |s| && !IsWhiteSpace(s[i]) && IsBlank(s[..i])
    ensures TrimStart(s) == s[i..]
    decreases i
  {
    if i > 0 {
      assert s[..i][0] == s[0];
      assert s[1..][..i - 1] == s[1..i];
      assert forall k :: 0 <= k < i - 1 ==> s[1..i][k] == s[..i][k + 1];
      TrimStartOfPadded(s[1..], i - 1);
      assert s[1..][i - 1..] == s[i..];
    }
  }

  lemma {:induction false} TrimEndOfPadded(s: string, j: nat)
    requires 0 < j <= |s| && !IsWhiteSpace(s[j - 1]) && IsBlank(s[j..])
    ensures TrimEnd(s) == s[..j]
    decreases |s| - j
  {
    if j < |s| {
      assert s[j..][|s| - 1 - j] == s[|s| - 1];
      var t := s[..|s| - 1];
      assert t[j..] == s[j..|s| - 1];
      assert forall k :: 0 <= k < |t| - j ==> t[j..][k] == s[j..][k];
      TrimEndOfPadded(t, j);
      assert t[..j] == s[..j];
    }
  }

  /** Number of UTF-16 code units JavaScript uses for one code point. */
  function CodeUnits(c: char): nat {
    if c as int < 0x1_0000 then 1 else 2
  }

  /** `s.length` in JavaScript: UTF-16 code units, one or two per code point. */
  function JsLength(s: string): (n: nat)
    ensures |s| <= n <= 2 * |s|
  {
    if s == [] then 0 else CodeUnits(s[0]) + JsLength(s[1..])
  }

  lemma {:induction false} JsLengthAppend(a: string, b: string)
    ensures JsLength(a + b) == JsLength(a) + JsLength(b)
  {
    if a != [] {
      assert (a + b)[0] == a[0];
      assert (a + b)[1..] == a[1..] + b;
      JsLengthAppend(a[1..], b);
    } else {
      assert a + b == b;
    }
  }

  /** A piece cut out of `s` is never longer than `s`. */
  lemma JsLengthSlice(s: string, i: nat, j: nat)
    requires i <= j <= |s|
    ensures JsLength(s[i..j]) <= JsLength(s)
  {
    var head, piece, tail := s[..j], s[i..j], s[j..];
    assert s == head + tail;
    assert head == s[..i] + piece;
    JsLengthAppend(head, tail);
    JsLengthAppend(s[..i], piece);
  }

  /** Trimming never makes a string longer. */
  lemma JsLengthTrim(s: string)
    ensures JsLength(Trim(s)) <= JsLength(s)
  {
    var t := TrimStart(s);
    TrimStartSuffix(s);
    assert t == s[|s| - |t|..|s|];
    JsLengthSlice(s, |s| - |t|, |s|);
    assert TrimEnd(t) == t[0..|TrimEnd(t)|];
    JsLengthSlice(t, 0, |TrimEnd(t)|);
  }

  /**
   * `s.slice(0, n)`: the longest prefix of `s` that fits in `n` UTF-16 code
   * units (a surrogate pair the cut would split is dropped whole).
   */
  function SliceTo(s: string, n: nat): (r: string)
    ensures r <= s
    ensures JsLength(r) <= n
    ensures JsLength(s) <= n ==> r == s
    ensures |r| < |s| ==> JsLength(r) + CodeUnits(s[|r|]) > n
  {
    if s == [] || CodeUnits(s[0]) > n then []
    else
      var r := [s[0]] + SliceTo(s[1..], n - CodeUnits(s[0]));
      assert r[1..] == SliceTo(s[1..], n - CodeUnits(s[0]));
      r
  }

  /** `w` occurs in `s` at index `i`. */
  predicate Occurs(s: string, w: string, i: int) {
    0 <= i && i + |w| <= |s| && s[i..i + |w|] == w
  }

  /** `w` occurs somewhere in `s`. */
  ghost predicate Contains(s: string, w: string) {
    exists i :: Occurs(s, w, i)
  }

  /** `s.indexOf(w, from)`: the first index at or after `from` where `w` occurs, or -1. */
  function IndexOf(s: string, w: string, from: nat): (r: int)
    ensures r == -1 || (from <= r && Occurs(s, w, r))
    ensures forall j :: from <= j && (r == -1 || j < r) ==> !Occurs(s, w, j)
    decreases |s| + 1 - from
  {
    if from + |w| > |s| then -1
    else if s[from..from + |w|] == w then from
    else IndexOf(s, w, from + 1)
  }

  /** `s.includes(w)` */
  predicate Includes(s: string, w: string)
    ensures Includes(s, w) <==> Contains(s, w)
  {
    IndexOf(s, w, 0) >= 0
  }

  /** A string that lacks one of the characters of `w` cannot contain `w`. */
  lemma MissingCharNotContained(s: string, w: string, k: nat)
    requires k < |w| && w[k] !in s
    ensures !Includes(s, w)
  {
    forall i ensures !Occurs(s, w, i) {
      if 0 <= i && i + |w| <= |s| {
        assert s[i..i + |w|][k] == s[i + k];
        assert s[i + k] in s;
      }
    }
  }

  /** A string in which two adjacent characters of `w` are never adjacent cannot contain `w`. */
  lemma MissingPairNotContained(s: string, w: string, k: nat)
    requires k + 1 < |w|
    requires forall i :: 0 <= i < |s| - 1 ==> !(s[i] == w[k] && s[i + 1] == w[k + 1])
    ensures !Includes(s, w)
  {
    forall i ensures !Occurs(s, w, i) {
      if 0 <= i && i + |w| <= |s| {
        assert s[i..i + |w|][k] == s[i + k] && s[i..i + |w|][k + 1] == s[i + k + 1];
      }
    }
  }

  /** A string that occurs in a piece of `s` occurs in `s`. */
  lemma ContainsInSlice(s: string, lo: nat, hi: nat, w: string)
    requires lo <= hi <= |s|
    requires Contains(s[lo..hi], w)
    ensures Contains(s, w)
  {
    var i :| Occurs(s[lo..hi], w, i);
    var j := lo + i;
    forall k | 0 <= k < |w| ensures s[j..j + |w|][k] == w[k] {
      assert s[lo..hi][i..i + |w|][k] == w[k];
    }
    assert s[j..j + |w|] == w;
    assert Occurs(s, w, j);
  }

  /** An occurrence in a piece of `s` is an occurrence in `s`, shifted by where the piece starts. */
  lemma OccursInSlice(s: string, lo: nat, hi: nat, w: string, j: int)
    requires lo <= hi <= |s|
    ensures Occurs(s[lo..hi], w, j) ==> Occurs(s, w, lo + j)
  {
    if Occurs(s[lo..hi], w, j) {
      forall k | 0 <= k < |w| ensures s[lo + j..lo + j + |w|][k] == w[k] {
        assert s[lo..hi][j..j + |w|][k] == w[k];
      }
      assert s[lo + j..lo + j + |w|] == w;
    }
  }

  /** The lower-case form of an ASCII upper-case letter; every other character is unchanged. */
  function AsciiLower(c: char): char {
    if 'A' <= c <= 'Z' then (c as int + 32) as char else c
  }

  /** `s` with every ASCII letter in lower case. */
  function LowerAscii(s: string): (r: string)
    ensures |r| == |s|
    ensures forall i :: 0 <= i < |s| ==> r[i] == AsciiLower(s[i])
  {
    seq(|s|, i requires 0 <= i < |s| => AsciiLower(s[i]))
  }

  /** The folded `s` holds the lower-case letter `c` only where `s` holds it in either case. */
  lemma FoldedOnlyAt(s: string, c: char, at: set<int>)
    requires 'a' <= c <= 'z'
    requires forall j :: 0 <= j < |s| && (s[j] == c || s[j] == (c as int - 32) as char) ==> j in at
    ensures forall j :: 0 <= j < |s| && LowerAscii(s)[j] == c ==> j in at
  {
  }

  /** A string that holds a lower-case letter of `w` in neither case does not contain `w` once folded. */
  lemma FoldedAbsent(s: string, w: string, k: nat)
    requires k < |w| && 'a' <= w[k] <= 'z'
    requires forall j :: 0 <= j < |s| ==> s[j] != w[k] && s[j] != (w[k] as int - 32) as char
    ensures !Includes(LowerAscii(s), w)
  {
    assert w[k] !in LowerAscii(s);
    MissingCharNotContained(LowerAscii(s), w, k);
  }

  /** Folding a folded string changes nothing. */
  lemma LowerAsciiIdempotent(s: string)
    ensures LowerAscii(LowerAscii(s)) == LowerAscii(s)
  {
    forall i | 0 <= i < |s| ensures LowerAscii(LowerAscii(s))[i] == LowerAscii(s)[i] {
      assert AsciiLower(AsciiLower(s[i])) == AsciiLower(s[i]);
    }
  }

  /** A word character of regular expressions without the `u` flag: `[A-Za-z0-9_]`. */
  predicate IsWordChar(c: char) {
    ('a' <= c <= 'z') || ('A' <= c <= 'Z') || ('0' <= c <= '9') || c == '_'
  }
}
