/**
 * The `bottles` and `false_positive_reports` tables (worker/db/schema.ts),
 * the public view of a bottle the throw endpoint returns, and the queries
 * the worker runs over the table.
 */
module Bottles {
  import opened Optional

  /**
   * The `emoji_reactions` column: JSON text, either parsed to an
   * emoji-to-count record or text `JSON.parse` rejects.
   */
  datatype StoredReactions = Counts(counts: map<string, int>) | Unparsable

  /** A row of `bottles`. */
  datatype Bottle = Bottle(
    id: string,
    idAsc: int,
    message: string,
    nickname: Option<string>,
    country: Option<string>,
    ip: Option<string>,
    status: string,
    reactions: StoredReactions,
    reportCount: int,
    createdAt: int)

  /** A row of `false_positive_reports`. */
  datatype FalsePositiveReport = FalsePositiveReport(
    id: string,
    message: string,
    nickname: Option<string>,
    country: Option<string>,
    ip: Option<string>,
    createdAt: int)

  /** A received bottle: the row without `ip`, `status` and `created_at`. */
  datatype PublicBottle = PublicBottle(
    id: string,
    idAsc: int,
    message: string,
    nickname: Option<string>,
    country: Option<string>,
    reactions: StoredReactions,
    reportCount: int)

  const Active: string := "active"

  /** A new row: the given columns, and the column defaults for the rest. */
  function NewBottle(id: string, idAsc: int, message: string, nickname: Option<string>,
                     country: Option<string>, ip: string, now: int): (b: Bottle)
    ensures b.status == Active && b.reactions == Counts(map[]) && b.reportCount == 0
  {
    Bottle(id, idAsc, message, nickname, country, Some(ip), Active, Counts(map[]), 0, now)
  }

  function Publish(b: Bottle): PublicBottle {
    PublicBottle(b.id, b.idAsc, b.message, b.nickname, b.country, b.reactions, b.reportCount)
  }

  /** `rows.map(...)` onto the public columns, in order. */
  function PublishAll(rows: seq<Bottle>): (r: seq<PublicBottle>)
    ensures |r| == |rows| && forall i :: 0 <= i < |rows| ==> r[i] == Publish(rows[i])
  {
    seq(|rows|, i requires 0 <= i < |rows| => Publish(rows[i]))
  }

  // ---------------------------------------------------------------------------
  // Queries

  /** The primary key: no two rows share an `id`. */
  predicate DistinctIds(rows: seq<Bottle>) {
    forall i, j :: 0 <= i < j < |rows| ==> rows[i].id != rows[j].id
  }

  /** No two rows share an `id_asc`. */
  predicate DistinctIdAsc(rows: seq<Bottle>) {
    forall i, j :: 0 <= i < j < |rows| ==> rows[i].idAsc != rows[j].idAsc
  }

  /** Rewriting one row's reactions keeps both keys distinct. */
  lemma RecountKeepsKeys(rows: seq<Bottle>, i: nat, r: StoredReactions)
    requires i < |rows| && DistinctIds(rows) && DistinctIdAsc(rows)
    ensures DistinctIds(rows[i := rows[i].(reactions := r)])
    ensures DistinctIdAsc(rows[i := rows[i].(reactions := r)])
  {
    var after := rows[i := rows[i].(reactions := r)];
    assert forall k :: 0 <= k < |rows| ==> after[k].id == rows[k].id && after[k].idAsc == rows[k].idAsc;
  }

  predicate HasId(rows: seq<Bottle>, id: string) {
    exists i :: 0 <= i < |rows| && rows[i].id == id
  }

  /** `WHERE id = ?`: the position of the first row with that id. */
  function Find(rows: seq<Bottle>, id: string): (r: Option<nat>)
    ensures r.Some? ==> r.value < |rows| && rows[r.value].id == id
    ensures r.None? <==> !HasId(rows, id)
  {
    if rows == [] then None
    else if rows[0].id == id then Some(0)
    else
      var r := Find(rows[1..], id);
      assert forall i :: 0 < i < |rows| ==> rows[i] == rows[1..][i - 1];
      if r.Some? then Some(r.value + 1) else None
  }

  /** `SELECT max(id_asc)`: `null` on an empty table. */
  function MaxIdAsc(rows: seq<Bottle>): (m: Option<int>)
    ensures m.None? <==> rows == []
    ensures m.Some? ==> (forall i :: 0 <= i < |rows| ==> rows[i].idAsc <= m.value)
    ensures m.Some? ==> exists i :: 0 <= i < |rows| && rows[i].idAsc == m.value
  {
    if rows == [] then None
    else
      var rest := MaxIdAsc(rows[1..]);
      assert forall i :: 0 < i < |rows| ==> rows[i] == rows[1..][i - 1];
      if rest.Some? && rest.value > rows[0].idAsc then
        var k :| 0 <= k < |rows[1..]| && rows[1..][k].idAsc == rest.value;
        assert rows[k + 1].idAsc == rest.value;
        rest
      else Some(rows[0].idAsc)
  }

  /** `(max ?? 0) + 1` */
  function NextIdAsc(rows: seq<Bottle>): (n: int)
    ensures forall i :: 0 <= i < |rows| ==> rows[i].idAsc < n
    ensures rows == [] ==> n == 1
    ensures rows != [] ==> exists i :: 0 <= i < |rows| && rows[i].idAsc == n - 1
  {
    MaxIdAsc(rows).GetOr(0) + 1
  }

  /** `WHERE status = 'active' AND id != exclude`, in table order. */
  function Eligible(rows: seq<Bottle>, exclude: string): (r: seq<Bottle>)
    ensures forall b :: b in r <==> b in rows && b.status == Active && b.id != exclude
    ensures |r| <= |rows|
  {
    if rows == [] then []
    else
      var rest := Eligible(rows[1..], exclude);
      assert forall b :: b in rows <==> b == rows[0] || b in rows[1..];
      if rows[0].status == Active && rows[0].id != exclude then [rows[0]] + rest else rest
  }

  /**
   * `ORDER BY RANDOM() LIMIT limit` over `pool`: any `min(limit, |pool|)`
   * distinct rows of the pool, in any order.
   */
  predicate IsSample(picked: seq<Bottle>, pool: seq<Bottle>, limit: nat) {
    && |picked| == (if limit < |pool| then limit else |pool|)
    && (forall i :: 0 <= i < |picked| ==> picked[i] in pool)
    && DistinctIds(picked)
  }

  /** Filtering keeps the rows in table order, so distinct ids stay distinct. */
  lemma {:induction false} EligibleDistinct(rows: seq<Bottle>, exclude: string)
    requires DistinctIds(rows)
    ensures DistinctIds(Eligible(rows, exclude))
  {
    if rows != [] {
      assert DistinctIds(rows[1..]) by {
        forall i, j | 0 <= i < j < |rows[1..]| ensures rows[1..][i].id != rows[1..][j].id {
          assert rows[1..][i] == rows[i + 1] && rows[1..][j] == rows[j + 1];
        }
      }
      EligibleDistinct(rows[1..], exclude);
      var rest := Eligible(rows[1..], exclude);
      forall b | b in rest ensures b.id != rows[0].id {
        var k :| 0 < k < |rows| && rows[k] == b by {
          assert b in rows[1..];
          var k' :| 0 <= k' < |rows[1..]| && rows[1..][k'] == b;
          assert rows[k' + 1] == b;
        }
      }
      if rows[0].status == Active && rows[0].id != exclude {
        var r := [rows[0]] + rest;
        forall i, j | 0 <= i < j < |r| ensures r[i].id != r[j].id {
          if i == 0 {
            assert r[j] == rest[j - 1];
            assert rest[j - 1] in rest;
          } else {
            assert r[i] == rest[i - 1] && r[j] == rest[j - 1];
          }
        }
      }
    }
  }

  /** A sample always exists: the first rows of a pool with distinct ids are one. */
  lemma SampleExists(pool: seq<Bottle>, limit: nat)
    requires DistinctIds(pool)
    ensures exists picked :: IsSample(picked, pool, limit)
  {
    var n := if limit < |pool| then limit else |pool|;
    var picked := pool[..n];
    assert forall i :: 0 <= i < |picked| ==> picked[i] == pool[i];
    assert IsSample(picked, pool, limit);
  }

  // ---------------------------------------------------------------------------
  // Emoji reactions

  /** `reactions[emoji] || 0` */
  function CountOf(m: map<string, int>, emoji: string): int {
    if emoji in m then m[emoji] else 0
  }

  /** The record the react endpoint starts from: unparsable text counts as `{}`. */
  function Parsed(s: StoredReactions): map<string, int> {
    match s
    case Counts(m) => m
    case Unparsable => map[]
  }

  /** The action the react endpoint applies. */
  datatype ReactAction = Add | Remove | Other

  /**
   * The record after a reaction: `add` counts the emoji once more, `remove`
   * counts it once less but never below zero and drops it at zero, and any
   * other action leaves the record as it is.
   */
  function Reacted(m: map<string, int>, emoji: string, action: ReactAction): map<string, int> {
    match action
    case Add => m[emoji := CountOf(m, emoji) + 1]
    case Remove =>
      var c := CountOf(m, emoji) - 1;
      if c > 0 then m[emoji := c] else m - {emoji}
    case Other => m
  }

  /** Every recorded emoji has a positive count. */
  predicate Sparse(m: map<string, int>) {
    forall e :: e in m ==> m[e] > 0
  }

  /** A reaction changes the count of its own emoji only. */
  lemma ReactedOthersUnchanged(m: map<string, int>, emoji: string, action: ReactAction, other: string)
    requires other != emoji
    ensures CountOf(Reacted(m, emoji, action), other) == CountOf(m, other)
    ensures other in Reacted(m, emoji, action) <==> other in m
  {
  }

  /** The count of the reacted emoji: one more, one less with a floor at zero, or unchanged. */
  lemma ReactedCount(m: map<string, int>, emoji: string, action: ReactAction)
    ensures var c := CountOf(Reacted(m, emoji, action), emoji);
      match action
      case Add => c == CountOf(m, emoji) + 1
      case Remove => c == (if CountOf(m, emoji) - 1 > 0 then CountOf(m, emoji) - 1 else 0)
      case Other => c == CountOf(m, emoji)
    ensures action == Remove ==> (emoji in Reacted(m, emoji, action) <==> CountOf(m, emoji) > 1)
  {
  }

  /** A record without zero or negative counts keeps that shape. */
  lemma ReactedSparse(m: map<string, int>, emoji: string, action: ReactAction)
    requires Sparse(m)
    ensures Sparse(Reacted(m, emoji, action))
  {
  }

  /** Removing an emoji nobody reacted with changes nothing. */
  lemma RemoveAbsentUnchanged(m: map<string, int>, emoji: string)
    requires emoji !in m
    ensures Reacted(m, emoji, Remove) == m
  {
  }

  /** Adding and then removing an emoji restores the record it started from. */
  lemma AddThenRemoveRestores(m: map<string, int>, emoji: string)
    requires Sparse(m)
    ensures Reacted(Reacted(m, emoji, Add), emoji, Remove) == m
  {
    var m1 := Reacted(m, emoji, Add);
    var m2 := Reacted(m1, emoji, Remove);
    if emoji in m {
      assert m2 == m1[emoji := m[emoji]];
    } else {
      assert m2 == m1 - {emoji};
    }
    assert forall e :: e in m2 <==> e in m;
  }
}
