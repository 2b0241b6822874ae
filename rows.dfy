/** Tables as sequences of rows in rowid order, and the relational
    operations the route handlers' SQL statements perform on them. */
module Rows {
  import opened Http

  function Min(a: int, b: int): int {
    if a <= b then a else b
  }

  /** `SELECT ... WHERE keep` (and, with the condition negated, `DELETE ...
      WHERE`): the rows that satisfy `keep`, in their original order. */
  function Where<T>(s: seq<T>, keep: T -> bool): (r: seq<T>)
    ensures |r| <= |s|
    ensures forall x | x in r :: x in s && keep(x)
    ensures forall x | x in s && keep(x) :: x in r
  {
    if |s| == 0 then []
    else if keep(s[0]) then [s[0]] + Where(s[1..], keep)
    else Where(s[1..], keep)
  }

  /** `Where` neither repeats nor loses a row: a kept row occurs in the
      result as often as in the table, a rejected row not at all. */
  lemma {:induction false} WhereCounts<T>(s: seq<T>, keep: T -> bool)
    ensures forall x | x in s :: multiset(Where(s, keep))[x] == if keep(x) then multiset(s)[x] else 0
  {
    if |s| > 0 {
      WhereCounts(s[1..], keep);
      assert s == [s[0]] + s[1..];
      forall x | x in s
        ensures multiset(Where(s, keep))[x] == if keep(x) then multiset(s)[x] else 0
      {
        if x !in s[1..] {
          assert x !in Where(s[1..], keep);
        }
      }
    }
  }

  /** Two conditions that agree on every row select the same rows. */
  lemma {:induction false} WhereExt<T>(s: seq<T>, keep: T -> bool, keep': T -> bool)
    requires forall x | x in s :: keep(x) == keep'(x)
    ensures Where(s, keep) == Where(s, keep')
  {
    if |s| > 0 {
      WhereExt(s[1..], keep, keep');
    }
  }

  /** Selecting from a concatenation selects from each part: the kept rows
      of an earlier stretch of the table all come before those of a later
      one, so `Where` keeps table order. */
  lemma {:induction false} WhereAppend<T>(a: seq<T>, b: seq<T>, keep: T -> bool)
    ensures Where(a + b, keep) == Where(a, keep) + Where(b, keep)
  {
    if |a| > 0 {
      assert (a + b)[1..] == a[1..] + b;
      WhereAppend(a[1..], b, keep);
    } else {
      assert a + b == b;
    }
  }

  /** A condition that every row satisfies selects the whole table. */
  lemma {:induction false} WhereKeepsAll<T>(s: seq<T>, keep: T -> bool)
    requires forall x | x in s :: keep(x)
    ensures Where(s, keep) == s
  {
    if |s| > 0 {
      WhereKeepsAll(s[1..], keep);
      assert [s[0]] + s[1..] == s;
    }
  }

  /** The number of rows a `DELETE` reports as changed is positive exactly
      when some row fails `keep`. */
  lemma {:induction false} WhereDropsSome<T>(s: seq<T>, keep: T -> bool)
    ensures |Where(s, keep)| < |s| <==> exists x | x in s :: !keep(x)
  {
    if |s| > 0 {
      WhereDropsSome(s[1..], keep);
      assert forall x | x in s[1..] :: x in s;
      assert forall x | x in s && x != s[0] :: x in s[1..];
    }
  }

  /** `ok` holds of every pair of rows in table order: the shape of every
      uniqueness constraint on a table with ascending ids. */
  predicate Pairwise<T>(s: seq<T>, ok: (T, T) -> bool) {
    forall i, j | 0 <= i < j < |s| :: ok(s[i], s[j])
  }

  /** Deleting rows keeps every pairwise constraint. */
  lemma {:induction false} WherePairwise<T>(s: seq<T>, keep: T -> bool, ok: (T, T) -> bool)
    requires Pairwise(s, ok)
    ensures Pairwise(Where(s, keep), ok)
  {
    if |s| > 0 {
      assert Pairwise(s[1..], ok) by {
        forall i, j | 0 <= i < j < |s[1..]| ensures ok(s[1..][i], s[1..][j]) {
          assert s[1..][i] == s[i + 1] && s[1..][j] == s[j + 1];
        }
      }
      WherePairwise(s[1..], keep, ok);
      if keep(s[0]) {
        var rest := Where(s[1..], keep);
        forall y | y in rest ensures ok(s[0], y) {
          var k :| 0 <= k < |s[1..]| && s[1..][k] == y;
          assert y == s[k + 1];
        }
        var r := [s[0]] + rest;
        forall i, j | 0 <= i < j < |r| ensures ok(r[i], r[j]) {
          if i == 0 {
            assert r[j] == rest[j - 1];
            assert r[j] in rest;
          } else {
            assert r[i] == rest[i - 1] && r[j] == rest[j - 1];
          }
        }
      }
    }
  }

  /** Appending a row that is `ok` after every existing row keeps a
      pairwise constraint. */
  lemma AppendPairwise<T>(s: seq<T>, x: T, ok: (T, T) -> bool)
    requires Pairwise(s, ok)
    requires forall y | y in s :: ok(y, x)
    ensures Pairwise(s + [x], ok)
  {
    var r := s + [x];
    forall i, j | 0 <= i < j < |r| ensures ok(r[i], r[j]) {
      assert r[i] == s[i];
      if j < |s| {
        assert r[j] == s[j];
      } else {
        assert s[i] in s;
      }
    }
  }

  /** `.get()` of a query: the first row that satisfies `hit`, if any. */
  function First<T>(s: seq<T>, hit: T -> bool): (r: Option<T>)
    ensures r.Some? ==> r.value in s && hit(r.value)
    ensures r.None? <==> forall x | x in s :: !hit(x)
  {
    if |s| == 0 then None
    else if hit(s[0]) then Some(s[0])
    else First(s[1..], hit)
  }

  /** `LIMIT limit OFFSET offset`: at most `limit` rows, those from position
      `offset` on; none when the offset is past the end. */
  function Window<T>(s: seq<T>, offset: nat, limit: nat): (r: seq<T>)
    ensures |r| == if offset >= |s| then 0 else Min(limit, |s| - offset)
    ensures forall k | 0 <= k < |r| :: r[k] == s[offset + k]
  {
    if offset >= |s| then [] else s[offset..Min(offset + limit, |s|)]
  }
}
