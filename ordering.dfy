/** `ORDER BY <column> ASC|DESC`: the keys rows are sorted on, the order
    SQLite puts them in, and a sort that produces that order. */
module Ordering {

  /** A sort key: numeric columns (prices, timestamps) or text columns. */
  datatype Key = Num(n: int) | Text(s: string)

  datatype Direction = Asc | Desc

  /** SQLite's BINARY collation: text compares character by character, and
      a proper prefix comes first. */
  predicate TextLe(a: string, b: string) {
    |a| == 0 || (|b| > 0 && (a[0] < b[0] || (a[0] == b[0] && TextLe(a[1..], b[1..]))))
  }

  /** SQLite's order on values: numbers before text, numbers by value. */
  predicate KeyLe(a: Key, b: Key) {
    match (a, b)
    case (Num(x), Num(y)) => x <= y
    case (Num(_), Text(_)) => true
    case (Text(_), Num(_)) => false
    case (Text(x), Text(y)) => TextLe(x, y)
  }

  /** A row with key `a` may come before a row with key `b`. */
  predicate Precedes(a: Key, b: Key, dir: Direction) {
    if dir == Asc then KeyLe(a, b) else KeyLe(b, a)
  }

  lemma {:induction false} TextLeTotal(a: string, b: string)
    ensures TextLe(a, b) || TextLe(b, a)
  {
    if |a| > 0 && |b| > 0 && a[0] == b[0] {
      TextLeTotal(a[1..], b[1..]);
    }
  }

  lemma {:induction false} TextLeTransitive(a: string, b: string, c: string)
    requires TextLe(a, b) && TextLe(b, c)
    ensures TextLe(a, c)
  {
    if |a| > 0 && |b| > 0 && |c| > 0 && a[0] == b[0] == c[0] {
      TextLeTransitive(a[1..], b[1..], c[1..]);
    }
  }

  /** Any two keys can be compared, in either direction. */
  lemma PrecedesTotal(a: Key, b: Key, dir: Direction)
    ensures Precedes(a, b, dir) || Precedes(b, a, dir)
  {
    if a.Text? && b.Text? {
      TextLeTotal(a.s, b.s);
    }
  }

  lemma PrecedesTransitive(a: Key, b: Key, c: Key, dir: Direction)
    requires Precedes(a, b, dir) && Precedes(b, c, dir)
    ensures Precedes(a, c, dir)
  {
    if a.Text? && b.Text? && c.Text? {
      if dir == Asc {
        TextLeTransitive(a.s, b.s, c.s);
      } else {
        TextLeTransitive(c.s, b.s, a.s);
      }
    }
  }

  /** Every row may come before every later row. */
  predicate Sorted<T>(s: seq<T>, key: T -> Key, dir: Direction) {
    forall i, j | 0 <= i < j < |s| :: Precedes(key(s[i]), key(s[j]), dir)
  }

  /** A row that may precede every row of a sorted sequence can go in
      front of it. */
  lemma ConsSorted<T>(y: T, rest: seq<T>, key: T -> Key, dir: Direction)
    requires Sorted(rest, key, dir)
    requires forall z | z in rest :: Precedes(key(y), key(z), dir)
    ensures Sorted([y] + rest, key, dir)
  {
    var r := [y] + rest;
    forall i, j | 0 <= i < j < |r| ensures Precedes(key(r[i]), key(r[j]), dir) {
      assert r[j] == rest[j - 1] && r[j] in rest;
      if i > 0 {
        assert r[i] == rest[i - 1];
      }
    }
  }

  /** Places `x` in front of the first row it may precede. */
  function Insert<T>(x: T, s: seq<T>, key: T -> Key, dir: Direction): (r: seq<T>)
    requires Sorted(s, key, dir)
    ensures multiset(r) == multiset(s) + multiset{x}
    ensures Sorted(r, key, dir)
  {
    if |s| == 0 then [x]
    else if Precedes(key(x), key(s[0]), dir) then
      assert forall z | z in s :: Precedes(key(x), key(z), dir) by {
        forall z | z in s ensures Precedes(key(x), key(z), dir) {
          var k :| 0 <= k < |s| && s[k] == z;
          if k > 0 {
            PrecedesTransitive(key(x), key(s[0]), key(z), dir);
          }
        }
      }
      ConsSorted(x, s, key, dir);
      [x] + s
    else
      PrecedesTotal(key(x), key(s[0]), dir);
      assert s == [s[0]] + s[1..];
      var rest := Insert(x, s[1..], key, dir);
      assert forall z | z in rest :: Precedes(key(s[0]), key(z), dir) by {
        forall z | z in rest ensures Precedes(key(s[0]), key(z), dir) {
          assert z in multiset(rest);
          if z != x {
            assert z in multiset(s[1..]);
            var k :| 0 <= k < |s[1..]| && s[1..][k] == z;
            assert z == s[k + 1];
          }
        }
      }
      ConsSorted(s[0], rest, key, dir);
      [s[0]] + rest
  }

  /** `ORDER BY key dir`: a permutation of `s` in which every row may come
      before every later one. Rows with equal keys keep their table order,
      which is one of the orders SQLite may return them in. */
  function SortBy<T>(s: seq<T>, key: T -> Key, dir: Direction): (r: seq<T>)
    ensures multiset(r) == multiset(s)
    ensures Sorted(r, key, dir)
  {
    if |s| == 0 then []
    else
      assert s == [s[0]] + s[1..];
      Insert(s[0], SortBy(s[1..], key, dir), key, dir)
  }
}
