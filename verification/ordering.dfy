/** The meaning of `ORDER BY column ASC|DESC`: a total preorder on column
    values, sortedness of a sequence of rows under it, and a sort that
    produces a sorted permutation. */
module Ordering {

  /** The value of the column a listing is ordered by: an integer column
      (ids, timestamps, votes) or a text column. */
  datatype Key = Num(n: int) | Text(s: string)

  /** The sort direction of an ORDER BY clause. */
  datatype Direction = Asc | Desc

  /** Code-point lexicographic order on strings (the "C" collation). */
  predicate LexLe(a: string, b: string)
  {
    |a| == 0 || (|b| > 0 && (a[0] < b[0] || (a[0] == b[0] && LexLe(a[1..], b[1..]))))
  }

  lemma {:induction false} LexLeTotal(a: string, b: string)
    ensures LexLe(a, b) || LexLe(b, a)
  {
    if |a| > 0 && |b| > 0 && a[0] == b[0] {
      LexLeTotal(a[1..], b[1..]);
    }
  }

  lemma {:induction false} LexLeTransitive(a: string, b: string, c: string)
    requires LexLe(a, b) && LexLe(b, c)
    ensures LexLe(a, c)
  {
    if |a| > 0 && |b| > 0 && |c| > 0 && a[0] == b[0] && b[0] == c[0] {
      LexLeTransitive(a[1..], b[1..], c[1..]);
    }
  }

  lemma {:induction false} LexLeAntisymmetric(a: string, b: string)
    requires LexLe(a, b) && LexLe(b, a)
    ensures a == b
  {
    if |a| > 0 && |b| > 0 {
      LexLeAntisymmetric(a[1..], b[1..]);
      assert a == [a[0]] + a[1..] && b == [b[0]] + b[1..];
    }
  }

  /** The text order is a total order: any two strings are comparable, two
      strings each at most the other are equal, and it is transitive. */
  lemma TextOrderIsTotal(a: string, b: string, c: string)
    ensures LexLe(a, b) || LexLe(b, a)
    ensures LexLe(a, b) && LexLe(b, a) ==> a == b
    ensures LexLe(a, b) && LexLe(b, c) ==> LexLe(a, c)
  {
    LexLeTotal(a, b);
    if LexLe(a, b) && LexLe(b, a) {
      LexLeAntisymmetric(a, b);
    }
    if LexLe(a, b) && LexLe(b, c) {
      LexLeTransitive(a, b, c);
    }
  }

  /** Order on keys; keys of one column always have the same shape, so the
      cross-shape cases only make the order total. */
  predicate KeyLe(x: Key, y: Key)
  {
    match (x, y)
    case (Num(m), Num(n)) => m <= n
    case (Text(s), Text(t)) => LexLe(s, t)
    case (Num(_), Text(_)) => true
    case (Text(_), Num(_)) => false
  }

  lemma KeyLeTotal(x: Key, y: Key)
    ensures KeyLe(x, y) || KeyLe(y, x)
  {
    if x.Text? && y.Text? {
      LexLeTotal(x.s, y.s);
    }
  }

  lemma KeyLeTransitive(x: Key, y: Key, z: Key)
    requires KeyLe(x, y) && KeyLe(y, z)
    ensures KeyLe(x, z)
  {
    if x.Text? && y.Text? && z.Text? {
      LexLeTransitive(x.s, y.s, z.s);
    }
  }

  /** `a` may come before `b` in a listing ordered by `key` in direction `dir`. */
  predicate InOrder<T>(key: T -> Key, dir: Direction, a: T, b: T)
  {
    if dir == Asc then KeyLe(key(a), key(b)) else KeyLe(key(b), key(a))
  }

  lemma InOrderTotal<T>(key: T -> Key, dir: Direction, a: T, b: T)
    ensures InOrder(key, dir, a, b) || InOrder(key, dir, b, a)
  {
    KeyLeTotal(key(a), key(b));
  }

  lemma InOrderTransitive<T>(key: T -> Key, dir: Direction, a: T, b: T, c: T)
    requires InOrder(key, dir, a, b) && InOrder(key, dir, b, c)
    ensures InOrder(key, dir, a, c)
  {
    if dir == Asc {
      KeyLeTransitive(key(a), key(b), key(c));
    } else {
      KeyLeTransitive(key(c), key(b), key(a));
    }
  }

  /** Every row comes no later in the order than every row after it
      (non-strict: rows with equal keys may appear in either order). */
  predicate Sorted<T>(s: seq<T>, key: T -> Key, dir: Direction)
  {
    forall i, j :: 0 <= i < j < |s| ==> InOrder(key, dir, s[i], s[j])
  }

  lemma InsertFront<T>(x: T, s: seq<T>, key: T -> Key, dir: Direction)
    requires Sorted(s, key, dir)
    requires |s| > 0 && InOrder(key, dir, x, s[0])
    ensures Sorted([x] + s, key, dir)
  {
    forall j | 0 < j < |s|
      ensures InOrder(key, dir, x, s[j])
    {
      InOrderTransitive(key, dir, x, s[0], s[j]);
    }
  }

  lemma InsertBehind<T>(h: T, x: T, t: seq<T>, rest: seq<T>, key: T -> Key, dir: Direction)
    requires Sorted([h] + t, key, dir)
    requires !InOrder(key, dir, x, h)
    requires Sorted(rest, key, dir)
    requires multiset(rest) == multiset(t) + multiset{x}
    ensures Sorted([h] + rest, key, dir)
  {
    forall k | 0 <= k < |rest|
      ensures InOrder(key, dir, h, rest[k])
    {
      assert rest[k] in multiset(rest);
      if rest[k] == x {
        InOrderTotal(key, dir, x, h);
      } else {
        assert rest[k] in multiset(t);
        var j :| 0 <= j < |t| && t[j] == rest[k];
        var ht := [h] + t;
        assert ht[0] == h && ht[j + 1] == t[j];
        assert InOrder(key, dir, ht[0], ht[j + 1]);
      }
    }
    var s := [h] + rest;
    forall i, j | 0 <= i < j < |s|
      ensures InOrder(key, dir, s[i], s[j])
    {
      if i > 0 {
        assert s[i] == rest[i - 1] && s[j] == rest[j - 1];
      }
    }
  }

  /** Inserts `x` into the sorted `s`, keeping it sorted. */
  function Insert<T>(x: T, s: seq<T>, key: T -> Key, dir: Direction): (r: seq<T>)
    requires Sorted(s, key, dir)
    ensures Sorted(r, key, dir)
    ensures multiset(r) == multiset(s) + multiset{x}
    decreases |s|
  {
    if |s| == 0 then [x]
    else if InOrder(key, dir, x, s[0]) then
      InsertFront(x, s, key, dir);
      [x] + s
    else
      assert s == [s[0]] + s[1..];
      var rest := Insert(x, s[1..], key, dir);
      InsertBehind(s[0], x, s[1..], rest, key, dir);
      [s[0]] + rest
  }

  /** Orders `s` by `key` in direction `dir`: the result is a sorted
      permutation of `s`. */
  function Sort<T>(s: seq<T>, key: T -> Key, dir: Direction): (r: seq<T>)
    ensures Sorted(r, key, dir)
    ensures multiset(r) == multiset(s)
    ensures |r| == |s|
    decreases |s|
  {
    if |s| == 0 then []
    else
      assert s == [s[0]] + s[1..];
      Insert(s[0], Sort(s[1..], key, dir), key, dir)
  }
}
