/**
 The stable sort of JavaScript and Python, for any order: what the modules that call it need to know.
 */
module Sorting {
  function Insert<T(!new)>(before: (T, T) -> bool, x: T, s: seq<T>): seq<T> {
    if s == [] || !before(s[0], x) then [x] + s else [s[0]] + Insert(before, x, s[1..])
  }

  function Sort<T(!new)>(before: (T, T) -> bool, s: seq<T>): seq<T> {
    if s == [] then [] else Insert(before, s[0], Sort(before, s[1..]))
  }

  ghost predicate Ordered<T(!new)>(before: (T, T) -> bool, s: seq<T>) {
    forall i, j | 0 <= i < j < |s| :: !before(s[j], s[i])
  }

  /** Ties may be long, but they are transitive. */
  ghost predicate WeakOrder<T(!new)>(before: (T, T) -> bool) {
    && (forall x, y | before(x, y) :: !before(y, x))
    && forall x, y, z | !before(y, x) && !before(z, y) :: !before(z, x)
  }

  /** The elements tied with `c`, in order. */
  function TiedWith<T(!new)>(before: (T, T) -> bool, s: seq<T>, c: T): seq<T> {
    if s == [] then []
    else if before(s[0], c) || before(c, s[0]) then TiedWith(before, s[1..], c)
    else [s[0]] + TiedWith(before, s[1..], c)
  }

  lemma {:induction false} InsertPermutes<T(!new)>(before: (T, T) -> bool, x: T, s: seq<T>)
    ensures multiset(Insert(before, x, s)) == multiset(s) + multiset{x} && |Insert(before, x, s)| == |s| + 1
    ensures forall y :: y in Insert(before, x, s) <==> y == x || y in s
    decreases |s|
  {
    if s != [] && before(s[0], x) {
      InsertPermutes(before, x, s[1..]);
      assert s == [s[0]] + s[1..];
    }
  }

  lemma {:induction false} InsertOrdered<T(!new)>(before: (T, T) -> bool, x: T, s: seq<T>)
    requires WeakOrder(before) && Ordered(before, s)
    ensures Ordered(before, Insert(before, x, s))
    decreases |s|
  {
    if s == [] || !before(s[0], x) {
      forall j | 0 <= j < |s| ensures !before(s[j], x) {
        assert j > 0 ==> !before(s[j], s[0]);
      }
    } else {
      var rest := Insert(before, x, s[1..]);
      InsertOrdered(before, x, s[1..]);
      InsertPermutes(before, x, s[1..]);
      forall j | 0 <= j < |rest| ensures !before(rest[j], s[0]) {
        assert rest[j] in rest;
      }
    }
  }

  lemma {:induction false} InsertStable<T(!new)>(before: (T, T) -> bool, x: T, s: seq<T>, c: T)
    requires WeakOrder(before)
    ensures TiedWith(before, Insert(before, x, s), c) == TiedWith(before, [x] + s, c)
    decreases |s|
  {
    assert ([x] + s)[1..] == s;
    if s != [] && before(s[0], x) {
      InsertStable(before, x, s[1..], c);
      assert ([s[0]] + Insert(before, x, s[1..]))[1..] == Insert(before, x, s[1..]);
      assert ([x] + s[1..])[1..] == s[1..];
    }
  }

  /** A permutation. */
  lemma {:induction false} SortPermutes<T(!new)>(before: (T, T) -> bool, s: seq<T>)
    ensures multiset(Sort(before, s)) == multiset(s) && |Sort(before, s)| == |s|
    ensures forall x :: x in Sort(before, s) <==> x in s
    decreases |s|
  {
    if s != [] {
      SortPermutes(before, s[1..]);
      InsertPermutes(before, s[0], Sort(before, s[1..]));
      assert s == [s[0]] + s[1..];
    }
  }

  /** In order. */
  lemma {:induction false} SortOrdered<T(!new)>(before: (T, T) -> bool, s: seq<T>)
    requires WeakOrder(before)
    ensures Ordered(before, Sort(before, s))
    decreases |s|
  {
    if s != [] {
      SortOrdered(before, s[1..]);
      InsertOrdered(before, s[0], Sort(before, s[1..]));
    }
  }

  /** And stable: ties keep their order. */
  lemma {:induction false} SortStable<T(!new)>(before: (T, T) -> bool, s: seq<T>, c: T)
    requires WeakOrder(before)
    ensures TiedWith(before, Sort(before, s), c) == TiedWith(before, s, c)
    decreases |s|
  {
    if s != [] {
      SortStable(before, s[1..], c);
      var rest := Sort(before, s[1..]);
      InsertStable(before, s[0], rest, c);
      assert ([s[0]] + rest)[1..] == rest;
    }
  }
}
