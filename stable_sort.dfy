/**
 * A stable sort by a comparison, the model of Kotlin's `sortedWith` (the
 * JDK's `List.sort` is a stable merge sort; any stable sort gives the same
 * sequence, so it is written here as insertion sort).
 */
module StableSort {

  ghost predicate Total<T(!new)>(le: (T, T) -> bool) {
    forall a, b :: le(a, b) || le(b, a)
  }

  ghost predicate Transitive<T(!new)>(le: (T, T) -> bool) {
    forall a, b, c :: le(a, b) && le(b, c) ==> le(a, c)
  }

  predicate Sorted<T>(s: seq<T>, le: (T, T) -> bool) {
    forall i, j :: 0 <= i < j < |s| ==> le(s[i], s[j])
  }

  /** Inserts `x` before the first element it is not after. */
  function Insert<T>(x: T, s: seq<T>, le: (T, T) -> bool): (r: seq<T>)
    ensures multiset(r) == multiset(s) + multiset{x}
  {
    if s == [] then [x]
    else if le(x, s[0]) then [x] + s
    else
      assert s == [s[0]] + s[1..];
      [s[0]] + Insert(x, s[1..], le)
  }

  function Sort<T>(s: seq<T>, le: (T, T) -> bool): (r: seq<T>)
    ensures multiset(r) == multiset(s)
  {
    if s == [] then []
    else
      assert s == [s[0]] + s[1..];
      Insert(s[0], Sort(s[1..], le), le)
  }

  /** The elements of `s` that `le` ranks equal to `y`, in their order in `s`. */
  function Ties<T>(s: seq<T>, y: T, le: (T, T) -> bool): seq<T> {
    if s == [] then []
    else (if le(s[0], y) && le(y, s[0]) then [s[0]] else []) + Ties(s[1..], y, le)
  }

  lemma {:induction false} InsertSorted<T(!new)>(x: T, s: seq<T>, le: (T, T) -> bool)
    requires Total(le) && Transitive(le) && Sorted(s, le)
    ensures Sorted(Insert(x, s, le), le)
  {
    if s != [] && !le(x, s[0]) {
      var rest := Insert(x, s[1..], le);
      InsertSorted(x, s[1..], le);
      forall z | z in rest ensures le(s[0], z) {
        assert z in multiset(rest);
        if z != x {
          assert z in multiset(s[1..]);
          var k :| 0 <= k < |s[1..]| && s[1..][k] == z;
          assert s[k + 1] == z;
        }
      }
      var r := [s[0]] + rest;
      forall i, j | 0 <= i < j < |r| ensures le(r[i], r[j]) {
        if i == 0 {
          assert r[j] == rest[j - 1];
          assert rest[j - 1] in rest;
        } else {
          assert r[i] == rest[i - 1] && r[j] == rest[j - 1];
        }
      }
    }
  }

  /** The result is sorted: every element is `le` every later one. */
  lemma {:induction false} SortSorted<T(!new)>(s: seq<T>, le: (T, T) -> bool)
    requires Total(le) && Transitive(le)
    ensures Sorted(Sort(s, le), le)
  {
    if s != [] {
      SortSorted(s[1..], le);
      InsertSorted(s[0], Sort(s[1..], le), le);
    }
  }

  lemma {:induction false} InsertKeepsTies<T(!new)>(x: T, s: seq<T>, y: T, le: (T, T) -> bool)
    requires Transitive(le)
    ensures Ties(Insert(x, s, le), y, le) == Ties([x] + s, y, le)
  {
    if s != [] && !le(x, s[0]) {
      var rest := s[1..];
      InsertKeepsTies(x, rest, y, le);
      // `x` and `s[0]` cannot both rank equal to `y`, or `x` would be `le` `s[0]`.
      var tx := if le(x, y) && le(y, x) then [x] else [];
      var t0 := if le(s[0], y) && le(y, s[0]) then [s[0]] else [];
      var tail := Ties(rest, y, le);
      assert Insert(x, s, le) == [s[0]] + Insert(x, rest, le);
      TiesCons(s[0], Insert(x, rest, le), y, le);
      TiesCons(x, rest, y, le);
      assert Ties(Insert(x, s, le), y, le) == t0 + (tx + tail);
      assert s == [s[0]] + rest;
      TiesCons(s[0], rest, y, le);
      TiesCons(x, s, y, le);
      assert Ties([x] + s, y, le) == tx + (t0 + tail);
      if tx == [] {
        assert t0 + ([] + tail) == [] + (t0 + tail);
      } else {
        assert t0 == [];
        assert [] + (tx + tail) == tx + ([] + tail);
      }
    }
  }

  lemma TiesCons<T>(a: T, s: seq<T>, y: T, le: (T, T) -> bool)
    ensures Ties([a] + s, y, le) == (if le(a, y) && le(y, a) then [a] else []) + Ties(s, y, le)
  {
    assert ([a] + s)[1..] == s;
  }

  /** Stability: the elements ranked equal to any `y` keep their relative order. */
  lemma {:induction false} SortStable<T(!new)>(s: seq<T>, y: T, le: (T, T) -> bool)
    requires Transitive(le)
    ensures Ties(Sort(s, le), y, le) == Ties(s, y, le)
  {
    if s != [] {
      SortStable(s[1..], y, le);
      InsertKeepsTies(s[0], Sort(s[1..], le), y, le);
      assert ([s[0]] + Sort(s[1..], le))[1..] == Sort(s[1..], le);
    }
  }
}
