/**
 * Insertion-ordered distinct sequences: the model of Kotlin's
 * `LinkedHashSet` (`mutableSetOf`, `distinctBy`) and of the key order of
 * `LinkedHashMap` (`mutableMapOf`).
 */
module Collections {

  predicate NoDuplicates<T(==)>(s: seq<T>) {
    forall i, j :: 0 <= i < j < |s| ==> s[i] != s[j]
  }

  /**
   * Keeps the first occurrence of every element, in order of first
   * appearance; `DedupMembers` states what it keeps.
   */
  function Dedup<T(==)>(s: seq<T>): (r: seq<T>)
    ensures |r| <= |s|
  {
    if s == [] then []
    else
      var r := Dedup(s[..|s| - 1]);
      if s[|s| - 1] in r then r else r + [s[|s| - 1]]
  }

  /** `Dedup` holds every element of its input once, and nothing else. */
  lemma {:induction false} DedupMembers<T>(s: seq<T>)
    ensures NoDuplicates(Dedup(s))
    ensures forall x :: x in Dedup(s) <==> x in s
  {
    if s != [] {
      var init := s[..|s| - 1];
      DedupMembers(init);
      assert s == init + [s[|s| - 1]];
    }
  }

  /** Adding one element to a `LinkedHashSet`: appended only when new. */
  lemma DedupSnoc<T>(s: seq<T>, x: T)
    ensures Dedup(s + [x]) == if x in s then Dedup(s) else Dedup(s) + [x]
  {
    assert (s + [x])[..|s + [x]| - 1] == s;
    DedupMembers(s);
  }

  /** Kotlin's `filter`: the elements `keep` accepts, in order. */
  function Filter<T(!new)>(s: seq<T>, keep: T -> bool): (r: seq<T>)
    ensures |r| <= |s|
    ensures forall x :: x in r <==> x in s && keep(x)
  {
    if s == [] then []
    else
      var rest := Filter(s[1..], keep);
      assert forall x :: x in s <==> x == s[0] || x in s[1..];
      if keep(s[0]) then [s[0]] + rest else rest
  }

  /** Filtering a concatenation concatenates the filtered parts. */
  lemma {:induction false} FilterAppend<T(!new)>(a: seq<T>, b: seq<T>, keep: T -> bool)
    ensures Filter(a + b, keep) == Filter(a, keep) + Filter(b, keep)
  {
    if a != [] {
      assert (a + b)[0] == a[0] && (a + b)[1..] == a[1..] + b;
      FilterAppend(a[1..], b, keep);
    } else {
      assert a + b == b;
    }
  }

  /**
   * `filter` keeps order and multiplicity: each element in turn is appended
   * when `keep` accepts it and skipped otherwise.
   */
  lemma FilterSnoc<T(!new)>(s: seq<T>, i: nat, keep: T -> bool)
    requires i < |s|
    ensures Filter(s[..i + 1], keep) == Filter(s[..i], keep) + (if keep(s[i]) then [s[i]] else [])
  {
    assert s[..i + 1] == s[..i] + [s[i]];
    FilterAppend(s[..i], [s[i]], keep);
  }

  /** A duplicate-free sequence is its own `Dedup`. */
  lemma {:induction false} DedupOfDistinct<T>(s: seq<T>)
    requires NoDuplicates(s)
    ensures Dedup(s) == s
  {
    if s != [] {
      var init := s[..|s| - 1];
      DedupOfDistinct(init);
      assert s[|s| - 1] !in init;
    }
  }

  /** The position of the first occurrence of `x` in `s`. */
  function FirstIndex<T(==)>(s: seq<T>, x: T): (i: nat)
    requires x in s
    ensures i < |s| && s[i] == x && x !in s[..i]
  {
    if s[0] == x then 0
    else
      var i := FirstIndex(s[1..], x) + 1;
      assert s[..i] == [s[0]] + s[1..][..i - 1];
      i
  }

  /** `Dedup` lists elements in the order of their first occurrence. */
  lemma {:induction false} DedupFirstOccurrenceOrder<T>(s: seq<T>, a: nat, b: nat)
    requires a < b < |Dedup(s)|
    ensures Dedup(s)[a] in s && Dedup(s)[b] in s
            && FirstIndex(s, Dedup(s)[a]) < FirstIndex(s, Dedup(s)[b])
  {
    var init := s[..|s| - 1];
    var x := s[|s| - 1];
    assert s == init + [x];
    var r := Dedup(init);
    DedupElementIn(s, a);
    DedupElementIn(s, b);
    DedupMembers(init);
    if x in r {
      assert Dedup(s) == r;
      DedupFirstOccurrenceOrder(init, a, b);
      FirstIndexOfPrefix(init, x, r[a]);
      FirstIndexOfPrefix(init, x, r[b]);
    } else {
      assert Dedup(s) == r + [x];
      if b < |r| {
        DedupFirstOccurrenceOrder(init, a, b);
        FirstIndexOfPrefix(init, x, r[a]);
        FirstIndexOfPrefix(init, x, r[b]);
      } else {
        DedupElementIn(init, a);
        FirstIndexOfPrefix(init, x, r[a]);
        assert x !in init;
        assert FirstIndex(s, x) == |s| - 1;
      }
    }
  }

  lemma FirstIndexOfPrefix<T>(init: seq<T>, x: T, y: T)
    requires y in init
    ensures FirstIndex(init + [x], y) == FirstIndex(init, y)
  {
    var i := FirstIndex(init, y);
    var j := FirstIndex(init + [x], y);
    assert (init + [x])[i] == y;
  }

  lemma DedupElementIn<T>(s: seq<T>, k: nat)
    requires k < |Dedup(s)|
    ensures Dedup(s)[k] in s
  {
    DedupMembers(s);
    assert Dedup(s)[k] in Dedup(s);
  }

  lemma DedupElementsIn<T>(s: seq<T>)
    ensures forall k :: 0 <= k < |Dedup(s)| ==> Dedup(s)[k] in s
  {
    forall k | 0 <= k < |Dedup(s)| {
      DedupElementIn(s, k);
    }
  }

  lemma ElementInDedup<T>(s: seq<T>, k: nat)
    requires k < |s|
    ensures s[k] in Dedup(s)
  {
    DedupMembers(s);
    assert s[k] in s;
  }

  /** A sequence has at least two distinct elements iff two of its entries differ. */
  lemma TwoDistinct<T>(s: seq<T>)
    ensures |Dedup(s)| >= 2 <==> exists i, j :: 0 <= i < |s| && 0 <= j < |s| && s[i] != s[j]
  {
    var r := Dedup(s);
    if |r| >= 2 {
      DedupMembers(s);
      assert r[0] != r[1];
      DedupElementIn(s, 0);
      DedupElementIn(s, 1);
      var i :| 0 <= i < |s| && s[i] == r[0];
      var j :| 0 <= j < |s| && s[j] == r[1];
      assert s[i] != s[j];
    }
    if exists i, j :: 0 <= i < |s| && 0 <= j < |s| && s[i] != s[j] {
      var i, j :| 0 <= i < |s| && 0 <= j < |s| && s[i] != s[j];
      ElementInDedup(s, i);
      ElementInDedup(s, j);
      var a :| 0 <= a < |r| && r[a] == s[i];
      var b :| 0 <= b < |r| && r[b] == s[j];
      assert a != b;
    }
  }
}
