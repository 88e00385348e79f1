/** Kotlin's natural `String` order (`compareTo`): lexicographic by character code. */
module StringOrder {
  import StableSort

  /** `a <= b` in the order `sorted()` uses. */
  predicate StrLe(a: string, b: string)
    decreases |a|
  {
    |a| == 0 || (|b| > 0 && (a[0] < b[0] || (a[0] == b[0] && StrLe(a[1..], b[1..]))))
  }

  lemma {:induction false} StrLeTotal(a: string, b: string)
    ensures StrLe(a, b) || StrLe(b, a)
    decreases |a|
  {
    if |a| > 0 && |b| > 0 && a[0] == b[0] {
      StrLeTotal(a[1..], b[1..]);
    }
  }

  lemma {:induction false} StrLeTransitive(a: string, b: string, c: string)
    requires StrLe(a, b) && StrLe(b, c)
    ensures StrLe(a, c)
    decreases |a|
  {
    if |a| > 0 && a[0] == b[0] && b[0] == c[0] {
      StrLeTransitive(a[1..], b[1..], c[1..]);
    }
  }

  lemma {:induction false} StrLeAntisymmetric(a: string, b: string)
    requires StrLe(a, b) && StrLe(b, a)
    ensures a == b
    decreases |a|
  {
    if |a| > 0 {
      StrLeAntisymmetric(a[1..], b[1..]);
      assert a == [a[0]] + a[1..] && b == [b[0]] + b[1..];
    }
  }

  lemma StrLeIsTotalPreorder()
    ensures StableSort.Total(StrLe) && StableSort.Transitive(StrLe)
  {
    forall a, b ensures StrLe(a, b) || StrLe(b, a) {
      StrLeTotal(a, b);
    }
    forall a, b, c | StrLe(a, b) && StrLe(b, c) ensures StrLe(a, c) {
      StrLeTransitive(a, b, c);
    }
  }

  /** `Iterable<String>.sorted()`. */
  function SortStrings(s: seq<string>): (r: seq<string>)
    ensures multiset(r) == multiset(s)
    ensures StableSort.Sorted(r, StrLe)
  {
    StrLeIsTotalPreorder();
    StableSort.SortSorted(s, StrLe);
    StableSort.Sort(s, StrLe)
  }

  /** Sorting distinct strings gives a strictly ascending sequence. */
  lemma SortedDistinctAscending(s: seq<string>, i: nat, j: nat)
    requires forall x, y :: 0 <= x < y < |s| ==> s[x] != s[y]
    requires i < j < |SortStrings(s)|
    ensures StrLe(SortStrings(s)[i], SortStrings(s)[j])
    ensures SortStrings(s)[i] != SortStrings(s)[j]
  {
    var r := SortStrings(s);
    if r[i] == r[j] {
      assert multiset(r)[r[i]] >= 2 by {
        assert r == r[..i] + [r[i]] + r[i + 1..j] + [r[j]] + r[j + 1..];
      }
      DistinctMultiplicity(s, r[i]);
    }
  }

  lemma {:induction false} DistinctMultiplicity(s: seq<string>, x: string)
    requires forall a, b :: 0 <= a < b < |s| ==> s[a] != s[b]
    ensures multiset(s)[x] <= 1
  {
    if s != [] {
      var init := s[..|s| - 1];
      assert s == init + [s[|s| - 1]];
      DistinctMultiplicity(init, x);
      if x == s[|s| - 1] {
        assert x !in init;
      }
    }
  }
}
