/**
 * Grouping a list of (key, value) pairs into a `LinkedHashMap` whose
 * values are `LinkedHashSet`s, the shape of `urlMap` in
 * `toLoadResponse`. The pairs are given as two parallel sequences:
 * `values[k]` belongs to `keys[k]`.
 */
module Grouping {
  import opened Collections

  /** The values paired with `key`, in order, repeats kept. */
  function ValuesOf<K(==), V>(keys: seq<K>, values: seq<V>, key: K): (r: seq<V>)
    requires |keys| == |values|
    ensures |r| <= |keys|
    decreases |keys|
  {
    if keys == [] then []
    else
      var n := |keys| - 1;
      ValuesOf(keys[..n], values[..n], key) + (if keys[n] == key then [values[n]] else [])
  }

  /** A group: the values paired with `key` as an insertion-ordered set. */
  function Group<K(==), V(==)>(keys: seq<K>, values: seq<V>, key: K): seq<V>
    requires |keys| == |values|
  {
    Dedup(ValuesOf(keys, values, key))
  }

  /** `ValuesOf` holds exactly the values of the pairs whose key is `key`. */
  lemma {:induction false} ValuesOfMembers<K, V>(keys: seq<K>, values: seq<V>, key: K)
    requires |keys| == |values|
    ensures forall v :: v in ValuesOf(keys, values, key) <==> exists k :: 0 <= k < |keys| && keys[k] == key && values[k] == v
    decreases |keys|
  {
    if keys != [] {
      var n := |keys| - 1;
      ValuesOfMembers(keys[..n], values[..n], key);
      assert forall k :: 0 <= k < n ==> keys[..n][k] == keys[k] && values[..n][k] == values[k];
    }
  }

  /** A group holds exactly the values paired with its key. */
  lemma GroupMembers<K, V>(keys: seq<K>, values: seq<V>, key: K, v: V)
    requires |keys| == |values|
    ensures v in Group(keys, values, key) <==> exists k :: 0 <= k < |keys| && keys[k] == key && values[k] == v
  {
    ValuesOfMembers(keys, values, key);
    DedupMembers(ValuesOf(keys, values, key));
  }

  lemma ValuesOfSnoc<K, V>(keys: seq<K>, values: seq<V>, i: nat, key: K)
    requires |keys| == |values| && i < |keys|
    ensures ValuesOf(keys[..i + 1], values[..i + 1], key)
            == ValuesOf(keys[..i], values[..i], key) + (if keys[i] == key then [values[i]] else [])
  {
    assert keys[..i + 1][..i] == keys[..i];
    assert values[..i + 1][..i] == values[..i];
  }

  lemma {:induction false} ValuesOfAbsent<K, V>(keys: seq<K>, values: seq<V>, key: K)
    requires |keys| == |values| && key !in keys
    ensures ValuesOf(keys, values, key) == []
    decreases |keys|
  {
    if keys != [] {
      var n := |keys| - 1;
      assert keys[n] in keys;
      assert forall x :: x in keys[..n] ==> x in keys;
      ValuesOfAbsent(keys[..n], values[..n], key);
    }
  }

  /**
   * The state of the grouping after the first `i` pairs: `order` is the
   * map's key order (each key once, where it first occurs) and each key
   * maps to its group among those pairs.
   */
  ghost predicate Grouped<K(!new), V>(keys: seq<K>, values: seq<V>, i: nat, order: seq<K>, groups: map<K, seq<V>>)
    requires |keys| == |values| && i <= |keys|
  {
    && order == Dedup(keys[..i])
    && (forall key :: key in groups <==> key in order)
    && (forall key :: key in groups ==> groups[key] == Group(keys[..i], values[..i], key))
  }

  /** After all pairs: the key order and the groups of the whole input. */
  lemma GroupedAll<K(!new), V>(keys: seq<K>, values: seq<V>, order: seq<K>, groups: map<K, seq<V>>)
    requires |keys| == |values| && Grouped(keys, values, |keys|, order, groups)
    ensures order == Dedup(keys)
    ensures forall key :: key in groups <==> key in order
    ensures forall key :: key in groups ==> groups[key] == Group(keys, values, key)
  {
    assert keys[..|keys|] == keys && values[..|values|] == values;
  }

  /** One insertion: a new key gets a one-element set, a known key gains the value unless present. */
  function Put<K(==), V(==)>(groups: map<K, seq<V>>, key: K, value: V): (r: map<K, seq<V>>)
    ensures r.Keys == groups.Keys + {key}
    ensures key !in groups ==> r[key] == [value]
    ensures key in groups ==> value in r[key] && multiset(groups[key]) <= multiset(r[key])
    ensures forall k :: k in groups && k != key ==> r[k] == groups[k]
  {
    if key in groups then
      groups[key := if value in groups[key] then groups[key] else groups[key] + [value]]
    else groups[key := [value]]
  }

  /** One step of the grouping loop keeps `Grouped`. */
  lemma GroupStep<K(!new), V>(keys: seq<K>, values: seq<V>, i: nat, order: seq<K>, groups: map<K, seq<V>>,
                              order': seq<K>, groups': map<K, seq<V>>)
    requires |keys| == |values| && i < |keys|
    requires Grouped(keys, values, i, order, groups)
    requires order' == if keys[i] in groups then order else order + [keys[i]]
    requires groups' == Put(groups, keys[i], values[i])
    ensures Grouped(keys, values, i + 1, order', groups')
  {
    var key0 := keys[i];
    assert key0 in groups <==> key0 in order;
    OrderStep(keys, i, order, order');
    assert forall key :: key in order' <==> key in order || key == key0;
    assert groups'.Keys == groups.Keys + {key0};
    assert forall key :: key in groups' <==> key in order';
    forall key | key in groups'
      ensures groups'[key] == Group(keys[..i + 1], values[..i + 1], key)
    {
      if key in groups {
        GroupStepAt(keys, values, i, groups[key], key);
      } else {
        assert key == key0 && key !in Dedup(keys[..i]);
        DedupMembers(keys[..i]);
        GroupStepNew(keys, values, i);
      }
    }
  }

  /** The key order after step `i`: a key is appended when first seen. */
  lemma OrderStep<K>(keys: seq<K>, i: nat, order: seq<K>, order': seq<K>)
    requires i < |keys| && order == Dedup(keys[..i])
    requires order' == if keys[i] in order then order else order + [keys[i]]
    ensures order' == Dedup(keys[..i + 1])
  {
    assert keys[..i + 1] == keys[..i] + [keys[i]];
    DedupSnoc(keys[..i], keys[i]);
    DedupMembers(keys[..i]);
  }

  /** The group of a known key after step `i`. */
  lemma GroupStepAt<K, V>(keys: seq<K>, values: seq<V>, i: nat, group: seq<V>, key: K)
    requires |keys| == |values| && i < |keys|
    requires group == Group(keys[..i], values[..i], key)
    ensures Group(keys[..i + 1], values[..i + 1], key)
            == if key != keys[i] || values[i] in group then group else group + [values[i]]
  {
    ValuesOfSnoc(keys, values, i, key);
    var before := ValuesOf(keys[..i], values[..i], key);
    if key != keys[i] {
      assert before + [] == before;
    } else {
      DedupSnoc(before, values[i]);
      DedupMembers(before);
    }
  }

  /** The group of a key that first occurs at step `i`. */
  lemma GroupStepNew<K, V>(keys: seq<K>, values: seq<V>, i: nat)
    requires |keys| == |values| && i < |keys| && keys[i] !in keys[..i]
    ensures Group(keys[..i + 1], values[..i + 1], keys[i]) == [values[i]]
  {
    ValuesOfSnoc(keys, values, i, keys[i]);
    ValuesOfAbsent(keys[..i], values[..i], keys[i]);
    assert ValuesOf(keys[..i + 1], values[..i + 1], keys[i]) == [values[i]];
    assert Dedup([values[i]]) == [values[i]];
  }

  /** Every key that occurs has a non-empty group. */
  lemma GroupIsNonEmpty<K, V>(keys: seq<K>, values: seq<V>, key: K)
    requires |keys| == |values| && key in keys
    ensures |Group(keys, values, key)| > 0
  {
    var k :| 0 <= k < |keys| && keys[k] == key;
    GroupMembers(keys, values, key, values[k]);
  }
}
