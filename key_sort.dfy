/**
 * Collecting the keys of a map into a vector and sorting that vector in
 * place by stripped key: `keys().collect()` followed by `sort_by_key`.
 * The collection order is whatever the hash map yields, so it is left
 * unspecified; only the multiset of collected keys is fixed.
 */
module KeySort {
  import opened KeyOrder

  /** `s` lists every key of `keys` exactly once, in some order. */
  ghost predicate Enumerates(s: seq<string>, keys: set<string>) {
    multiset(s) == multiset(keys)
  }

  /** Ascending by stripped key; ties may come in either order. */
  ghost predicate SortedByKey(s: seq<string>) {
    forall i, j {:trigger KeyLe(s[i], s[j])} :: 0 <= i < j < |s| ==> KeyLe(s[i], s[j])
  }

  /** No two keys of `keys` share a stripped key, so sorting them leaves no tie. */
  ghost predicate NoTies(keys: set<string>) {
    forall x, y :: x in keys && y in keys && StripKey(x) == StripKey(y) ==> x == y
  }

  lemma EnumeratesMembers(s: seq<string>, keys: set<string>)
    requires Enumerates(s, keys)
    ensures |s| == |keys|
    ensures forall i :: 0 <= i < |s| ==> s[i] in keys
    ensures forall x :: x in keys ==> x in multiset(s)
  {
    assert |multiset(s)| == |s|;
    assert |multiset(keys)| == |keys|;
    forall i | 0 <= i < |s|
      ensures s[i] in keys
    {
      assert s[i] in multiset(s);
    }
  }

  lemma {:induction false} AdjacentToSorted(s: seq<string>)
    requires InOrderBelow(s, |s|, 0)
    ensures SortedByKey(s)
    decreases |s|
  {
    if |s| >= 2 {
      var init := s[..|s| - 1];
      AdjacentToSorted(init);
      forall i | 0 <= i < |s| - 2
        ensures KeyLe(s[i], s[|s| - 1])
      {
        assert KeyLe(init[i], init[|s| - 2]);
        KeyLeTransitive(s[i], s[|s| - 2], s[|s| - 1]);
      }
    }
  }

  /** Some key of a non-empty set sorts no later than any other. */
  lemma {:induction false} MinimumExists(keys: set<string>)
    requires keys != {}
    ensures exists x :: x in keys && forall y :: y in keys ==> KeyLe(x, y)
    decreases keys
  {
    var z :| z in keys;
    var rest := keys - {z};
    if rest == {} {
      assert keys == {z};
      KeyLeReflexive(z);
      assert forall y :: y in keys ==> KeyLe(z, y);
    } else {
      MinimumExists(rest);
      var m :| m in rest && forall y :: y in rest ==> KeyLe(m, y);
      KeyLeReflexive(z);
      if KeyLe(z, m) {
        forall y | y in keys
          ensures KeyLe(z, y)
        {
          if y != z {
            KeyLeTransitive(z, m, y);
          }
        }
      } else {
        KeyLeTotal(z, m);
        assert forall y :: y in keys ==> KeyLe(m, y);
      }
    }
  }

  /**
   * The sorted order of a set of keys, built by repeatedly taking a key
   * that sorts first. When the set has ties the choice among them is
   * arbitrary; without ties it is the only sorted order (SortedIsUnique).
   */
  ghost function SortedKeys(keys: set<string>): (r: seq<string>)
    ensures Enumerates(r, keys) && SortedByKey(r)
    decreases keys
  {
    if keys == {} then []
    else
      MinimumExists(keys);
      var x :| x in keys && forall y :: y in keys ==> KeyLe(x, y);
      var tail := SortedKeys(keys - {x});
      PrependMinimum(x, tail, keys);
      [x] + tail
  }

  /** Removing one key from a set removes one occurrence from its multiset. */
  lemma MultisetRemove(keys: set<string>, x: string)
    requires x in keys
    ensures multiset(keys) == multiset(keys - {x}) + multiset{x}
  {
    var rest := keys - {x};
    forall y
      ensures multiset(keys)[y] == (multiset(rest) + multiset{x})[y]
    {
      if y == x {
        assert y !in rest;
      }
    }
  }

  /** A key sorting no later than every key of a sorted sequence can go in front of it. */
  lemma PrependSorted(x: string, tail: seq<string>)
    requires SortedByKey(tail)
    requires forall k :: 0 <= k < |tail| ==> KeyLe(x, tail[k])
    ensures SortedByKey([x] + tail)
  {
    var r := [x] + tail;
    forall i, j | 0 <= i < j < |r|
      ensures KeyLe(r[i], r[j])
    {
      assert r[j] == tail[j - 1];
      if i > 0 {
        assert r[i] == tail[i - 1];
      }
    }
  }

  /** Putting a key that sorts first in front of a sorted enumeration of the rest. */
  lemma PrependMinimum(x: string, tail: seq<string>, keys: set<string>)
    requires x in keys && forall y :: y in keys ==> KeyLe(x, y)
    requires Enumerates(tail, keys - {x}) && SortedByKey(tail)
    ensures Enumerates([x] + tail, keys) && SortedByKey([x] + tail)
  {
    EnumeratesMembers(tail, keys - {x});
    MultisetRemove(keys, x);
    assert multiset([x] + tail) == multiset{x} + multiset(tail);
    PrependSorted(x, tail);
  }

  /** The first key of a sorted enumeration sorts no later than any key. */
  lemma HeadIsMinimum(s: seq<string>, keys: set<string>)
    requires Enumerates(s, keys) && SortedByKey(s) && s != []
    ensures s[0] in keys
    ensures forall y :: y in keys ==> KeyLe(s[0], y)
  {
    assert s[0] in multiset(s);
    forall y | y in keys
      ensures KeyLe(s[0], y)
    {
      assert y in multiset(s);
      var k :| 0 <= k < |s| && s[k] == y;
      if k == 0 {
        KeyLeReflexive(y);
      } else {
        assert KeyLe(s[0], s[k]);
      }
    }
  }

  /** Dropping the head of a sorted enumeration enumerates the other keys, still sorted. */
  lemma DropHead(s: seq<string>, keys: set<string>)
    requires Enumerates(s, keys) && SortedByKey(s) && s != []
    ensures s[0] in keys
    ensures Enumerates(s[1..], keys - {s[0]}) && SortedByKey(s[1..])
  {
    assert s[0] in multiset(s);
    MultisetRemove(keys, s[0]);
    assert s == [s[0]] + s[1..];
    assert multiset(s) == multiset{s[0]} + multiset(s[1..]);
    forall y
      ensures multiset(s[1..])[y] == multiset(keys - {s[0]})[y]
    {
      assert multiset(s)[y] == multiset{s[0]}[y] + multiset(s[1..])[y];
      assert multiset(keys)[y] == multiset(keys - {s[0]})[y] + multiset{s[0]}[y];
    }
    var t := s[1..];
    forall i, j | 0 <= i < j < |t|
      ensures KeyLe(t[i], t[j])
    {
      assert t[i] == s[i + 1] && t[j] == s[j + 1];
    }
  }

  /** Without ties, two sorted enumerations of the same keys are equal. */
  lemma {:induction false} SortedIsUnique(s1: seq<string>, s2: seq<string>, keys: set<string>)
    requires Enumerates(s1, keys) && SortedByKey(s1)
    requires Enumerates(s2, keys) && SortedByKey(s2)
    requires NoTies(keys)
    ensures s1 == s2
    decreases |s1|
  {
    EnumeratesMembers(s1, keys);
    EnumeratesMembers(s2, keys);
    if s1 != [] {
      HeadIsMinimum(s1, keys);
      HeadIsMinimum(s2, keys);
      KeyLeTie(s1[0], s2[0]);
      assert s1[0] == s2[0];
      DropHead(s1, keys);
      DropHead(s2, keys);
      SortedIsUnique(s1[1..], s2[1..], keys - {s1[0]});
      assert s1 == [s1[0]] + s1[1..] && s2 == [s2[0]] + s2[1..];
    }
  }

  /** `m.keys().collect()`: the keys of `m` in an unspecified order. */
  method CollectKeys<V>(m: map<string, V>) returns (a: array<string>)
    ensures fresh(a) && Enumerates(a[..], m.Keys)
  {
    a := new string[|m|];
    var todo := m.Keys;
    var i := 0;
    while todo != {}
      invariant todo <= m.Keys
      invariant i + |todo| == a.Length
      invariant multiset(a[..i]) == multiset(m.Keys - todo)
      decreases |todo|
    {
      var k :| k in todo;
      a[i] := k;
      assert a[..i + 1] == a[..i] + [k];
      assert multiset(m.Keys - (todo - {k})) == multiset(m.Keys - todo) + multiset{k};
      todo := todo - {k};
      i := i + 1;
    }
    assert a[..i] == a[..];
  }

  /** The labels of `s` before index `hi` are in order pairwise-adjacently, except across `gap`. */
  ghost predicate InOrderBelow(s: seq<string>, hi: int, gap: int) {
    forall p :: 0 < p < hi && p < |s| && p != gap ==> KeyLe(s[p - 1], s[p])
  }

  method Swap(a: array<string>, j: int)
    requires 0 < j < a.Length
    modifies a
    ensures a[..] == old(a[..])[j - 1 := old(a[j])][j := old(a[j - 1])]
    ensures multiset(a[..]) == old(multiset(a[..]))
  {
    a[j - 1], a[j] := a[j], a[j - 1];
  }

  /** One pass of insertion: moves `a[i]` left until it sorts no earlier than its left neighbour. */
  method InsertAt(a: array<string>, i: int)
    requires 0 < i < a.Length
    requires InOrderBelow(a[..], i, 0)
    modifies a
    ensures InOrderBelow(a[..], i + 1, 0)
    ensures multiset(a[..]) == old(multiset(a[..]))
    ensures a[i + 1..] == old(a[i + 1..])
  {
    var j := i;
    while j > 0 && !LexLe(StripKey(a[j - 1]), StripKey(a[j]))
      invariant 0 <= j <= i
      invariant InOrderBelow(a[..], i + 1, j)
      invariant 0 < j < i ==> KeyLe(a[j - 1], a[j + 1])
      invariant multiset(a[..]) == old(multiset(a[..]))
      invariant a[i + 1..] == old(a[i + 1..])
    {
      KeyLeStripped(a[j - 1], a[j]);
      KeyLeTotal(a[j - 1], a[j]);
      Swap(a, j);
      j := j - 1;
    }
    if j > 0 {
      KeyLeStripped(a[j - 1], a[j]);
    }
  }

  /**
   * `sort_by_key` on the stripped key, as an insertion sort by adjacent
   * swaps. The library's algorithm is not modelled, only its outcome:
   * sorted by stripped key and a permutation of the input.
   */
  method SortByKey(a: array<string>)
    modifies a
    ensures SortedByKey(a[..])
    ensures multiset(a[..]) == old(multiset(a[..]))
  {
    var i := 1;
    while i < a.Length
      invariant InOrderBelow(a[..], i, 0)
      invariant multiset(a[..]) == old(multiset(a[..]))
    {
      InsertAt(a, i);
      i := i + 1;
    }
    AdjacentToSorted(a[..]);
  }
}
