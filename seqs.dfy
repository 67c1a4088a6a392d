/**
  Sequence operators standing for the LINQ operators the services are written with:
  `Where` (Filter), `Count` (the length of a Filter), `Sum` (Sum) and the stable
  `OrderBy` / `OrderByDescending` (SortBy, an insertion sort).
*/
module Seqs {

  /** `Where`: the elements that satisfy `p`, in their original order. */
  function Filter<T>(s: seq<T>, p: T -> bool): (r: seq<T>)
    ensures |r| <= |s|
    ensures forall i :: 0 <= i < |r| ==> r[i] in s && p(r[i])
    ensures forall i :: 0 <= i < |s| && p(s[i]) ==> s[i] in r
    decreases |s|
  {
    if s == [] then []
    else
      var init, last := s[..|s| - 1], s[|s| - 1];
      assert s == init + [last];
      Filter(init, p) + (if p(last) then [last] else [])
  }

  lemma {:induction false} FilterAppend<T>(a: seq<T>, b: seq<T>, p: T -> bool)
    ensures Filter(a + b, p) == Filter(a, p) + Filter(b, p)
    decreases |b|
  {
    if b == [] {
      assert a + b == a;
    } else {
      var init, last := b[..|b| - 1], b[|b| - 1];
      assert (a + b)[..|a + b| - 1] == a + init;
      FilterAppend(a, init, p);
    }
  }

  /** Replacing one element changes a filtered count by what leaves and what arrives. */
  lemma FilterUpdateCount<T>(s: seq<T>, k: nat, x: T, p: T -> bool)
    requires k < |s|
    ensures |Filter(s[k := x], p)| == |Filter(s, p)| - (if p(s[k]) then 1 else 0) + (if p(x) then 1 else 0)
  {
    var before, after := s[..k], s[k + 1..];
    assert s == before + [s[k]] + after;
    assert s[k := x] == before + [x] + after;
    FilterAppend(before + [s[k]], after, p);
    FilterAppend(before, [s[k]], p);
    FilterAppend(before + [x], after, p);
    FilterAppend(before, [x], p);
    assert [x][..0] == [] && [s[k]][..0] == [];
  }

  /** Filtering keeps every element's multiplicity among the elements that pass. */
  lemma {:induction false} FilterMultiset<T>(s: seq<T>, p: T -> bool, x: T)
    ensures multiset(Filter(s, p))[x] == if p(x) then multiset(s)[x] else 0
    decreases |s|
  {
    if s != [] {
      var init, last := s[..|s| - 1], s[|s| - 1];
      assert s == init + [last];
      FilterMultiset(init, p, x);
    }
  }

  /** `Sum` of a real-valued selector. */
  function Sum<T>(s: seq<T>, w: T -> real): real
    decreases |s|
  {
    if s == [] then 0.0 else Sum(s[..|s| - 1], w) + w(s[|s| - 1])
  }

  lemma {:induction false} SumAppend<T>(a: seq<T>, b: seq<T>, w: T -> real)
    ensures Sum(a + b, w) == Sum(a, w) + Sum(b, w)
    decreases |b|
  {
    if b == [] {
      assert a + b == a;
    } else {
      var init := b[..|b| - 1];
      assert (a + b)[..|a + b| - 1] == a + init;
      SumAppend(a, init, w);
    }
  }

  /** A sum depends only on the multiset of the summed elements, not on their order. */
  lemma {:induction false} SumOfPermutation<T>(a: seq<T>, b: seq<T>, w: T -> real)
    requires multiset(a) == multiset(b)
    ensures Sum(a, w) == Sum(b, w)
    decreases |a|
  {
    if a != [] {
      var init, x := a[..|a| - 1], a[|a| - 1];
      assert a == init + [x];
      assert x in multiset(b);
      var k :| 0 <= k < |b| && b[k] == x;
      MultisetRemove(b, k);
      assert multiset(a) == multiset(init) + multiset{x};
      assert multiset(init) == multiset(a) - multiset{x};
      assert multiset(b[..k] + b[k + 1..]) == multiset(b) - multiset{x};
      SumOfPermutation(init, b[..k] + b[k + 1..], w);
      SumSplit(b, k, w);
      assert Sum(a, w) == Sum(init, w) + w(x);
    }
  }

  /** Taking one element out of a sequence takes it out of the multiset. */
  lemma MultisetRemove<T>(b: seq<T>, k: nat)
    requires k < |b|
    ensures multiset(b) == multiset(b[..k] + b[k + 1..]) + multiset{b[k]}
  {
    var b1, b2 := b[..k], b[k + 1..];
    assert b == b1 + [b[k]] + b2;
    assert multiset(b) == multiset(b1) + multiset{b[k]} + multiset(b2);
    assert multiset(b1 + b2) == multiset(b1) + multiset(b2);
  }

  /** Taking one element out of a sequence takes its weight out of the sum. */
  lemma SumSplit<T>(b: seq<T>, k: nat, w: T -> real)
    requires k < |b|
    ensures Sum(b, w) == Sum(b[..k] + b[k + 1..], w) + w(b[k])
  {
    var b1, b2, x := b[..k], b[k + 1..], b[k];
    assert b == (b1 + [x]) + b2;
    SumAppend(b1, b2, w);
    SumAppend(b1 + [x], b2, w);
    SumAppend(b1, [x], w);
    assert Sum([x], w) == w(x) by { assert [x][..0] == []; }
  }

  /** `a` comes no later than `b` in ascending (or, with `descending`, descending) order. */
  predicate InOrder(a: real, b: real, descending: bool) {
    if descending then a >= b else a <= b
  }

  /** Every pair of elements is in order of `key`. */
  predicate SortedBy<T>(s: seq<T>, key: T -> real, descending: bool) {
    forall i, j :: 0 <= i < j < |s| ==> InOrder(key(s[i]), key(s[j]), descending)
  }

  lemma AppendAssociates<T>(a: seq<T>, b: seq<T>, c: seq<T>)
    ensures a + (b + c) == (a + b) + c
  {
  }

  /** A sequence whose keys mirror those of a sorted sequence, position by position, is sorted too. */
  lemma SortedByImage<T, U>(s: seq<T>, t: seq<U>, f: T -> real, g: U -> real, descending: bool)
    requires |s| == |t| && SortedBy(t, g, descending)
    requires forall i :: 0 <= i < |s| ==> f(s[i]) == g(t[i])
    ensures SortedBy(s, f, descending)
  {
    forall i, j | 0 <= i < j < |s| ensures InOrder(f(s[i]), f(s[j]), descending) {
      assert InOrder(g(t[i]), g(t[j]), descending);
    }
  }

  /**
    Inserts `x` into a sorted sequence after every element whose key is not strictly
    behind `x`'s, so that elements with equal keys keep their arrival order.
  */
  function InsertBy<T>(x: T, s: seq<T>, key: T -> real, descending: bool): (r: seq<T>)
    ensures multiset(r) == multiset(s) + multiset{x}
    ensures |r| == |s| + 1
  {
    if s == [] then [x]
    else if InOrder(key(x), key(s[0]), descending) && key(x) != key(s[0]) then [x] + s
    else
      assert s == [s[0]] + s[1..];
      [s[0]] + InsertBy(x, s[1..], key, descending)
  }

  lemma {:induction false} InsertBySorted<T>(x: T, s: seq<T>, key: T -> real, descending: bool)
    requires SortedBy(s, key, descending)
    ensures SortedBy(InsertBy(x, s, key, descending), key, descending)
    decreases |s|
  {
    if s != [] && !(InOrder(key(x), key(s[0]), descending) && key(x) != key(s[0])) {
      var rest := InsertBy(x, s[1..], key, descending);
      assert SortedBy(s[1..], key, descending) by {
        forall i, j | 0 <= i < j < |s[1..]|
          ensures InOrder(key(s[1..][i]), key(s[1..][j]), descending)
        {
          assert s[1..][i] == s[i + 1] && s[1..][j] == s[j + 1];
        }
      }
      InsertBySorted(x, s[1..], key, descending);
      var r := [s[0]] + rest;
      forall j | 0 < j < |r| ensures InOrder(key(s[0]), key(r[j]), descending) {
        assert r[j] == rest[j - 1];
        InsertByMember(x, s[1..], key, descending, j - 1);
        if r[j] != x {
          var k :| 0 <= k < |s[1..]| && s[1..][k] == r[j];
          assert s[k + 1] == r[j];
        }
      }
    }
  }

  /** Every element of an insertion is the inserted one or one of the sequence's. */
  lemma InsertByMember<T>(x: T, s: seq<T>, key: T -> real, descending: bool, j: nat)
    requires j < |InsertBy(x, s, key, descending)|
    ensures InsertBy(x, s, key, descending)[j] == x || InsertBy(x, s, key, descending)[j] in s
  {
    var r := InsertBy(x, s, key, descending);
    assert r[j] in multiset(r);
    if r[j] != x {
      assert r[j] in multiset(s);
    }
  }

  /** Stable `OrderBy` (or `OrderByDescending`) on `key`. */
  function SortBy<T>(s: seq<T>, key: T -> real, descending: bool): (r: seq<T>)
    ensures multiset(r) == multiset(s)
    ensures |r| == |s|
    decreases |s|
  {
    if s == [] then []
    else
      var init, last := s[..|s| - 1], s[|s| - 1];
      assert s == init + [last];
      InsertBy(last, SortBy(init, key, descending), key, descending)
  }

  lemma {:induction false} SortBySorted<T>(s: seq<T>, key: T -> real, descending: bool)
    ensures SortedBy(SortBy(s, key, descending), key, descending)
    decreases |s|
  {
    if s != [] {
      SortBySorted(s[..|s| - 1], key, descending);
      InsertBySorted(s[|s| - 1], SortBy(s[..|s| - 1], key, descending), key, descending);
    }
  }

  /** What an ordered query promises: exactly the elements of `s`, ordered by `key`. */
  lemma SortByMembers<T>(s: seq<T>, key: T -> real, descending: bool, x: T)
    ensures x in SortBy(s, key, descending) <==> x in s
    ensures SortedBy(SortBy(s, key, descending), key, descending)
  {
    SortBySorted(s, key, descending);
    var r := SortBy(s, key, descending);
    assert x in r <==> x in multiset(r);
  }

  /** No value occurs twice. */
  predicate Distinct<T(==)>(s: seq<T>) {
    forall i, j :: 0 <= i < j < |s| ==> s[i] != s[j]
  }

  /** In a sequence without repetitions every value occurs at most once. */
  lemma {:induction false} DistinctMultiplicity<T>(s: seq<T>, x: T)
    requires Distinct(s)
    ensures multiset(s)[x] <= 1
    decreases |s|
  {
    if s != [] {
      var init, last := s[..|s| - 1], s[|s| - 1];
      assert s == init + [last];
      DistinctMultiplicity(init, x);
      if last == x {
        assert x !in init;
      }
    }
  }

  /** A reordering has the same members. */
  lemma SameMembers<T>(a: seq<T>, b: seq<T>)
    requires multiset(a) == multiset(b)
    ensures forall x :: x in a <==> x in b
  {
    assert forall x :: x in a <==> x in multiset(a);
    assert forall x :: x in b <==> x in multiset(b);
  }

  /** Reordering a sequence without repetitions leaves it without repetitions. */
  lemma DistinctPermutation<T>(a: seq<T>, b: seq<T>)
    requires multiset(a) == multiset(b) && Distinct(a)
    ensures Distinct(b)
  {
    forall i, j | 0 <= i < j < |b| ensures b[i] != b[j] {
      DistinctMultiplicity(a, b[i]);
      if b[i] == b[j] {
        RepeatedMultiplicity(b, i, j);
      }
    }
  }

  /** A value found at two positions occurs at least twice. */
  lemma RepeatedMultiplicity<T>(b: seq<T>, i: nat, j: nat)
    requires i < j < |b| && b[i] == b[j]
    ensures multiset(b)[b[i]] >= 2
  {
    var x := b[j];
    assert b == b[..j] + [x] + b[j + 1..];
    assert b[..j][i] == x;
    assert x in multiset(b[..j]);
    assert multiset(b) == multiset(b[..j]) + multiset{x} + multiset(b[j + 1..]);
  }

  /** The elements whose `key` is `k`. */
  function HasKey<T, K(==)>(key: T -> K, k: K): T -> bool {
    (x: T) => key(x) == k
  }

  /** The keys of `GroupBy`: every key of `s` once, in order of first occurrence. */
  function Keys<T, K(==,!new)>(s: seq<T>, key: T -> K): (ks: seq<K>)
    ensures Distinct(ks)
    ensures forall k :: k in ks <==> exists i :: 0 <= i < |s| && key(s[i]) == k
    decreases |s|
  {
    if s == [] then []
    else
      var init, last := s[..|s| - 1], s[|s| - 1];
      var before := Keys(init, key);
      assert forall i :: 0 <= i < |init| ==> init[i] == s[i];
      if key(last) in before then before else before + [key(last)]
  }

  /** The weight of each group: the total of `w` over the elements with that key. */
  function GroupWeight<T, K(==)>(s: seq<T>, key: T -> K, w: T -> real): K -> real {
    (k: K) => Sum(Filter(s, HasKey(key, k)), w)
  }

  /** Appending an element adds its weight to its own group and to no other. */
  lemma GroupWeightsSnoc<T, K>(s: seq<T>, x: T, key: T -> K, ks: seq<K>, w: T -> real)
    requires Distinct(ks)
    ensures Sum(ks, GroupWeight(s + [x], key, w)) == Sum(ks, GroupWeight(s, key, w)) + (if key(x) in ks then w(x) else 0.0)
  {
    var after, before := GroupWeight(s + [x], key, w), GroupWeight(s, key, w);
    forall k ensures after(k) == before(k) + (if k == key(x) then w(x) else 0.0) {
      GroupWeightSnoc(s, x, key, k, w);
    }
    SumRaisedAtOneKey(ks, before, after, key(x), w(x));
  }

  /**
    Raising a function at one key raises its total over distinct keys by the same amount
    when that key is among them, and leaves the total alone otherwise.
  */
  lemma {:induction false} SumRaisedAtOneKey<K>(ks: seq<K>, f: K -> real, g: K -> real, k0: K, d: real)
    requires Distinct(ks)
    requires forall k :: g(k) == f(k) + (if k == k0 then d else 0.0)
    ensures Sum(ks, g) == Sum(ks, f) + (if k0 in ks then d else 0.0)
    decreases |ks|
  {
    if ks != [] {
      var init, k := ks[..|ks| - 1], ks[|ks| - 1];
      assert ks == init + [k];
      assert Distinct(init) by {
        assert forall i :: 0 <= i < |init| ==> init[i] == ks[i];
      }
      SumRaisedAtOneKey(init, f, g, k0, d);
      assert k0 == k ==> k0 !in init by {
        assert forall i :: 0 <= i < |init| ==> init[i] == ks[i];
      }
    }
  }

  /** Appending an element adds its weight to the group of its key only. */
  lemma GroupWeightSnoc<T, K>(s: seq<T>, x: T, key: T -> K, k: K, w: T -> real)
    ensures GroupWeight(s + [x], key, w)(k) == GroupWeight(s, key, w)(k) + (if key(x) == k then w(x) else 0.0)
  {
    var p := HasKey(key, k);
    FilterAppend(s, [x], p);
    assert [x][..0] == [];
    assert Filter([x], p) == (if p(x) then [x] else []);
    SumAppend(Filter(s, p), Filter([x], p), w);
    assert Sum([x], w) == w(x) by {
      assert Sum([x], w) == Sum([x][..0], w) + w(x);
    }
  }

  /** The group weights add up to the weight of the whole sequence. */
  lemma {:induction false} GroupWeightsAddUp<T, K(!new)>(s: seq<T>, key: T -> K, w: T -> real)
    ensures Sum(Keys(s, key), GroupWeight(s, key, w)) == Sum(s, w)
    decreases |s|
  {
    if s != [] {
      var init, x := s[..|s| - 1], s[|s| - 1];
      assert s == init + [x];
      GroupWeightsAddUp(init, key, w);
      var ks := Keys(init, key);
      GroupWeightsSnoc(init, x, key, ks, w);
      if key(x) !in ks {
        NewGroupWeight(init, x, key, w);
        var all := ks + [key(x)];
        assert all[..|ks|] == ks;
        assert Keys(s, key) == all;
        calc {
          Sum(all, GroupWeight(s, key, w));
          Sum(ks, GroupWeight(s, key, w)) + GroupWeight(s, key, w)(key(x));
          Sum(init, w) + w(x);
        }
      }
    }
  }

  /** An element whose key is new forms a group of its own. */
  lemma NewGroupWeight<T, K(!new)>(init: seq<T>, x: T, key: T -> K, w: T -> real)
    requires key(x) !in Keys(init, key)
    ensures GroupWeight(init + [x], key, w)(key(x)) == w(x)
  {
    var p := HasKey(key, key(x));
    FilterAppend(init, [x], p);
    var none := Filter(init, p);
    assert forall y :: y in init ==> !p(y);
    assert none == [];
    assert [x][..0] == [];
    assert Filter(init + [x], p) == [x];
    assert Sum([x], w) == Sum([x][..0], w) + w(x);
  }

  /** Every element weighs one. */
  function One<T>(): T -> real {
    (x: T) => 1.0
  }

  /** A sum of ones counts the elements. */
  lemma {:induction false} SumOfOnes<T>(s: seq<T>)
    ensures Sum(s, One()) == |s| as real
    decreases |s|
  {
    if s != [] {
      SumOfOnes(s[..|s| - 1]);
    }
  }

  /** The distinct elements of a sequence. */
  function Elements<T>(s: seq<T>): set<T> {
    set x | x in s
  }

  /** The distinct values `f` takes on `a`: `Select(f).Distinct()`. */
  function Image<T, U>(a: set<T>, f: T -> U): set<U> {
    set x | x in a :: f(x)
  }

  /** A function maps a finite set onto at most as many values. */
  lemma {:induction false} ImageOfSetBound<T, U>(a: set<T>, f: T -> U)
    ensures |Image(a, f)| <= |a|
    decreases |a|
  {
    if a != {} {
      var y :| y in a;
      var rest := a - {y};
      ImageOfSetBound(rest, f);
      assert Image(a, f) == Image(rest, f) + {f(y)};
    }
  }

  /** A sequence has at most as many distinct elements as it has elements. */
  lemma {:induction false} ElementsBound<T>(s: seq<T>)
    ensures |Elements(s)| <= |s|
    decreases |s|
  {
    if s != [] {
      var init := s[..|s| - 1];
      assert s == init + [s[|s| - 1]];
      ElementsBound(init);
      assert Elements(s) == Elements(init) + {s[|s| - 1]};
    }
  }

  /** A subset is no larger than its superset. */
  lemma {:induction false} SubsetBound<T>(a: set<T>, b: set<T>)
    requires a <= b
    ensures |a| <= |b|
    decreases |b|
  {
    if b != {} {
      var y :| y in b;
      SubsetBound(a - {y}, b - {y});
    }
  }

  /** A sequence without repetitions has as many distinct elements as elements. */
  lemma {:induction false} DistinctElements<T>(s: seq<T>)
    requires Distinct(s)
    ensures |Elements(s)| == |s|
    decreases |s|
  {
    if s != [] {
      var init, last := s[..|s| - 1], s[|s| - 1];
      assert s == init + [last];
      DistinctElements(init);
      assert last !in init;
      assert Elements(s) == Elements(init) + {last};
    }
  }

  /** `GroupBy` makes as many groups as `Select(key).Distinct()` finds values. */
  lemma KeysCount<T, K(!new)>(s: seq<T>, key: T -> K)
    ensures |Keys(s, key)| == |Image(Elements(s), key)|
  {
    var ks := Keys(s, key);
    forall k ensures k in Elements(ks) <==> k in Image(Elements(s), key) {
      if k in Image(Elements(s), key) {
        var x :| x in Elements(s) && key(x) == k;
        var i :| 0 <= i < |s| && s[i] == x;
        assert key(s[i]) == k;
      }
    }
    assert Elements(ks) == Image(Elements(s), key);
    DistinctElements(ks);
  }
}
