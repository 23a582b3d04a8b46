/** Ascending part listings: what a sorted listing must return, and a sort by index. */
module Listing {
  import opened Core

  predicate Ascending(q: seq<U32>) {
    forall i, j :: 0 <= i < j < |q| ==> q[i] < q[j]
  }

  /** The members of s below n, in ascending order. */
  function Below(s: set<U32>, n: nat): (q: seq<U32>)
    requires n <= U32_LIMIT
    ensures Ascending(q)
    ensures forall i :: i in q <==> i in s && i < n
  {
    if n == 0 then []
    else
      var smaller := Below(s, n - 1);
      assert forall i :: 0 <= i < |smaller| ==> smaller[i] in smaller;
      if n - 1 in s then smaller + [n - 1] else smaller
  }

  /** All members of s in ascending order. */
  function Sorted(s: set<U32>): (q: seq<U32>)
    ensures Ascending(q)
    ensures forall i :: i in q <==> i in s
  {
    Below(s, U32_LIMIT)
  }

  lemma FrontMembers(p: seq<U32>)
    requires Ascending(p) && p != []
    ensures var last := p[|p| - 1];
            && last in p && Ascending(p[..|p| - 1])
            && (forall i :: i in p ==> i <= last)
            && (forall i :: i in p[..|p| - 1] <==> i in p && i != last)
  {
    assert p == p[..|p| - 1] + [p[|p| - 1]];
  }

  /** A set has one ascending enumeration. */
  lemma {:induction false} AscendingUnique(p: seq<U32>, q: seq<U32>)
    requires Ascending(p) && Ascending(q)
    requires forall i :: i in p <==> i in q
    ensures p == q
  {
    assert p != [] ==> p[0] in p;
    assert q != [] ==> q[0] in q;
    if p != [] {
      assert p[0] in q;
      FrontMembers(p);
      FrontMembers(q);
      var a, b := p[|p| - 1], q[|q| - 1];
      assert a in q && b in p;
      assert a == b;
      var p', q' := p[..|p| - 1], q[..|q| - 1];
      forall i
        ensures i in p' <==> i in q'
      {
        assert i in p' <==> i in p && i != a;
        assert i in q' <==> i in q && i != b;
      }
      AscendingUnique(p', q');
      assert p == p' + [a] && q == q' + [b];
    }
  }

  /** The indices 0..k-1. */
  function UpTo(k: nat): (q: seq<U32>)
    requires k <= U32_LIMIT
    ensures |q| == k && Ascending(q)
    ensures forall i :: 0 <= i < k ==> q[i] == i
    ensures forall i :: i in q <==> 0 <= i < k
  {
    if k == 0 then [] else UpTo(k - 1) + [k - 1]
  }

  lemma SortedContiguous(s: set<U32>, k: nat)
    requires k <= U32_LIMIT
    requires forall i: U32 :: i in s <==> i < k
    ensures Sorted(s) == UpTo(k)
  {
    AscendingUnique(Sorted(s), UpTo(k));
  }

  datatype Indexed = Indexed(index: U32, name: string)

  predicate OrderedByIndex(xs: seq<Indexed>) {
    forall i, j :: 0 <= i < j < |xs| ==> xs[i].index <= xs[j].index
  }

  /** Puts one more element in its place. */
  method Insert(r: seq<Indexed>, x: Indexed) returns (r': seq<Indexed>)
    requires OrderedByIndex(r)
    ensures OrderedByIndex(r')
    ensures multiset(r') == multiset(r) + multiset{x}
  {
    var at := |r|;
    while at > 0 && x.index < r[at - 1].index
      invariant 0 <= at <= |r|
      invariant forall i :: at <= i < |r| ==> x.index < r[i].index
    {
      at := at - 1;
    }
    InsertOrdered(r, x, at);
    InsertKeeps(r, x, at);
    r' := r[..at] + [x] + r[at..];
  }

  lemma InsertKeeps(r: seq<Indexed>, x: Indexed, at: nat)
    requires at <= |r|
    ensures multiset(r[..at] + [x] + r[at..]) == multiset(r) + multiset{x}
  {
    assert r == r[..at] + r[at..];
  }

  lemma InsertOrdered(r: seq<Indexed>, x: Indexed, at: nat)
    requires OrderedByIndex(r) && at <= |r|
    requires at > 0 ==> r[at - 1].index <= x.index
    requires forall i :: at <= i < |r| ==> x.index < r[i].index
    ensures OrderedByIndex(r[..at] + [x] + r[at..])
  {
    var front, back := r[..at], r[at..];
    assert forall i :: 0 <= i < |front| ==> front[i].index <= x.index;
    assert forall i :: 0 <= i < |back| ==> x.index <= back[i].index;
    OrderedJoin(front, x, back);
  }

  lemma OrderedJoin(front: seq<Indexed>, x: Indexed, back: seq<Indexed>)
    requires OrderedByIndex(front) && OrderedByIndex(back)
    requires forall i :: 0 <= i < |front| ==> front[i].index <= x.index
    requires forall i :: 0 <= i < |back| ==> x.index <= back[i].index
    ensures OrderedByIndex(front + [x] + back)
  {
    var r := front + [x] + back;
    forall i, j | 0 <= i < j < |r|
      ensures r[i].index <= r[j].index
    {
      if i < |front| {
        assert r[i] == front[i];
      }
      if j > |front| {
        assert r[j] == back[j - |front| - 1];
      }
    }
  }

  /** Sorts by the numeric index, keeping every element. */
  method SortByIndex(xs: seq<Indexed>) returns (r: seq<Indexed>)
    ensures OrderedByIndex(r)
    ensures multiset(r) == multiset(xs)
  {
    r := [];
    for n := 0 to |xs|
      invariant OrderedByIndex(r)
      invariant multiset(r) == multiset(xs[..n])
    {
      assert xs[..n + 1] == xs[..n] + [xs[n]];
      r := Insert(r, xs[n]);
    }
    assert xs[..|xs|] == xs;
  }

  /** `r` holds exactly the given parts, each once under its own name, except those whose names are still in `rest`. */
  ghost predicate Collected(parts: set<U32>, nameOf: U32 -> string, r: seq<Indexed>, rest: set<string>) {
    && (forall e :: e in r ==> e.name == nameOf(e.index) && e.name !in rest && e.index in parts)
    && (forall e :: multiset(r)[e] <= 1)
    && (forall n :: n in parts && nameOf(n) !in rest ==> Indexed(n, nameOf(n)) in r)
  }

  lemma CollectStep(parts: set<U32>, nameOf: U32 -> string, r: seq<Indexed>, rest: set<string>, name: string,
                    index: Option<U32>)
    requires Collected(parts, nameOf, r, rest) && name in rest
    requires index.Some? ==> index.value in parts && nameOf(index.value) == name
    requires forall n :: n in parts && nameOf(n) == name ==> index == Some(n)
    ensures Collected(parts, nameOf, if index.Some? then r + [Indexed(index.value, name)] else r, rest - {name})
  {
    if index.Some? {
      assert Indexed(index.value, name) !in r;
    }
  }

  /** Sorting a collection without duplicates by index gives strictly ascending indices. */
  lemma SortedStrictly(r: seq<Indexed>, sorted: seq<Indexed>)
    requires forall e, e' :: e in r && e' in r && e.index == e'.index ==> e == e'
    requires forall e :: multiset(r)[e] <= 1
    requires OrderedByIndex(sorted) && multiset(sorted) == multiset(r)
    ensures forall i, j :: 0 <= i < j < |sorted| ==> sorted[i].index < sorted[j].index
  {
    forall i, j | 0 <= i < j < |sorted|
      ensures sorted[i].index < sorted[j].index
    {
      assert sorted[i] in multiset(sorted) && sorted[j] in multiset(sorted);
      if sorted[i] == sorted[j] {
        TwiceInMultiset(sorted, i, j);
      }
    }
  }

  function Indices(sorted: seq<Indexed>): seq<U32> {
    seq(|sorted|, i requires 0 <= i < |sorted| => sorted[i].index)
  }

  lemma IndicesMembers(r: seq<Indexed>, sorted: seq<Indexed>, e: Indexed)
    requires multiset(sorted) == multiset(r) && e in r
    ensures e.index in Indices(sorted)
  {
    assert e in multiset(r);
    var i :| 0 <= i < |sorted| && sorted[i] == e;
    assert Indices(sorted)[i] == e.index;
  }

  /** Sorting a complete collection by index lists the parts in ascending order. */
  lemma CollectedSorted(parts: set<U32>, nameOf: U32 -> string, r: seq<Indexed>, sorted: seq<Indexed>)
    requires Collected(parts, nameOf, r, {})
    requires OrderedByIndex(sorted) && multiset(sorted) == multiset(r)
    ensures Indices(sorted) == Sorted(parts)
    ensures forall i :: 0 <= i < |sorted| ==> sorted[i].name == nameOf(sorted[i].index)
  {
    forall i | 0 <= i < |sorted|
      ensures sorted[i] in r
    {
      assert sorted[i] in multiset(sorted);
    }
    SortedStrictly(r, sorted);
    forall n | n in parts
      ensures n in Indices(sorted)
    {
      IndicesMembers(r, sorted, Indexed(n, nameOf(n)));
    }
    assert forall n :: n in Indices(sorted) ==> n in parts;
    AscendingUnique(Indices(sorted), Sorted(parts));
  }

  lemma TwiceInMultiset(s: seq<Indexed>, i: nat, j: nat)
    requires i < j < |s| && s[i] == s[j]
    ensures multiset(s)[s[i]] >= 2
  {
    assert s == s[..i] + [s[i]] + s[i + 1..j] + [s[j]] + s[j + 1..];
  }
}
