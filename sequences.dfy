/** `Array.prototype.filter` and `Array.prototype.sort` with a comparator,
    the two library calls the apps use on their lists. The sort is specified
    by a stable insertion sort: ECMAScript requires `sort` to be stable, and
    every stable sort by the same comparator gives this result. */
module Sequences {

  /** `s.filter(p)`. */
  function Filter<T>(s: seq<T>, p: T -> bool): (r: seq<T>)
    ensures |r| <= |s|
    ensures forall i :: 0 <= i < |r| ==> p(r[i])
  {
    if s == [] then []
    else if p(s[|s| - 1]) then Filter(s[..|s| - 1], p) + [s[|s| - 1]]
    else Filter(s[..|s| - 1], p)
  }

  /** Filters by two tests that agree on every element keep the same
      elements. */
  lemma {:induction false} FilterSame<T>(s: seq<T>, p: T -> bool, q: T -> bool)
    requires forall i :: 0 <= i < |s| ==> p(s[i]) == q(s[i])
    ensures Filter(s, p) == Filter(s, q)
  {
    if s != [] {
      FilterSame(s[..|s| - 1], p, q);
    }
  }

  /** The filter keeps exactly the elements of `s` that pass. */
  lemma {:induction false} FilterMembers<T>(s: seq<T>, p: T -> bool, x: T)
    ensures x in Filter(s, p) <==> x in s && p(x)
  {
    if s != [] {
      FilterMembers(s[..|s| - 1], p, x);
      assert s == s[..|s| - 1] + [s[|s| - 1]];
    }
  }

  /** Filtering keeps the order: filtering a concatenation concatenates the
      filtered halves. */
  lemma {:induction false} FilterAppend<T>(a: seq<T>, b: seq<T>, p: T -> bool)
    ensures Filter(a + b, p) == Filter(a, p) + Filter(b, p)
  {
    if b != [] {
      assert (a + b)[..|a + b| - 1] == a + b[..|b| - 1];
      FilterAppend(a, b[..|b| - 1], p);
    } else {
      assert a + b == a;
    }
  }

  /** Filtering keeps every element that passes, as often as it occurs. */
  lemma {:induction false} FilterMultiset<T>(s: seq<T>, p: T -> bool, x: T)
    ensures multiset(Filter(s, p))[x] == if p(x) then multiset(s)[x] else 0
  {
    if s != [] {
      FilterMultiset(s[..|s| - 1], p, x);
      assert s == s[..|s| - 1] + [s[|s| - 1]];
    }
  }

  lemma FilterSingleton<T>(x: T, p: T -> bool)
    ensures Filter([x], p) == if p(x) then [x] else []
  {
    assert [x][..0] == [];
  }

  /** A filter that no element passes leaves nothing. */
  lemma FilterNone<T>(s: seq<T>, p: T -> bool)
    requires forall i :: 0 <= i < |s| ==> !p(s[i])
    ensures Filter(s, p) == []
  {
  }

  /** A filter that every element passes changes nothing. */
  lemma {:induction false} FilterAll<T>(s: seq<T>, p: T -> bool)
    requires forall i :: 0 <= i < |s| ==> p(s[i])
    ensures Filter(s, p) == s
  {
    if s != [] {
      FilterAll(s[..|s| - 1], p);
    }
  }

  /** `s.map(f)`. */
  function Map<A, B>(s: seq<A>, f: A -> B): seq<B> {
    if s == [] then [] else Map(s[..|s| - 1], f) + [f(s[|s| - 1])]
  }

  /** The mapped list has one element per element of `s`, in order. */
  lemma {:induction false} MapIndex<A, B>(s: seq<A>, f: A -> B)
    ensures |Map(s, f)| == |s|
    ensures forall i :: 0 <= i < |s| ==> Map(s, f)[i] == f(s[i])
  {
    if s != [] {
      var init := s[..|s| - 1];
      MapIndex(init, f);
      assert forall i :: 0 <= i < |init| ==> s[i] == init[i];
    }
  }

  /** The concatenation of `f(x)` for each `x` of `s`, in order: what a
      `forEach` over `s` pushes when visiting `x` pushes `f(x)`. */
  function FlatMap<A, B>(s: seq<A>, f: A -> seq<B>): seq<B> {
    if s == [] then [] else FlatMap(s[..|s| - 1], f) + f(s[|s| - 1])
  }

  /** An element is pushed exactly when some visit pushes it. */
  lemma {:induction false} FlatMapMembers<A, B>(s: seq<A>, f: A -> seq<B>, y: B)
    ensures y in FlatMap(s, f) <==> exists i :: 0 <= i < |s| && y in f(s[i])
  {
    if s != [] {
      var init := s[..|s| - 1];
      FlatMapMembers(init, f, y);
      assert forall i :: 0 <= i < |init| ==> s[i] == init[i];
    }
  }

  /** `le(a, b)` holds when `a` may stand before `b`, i.e. the comparator
      returns a non-positive number. A comparator that `sort` can use
      consistently is total and transitive. */
  ghost predicate TotalPreorder<T(!new)>(le: (T, T) -> bool) {
    && (forall a, b :: le(a, b) || le(b, a))
    && (forall a, b, c :: le(a, b) && le(b, c) ==> le(a, c))
  }

  predicate SortedBy<T>(s: seq<T>, le: (T, T) -> bool) {
    forall i, j :: 0 <= i < j < |s| ==> le(s[i], s[j])
  }

  /** `x` placed into `s` right after the last element that may precede it. */
  function Insert<T>(x: T, s: seq<T>, le: (T, T) -> bool): (r: seq<T>)
    ensures multiset(r) == multiset(s) + multiset{x}
  {
    if s == [] || le(s[|s| - 1], x) then s + [x]
    else
      var r := Insert(x, s[..|s| - 1], le) + [s[|s| - 1]];
      assert s == s[..|s| - 1] + [s[|s| - 1]];
      r
  }

  /** `s.sort(cmp)` where `le(a, b) == (cmp(a, b) <= 0)`. */
  function Sort<T>(s: seq<T>, le: (T, T) -> bool): (r: seq<T>)
    ensures multiset(r) == multiset(s)
  {
    if s == [] then []
    else
      assert s == s[..|s| - 1] + [s[|s| - 1]];
      Insert(s[|s| - 1], Sort(s[..|s| - 1], le), le)
  }

  lemma {:induction false} InsertSorted<T(!new)>(x: T, s: seq<T>, le: (T, T) -> bool)
    requires TotalPreorder(le)
    requires SortedBy(s, le)
    ensures SortedBy(Insert(x, s, le), le)
  {
    if s == [] || le(s[|s| - 1], x) {
    } else {
      var last := s[|s| - 1];
      var init := s[..|s| - 1];
      InsertSorted(x, init, le);
      var ins := Insert(x, init, le);
      assert le(x, last);
      forall y | y in ins ensures le(y, last) {
        assert y in multiset(ins);
        assert y == x || y in init;
      }
    }
  }

  /** The sort's result is ordered by the comparator. */
  lemma {:induction false} SortSorted<T(!new)>(s: seq<T>, le: (T, T) -> bool)
    requires TotalPreorder(le)
    ensures SortedBy(Sort(s, le), le)
  {
    if s != [] {
      SortSorted(s[..|s| - 1], le);
      InsertSorted(s[|s| - 1], Sort(s[..|s| - 1], le), le);
    }
  }

  /** `a` and `b` compare equal. */
  predicate Tied<T>(le: (T, T) -> bool, a: T, b: T) {
    le(a, b) && le(b, a)
  }

  /** The elements that compare equal to `e`. */
  function TiedWith<T>(le: (T, T) -> bool, e: T): T -> bool {
    y => Tied(le, y, e)
  }

  /** Two elements tied with the same `e` may stand in either order. */
  lemma TiedOrdered<T(!new)>(le: (T, T) -> bool, e: T, x: T, y: T)
    requires TotalPreorder(le)
    ensures Tied(le, x, e) && Tied(le, y, e) ==> le(y, x)
  {
    if Tied(le, x, e) && Tied(le, y, e) {
      assert le(y, e) && le(e, x);
    }
  }

  /** Two elements that do not both pass may be filtered after `a` in
      either order. */
  lemma FilterSwap<T>(a: seq<T>, x: T, y: T, p: T -> bool)
    requires !(p(x) && p(y))
    ensures Filter(a, p) + Filter([x], p) + Filter([y], p) == Filter(a, p) + Filter([y], p) + Filter([x], p)
  {
    var fa, fx, fy := Filter(a, p), Filter([x], p), Filter([y], p);
    if p(x) {
      FilterSingleton(y, p);
      assert fy == [];
      assert fa + fx + fy == fa + fx;
      assert fa + fy + fx == fa + fx;
    } else {
      FilterSingleton(x, p);
      assert fx == [];
      assert fa + fx + fy == fa + fy;
      assert fa + fy + fx == fa + fy;
    }
  }

  lemma {:induction false} InsertStable<T(!new)>(x: T, s: seq<T>, le: (T, T) -> bool, e: T)
    requires TotalPreorder(le)
    requires SortedBy(s, le)
    ensures Filter(Insert(x, s, le), TiedWith(le, e)) == Filter(s, TiedWith(le, e)) + Filter([x], TiedWith(le, e))
  {
    var p := TiedWith(le, e);
    if s == [] || le(s[|s| - 1], x) {
      FilterAppend(s, [x], p);
    } else {
      var last := s[|s| - 1];
      var init := s[..|s| - 1];
      var ins := Insert(x, init, le);
      assert Insert(x, s, le) == ins + [last];
      assert s == init + [last];
      InsertStable(x, init, le, e);
      FilterAppend(ins, [last], p);
      FilterAppend(init, [last], p);
      TiedOrdered(le, e, x, last);
      FilterSwap(init, x, last, p);
    }
  }

  /** The sort is stable: the elements that compare equal to any `e` keep
      their original relative order. */
  lemma {:induction false} SortStable<T(!new)>(s: seq<T>, le: (T, T) -> bool, e: T)
    requires TotalPreorder(le)
    ensures Filter(Sort(s, le), TiedWith(le, e)) == Filter(s, TiedWith(le, e))
  {
    if s != [] {
      var init := s[..|s| - 1];
      SortStable(init, le, e);
      SortSorted(init, le);
      InsertStable(s[|s| - 1], Sort(init, le), le, e);
      assert s == init + [s[|s| - 1]];
      FilterAppend(init, [s[|s| - 1]], TiedWith(le, e));
    }
  }

  /** The index `s.findIndex(p)` stops at: the first element passing `p`,
      or `|s|` when none does. */
  function FirstIndex<T>(s: seq<T>, p: T -> bool): (r: nat)
    ensures r <= |s|
    ensures r < |s| ==> p(s[r])
    ensures forall k :: 0 <= k < r ==> !p(s[k])
  {
    if s == [] then 0
    else if p(s[0]) then 0
    else 1 + FirstIndex(s[1..], p)
  }

  /** An element at two positions occurs at least twice. */
  lemma TwiceCounted<T>(s: seq<T>, i: nat, j: nat)
    requires i < j < |s| && s[i] == s[j]
    ensures multiset(s)[s[i]] >= 2
  {
    var a, b := s[..j], s[j..];
    assert s == a + b;
    assert a[i] == s[i] && b[0] == s[j];
    assert s[i] in multiset(a) && s[i] in multiset(b);
  }

  /** In a sequence without repeats, each element occurs exactly once. */
  lemma {:induction false} DistinctOnce<T>(s: seq<T>, i: nat)
    requires i < |s|
    requires forall a, b :: 0 <= a < b < |s| ==> s[a] != s[b]
    ensures multiset(s)[s[i]] == 1
  {
    var init, last := s[..|s| - 1], s[|s| - 1];
    assert s == init + [last];
    if i == |s| - 1 {
      assert last !in init;
    } else {
      DistinctOnce(init, i);
      assert s[i] == init[i] != last;
    }
  }
}
