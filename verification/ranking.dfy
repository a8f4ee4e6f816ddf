/** Bounded heaps and sorting over any weak order: the k best of what was pushed, in any grouping. */
module Ranking {

  /** `less` strictly orders classes of equally ranked elements, at least among the elements `ok` admits. */
  ghost predicate WeakOrder<T(!new)>(less: (T, T) -> bool, ok: T -> bool) {
    && (forall a, b :: ok(a) && ok(b) && less(a, b) ==> !less(b, a))
    && (forall a, b, c :: ok(a) && ok(b) && ok(c) && less(a, b) && !less(c, b) ==> less(a, c))
    && (forall a, b, c :: ok(a) && ok(b) && ok(c) && !less(b, a) && less(b, c) ==> less(a, c))
  }

  ghost predicate AllOk<T>(ok: T -> bool, s: multiset<T>) {
    forall x | x in s :: ok(x)
  }

  predicate SameRank<T>(less: (T, T) -> bool, a: T, b: T) {
    !less(a, b) && !less(b, a)
  }

  function Min(a: nat, b: nat): nat {
    if a < b then a else b
  }

  /** `kept` is a choice of the `k` best of `seen`. */
  ghost predicate IsBest<T>(less: (T, T) -> bool, kept: multiset<T>, seen: multiset<T>, k: nat) {
    && kept <= seen
    && |kept| == Min(k, |seen|)
    && forall a, b | a in kept && b in seen - kept :: !less(b, a)
  }

  lemma FullSubset<T>(a: multiset<T>, b: multiset<T>)
    requires a <= b && |a| >= |b|
    ensures a == b
  {
    assert b == a + (b - a);
    assert |b - a| == 0;
  }

  lemma PushFits<T>(less: (T, T) -> bool, kept: multiset<T>, seen: multiset<T>, k: nat, x: T)
    requires IsBest(less, kept, seen, k) && |kept| < k
    ensures IsBest(less, kept + multiset{x}, seen + multiset{x}, k)
  {
    FullSubset(kept, seen);
  }

  lemma PushReplaces<T(!new)>(
      less: (T, T) -> bool, ok: T -> bool, kept: multiset<T>, seen: multiset<T>, k: nat, x: T, worst: T)
    requires WeakOrder(less, ok) && AllOk(ok, seen) && ok(x)
    requires IsBest(less, kept, seen, k) && |kept| == k
    requires worst in kept && (forall y | y in kept :: !less(worst, y)) && less(x, worst)
    ensures IsBest(less, kept - multiset{worst} + multiset{x}, seen + multiset{x}, k)
  {
    var after := kept - multiset{worst} + multiset{x};
    assert seen + multiset{x} - after == (seen - kept) + multiset{worst};
    forall a, b | a in after && b in (seen + multiset{x}) - after
      ensures !less(b, a)
    {
      assert a in kept || a == x;
      assert b in seen - kept || b == worst;
    }
  }

  lemma PushKeeps<T(!new)>(
      less: (T, T) -> bool, ok: T -> bool, kept: multiset<T>, seen: multiset<T>, k: nat, x: T, worst: T)
    requires WeakOrder(less, ok) && AllOk(ok, seen) && ok(x)
    requires IsBest(less, kept, seen, k) && |kept| == k
    requires worst in kept && (forall y | y in kept :: !less(worst, y)) && !less(x, worst)
    ensures IsBest(less, kept, seen + multiset{x}, k)
  {
    assert seen + multiset{x} - kept == (seen - kept) + multiset{x};
    forall a, b | a in kept && b in (seen + multiset{x}) - kept
      ensures !less(b, a)
    {
      assert b in seen - kept || b == x;
    }
  }

  /** A left-out element of the second part is not better than anything kept overall. */
  lemma MergeOne<T(!new)>(
      less: (T, T) -> bool, ok: T -> bool,
      left: multiset<T>, part: multiset<T>, right: multiset<T>, kept: multiset<T>, k: nat, a: T, b: T)
    requires WeakOrder(less, ok) && AllOk(ok, left) && AllOk(ok, right)
    requires IsBest(less, part, right, k) && IsBest(less, kept, left + part, k)
    requires a in kept && b in right - part
    ensures !less(b, a)
  {
    assert ok(a) && ok(b);
    assert |part| == k by {
      FullSubsetSize(part, right, k);
    }
    if less(b, a) {
      forall x | x in part
        ensures x !in (left + part) - kept
      {
        assert ok(x) && !less(b, x);
        assert less(x, a);
      }
      SmallerIsKept(left, part, kept);
      SubsetSize(part + multiset{a}, kept) by {
        assert a !in part;
      }
    }
  }

  /** The best of one part together with the best of another part determine the best of both. */
  lemma MergeBest<T(!new)>(
      less: (T, T) -> bool, ok: T -> bool,
      left: multiset<T>, part: multiset<T>, right: multiset<T>, kept: multiset<T>, k: nat)
    requires WeakOrder(less, ok) && AllOk(ok, left) && AllOk(ok, right)
    requires IsBest(less, part, right, k)
    requires IsBest(less, kept, left + part, k)
    ensures IsBest(less, kept, left + right, k)
  {
    hide WeakOrder, AllOk;
    assert right == part + (right - part);
    forall a, b | a in kept && b in (left + right) - kept
      ensures !less(b, a)
    {
      if b !in (left + part) - kept {
        LeftOut(left, part, right, kept, b);
        MergeOne(less, ok, left, part, right, kept, k, a, b);
      }
    }
  }

  lemma LeftOut<T>(left: multiset<T>, part: multiset<T>, right: multiset<T>, kept: multiset<T>, b: T)
    requires part <= right && b in (left + right) - kept && b !in (left + part) - kept
    ensures b in right - part
  {
  }

  lemma SmallerIsKept<T>(left: multiset<T>, part: multiset<T>, kept: multiset<T>)
    requires forall x | x in part :: x !in (left + part) - kept
    ensures part <= kept
  {
    forall x
      ensures part[x] <= kept[x]
    {
      if x in part {
        assert ((left + part) - kept)[x] == 0;
      }
    }
  }

  lemma SubsetSize<T>(a: multiset<T>, b: multiset<T>)
    requires a <= b
    ensures |a| <= |b|
  {
    assert b == a + (b - a);
  }

  lemma FullSubsetSize<T>(part: multiset<T>, right: multiset<T>, k: nat)
    requires part <= right && |part| == Min(k, |right|) && right - part != multiset{}
    ensures |part| == k
  {
    assert right == part + (right - part);
  }

  /* ----- The heap ----- */

  /** A binary heap seen as the multiset it holds; its greatest element can be peeked at and popped. */
  class BoundedHeap<T(==, !new)> {
    const less: (T, T) -> bool
    var items: multiset<T>

    constructor (less: (T, T) -> bool)
      ensures this.less == less && items == multiset{}
    {
      this.less := less;
      items := multiset{};
    }

    /** Keep the new element if there is room, or if it beats the worst one. With an order that ranks what was
        pushed, the best are kept; with room for one, whatever the order, the better of the two stays. */
    method Push(x: T, capacity: nat, ghost ok: T -> bool, ghost seen: multiset<T>)
      requires |items| <= capacity
      modifies this
      ensures items <= old(items) + multiset{x} && |items| == Min(capacity, |old(items)| + 1)
      ensures WeakOrder(less, ok) && AllOk(ok, seen) && ok(x) && IsBest(less, old(items), seen, capacity) ==>
                IsBest(less, items, seen + multiset{x}, capacity)
      ensures forall y | capacity == 1 && old(items) == multiset{y} :: items == multiset{if less(x, y) then x else y}
    {
      hide WeakOrder, AllOk, IsBest;
      ghost var ranked := WeakOrder(less, ok) && AllOk(ok, seen) && ok(x) && IsBest(less, items, seen, capacity);
      if capacity == 0 {
        if ranked {
          NothingIsBest(less, items, seen, x);
        }
        return;
      }
      if |items| < capacity {
        if ranked {
          PushFits(less, items, seen, capacity, x);
        }
        items := items + multiset{x};
      } else {
        var worst := Peek(ok, seen);
        if ranked {
          BestIsSubset(less, items, seen, capacity);
          if less(x, worst) {
            PushReplaces(less, ok, items, seen, capacity, x, worst);
          } else {
            PushKeeps(less, ok, items, seen, capacity, x, worst);
          }
        }
        if less(x, worst) {
          items := items - multiset{worst} + multiset{x};
        }
      }
    }

    /** Some element; a greatest one if the order ranks the elements. */
    method Peek(ghost ok: T -> bool, ghost seen: multiset<T>) returns (worst: T)
      requires items != multiset{}
      ensures worst in items
      ensures WeakOrder(less, ok) && AllOk(ok, seen) && items <= seen ==> IsGreatest(less, worst, items)
    {
      hide WeakOrder, AllOk, IsGreatest;
      if WeakOrder(less, ok) && AllOk(ok, seen) && items <= seen {
        SubsetOk(ok, items, seen);
        ghost var greatest := Greatest(less, ok, items);
        InGreatest(less, greatest, items);
      }
      if w :| w in items && IsGreatest(less, w, items) {
        worst := w;
      } else {
        worst :| worst in items;
      }
    }
  }

  lemma NothingIsBest<T>(less: (T, T) -> bool, kept: multiset<T>, seen: multiset<T>, x: T)
    requires IsBest(less, kept, seen, 0)
    ensures IsBest(less, kept, seen + multiset{x}, 0)
  {
    assert kept == multiset{};
  }

  lemma BestIsSubset<T>(less: (T, T) -> bool, kept: multiset<T>, seen: multiset<T>, k: nat)
    requires IsBest(less, kept, seen, k)
    ensures kept <= seen && |kept| <= k
  {
  }

  /** The elements of a heap in whatever order it keeps them. */
  method Drain<T(==)>(items: multiset<T>) returns (s: seq<T>)
    ensures multiset(s) == items
  {
    s := [];
    var rest := items;
    while rest != multiset{}
      invariant multiset(s) + rest == items
      decreases |rest|
    {
      var x :| x in rest;
      s := s + [x];
      rest := rest - multiset{x};
    }
  }

  lemma InGreatest<T>(less: (T, T) -> bool, worst: T, s: multiset<T>)
    requires IsGreatest(less, worst, s)
    ensures worst in s
  {
  }

  predicate IsGreatest<T(==)>(less: (T, T) -> bool, worst: T, s: multiset<T>) {
    worst in s && forall y | y in s :: !less(worst, y)
  }

  lemma {:induction false} Greatest<T(!new)>(less: (T, T) -> bool, ok: T -> bool, s: multiset<T>) returns (worst: T)
    requires WeakOrder(less, ok) && AllOk(ok, s) && s != multiset{}
    ensures IsGreatest(less, worst, s)
    decreases |s|
  {
    var x :| x in s;
    var rest := s - multiset{x};
    assert s == rest + multiset{x};
    assert ok(x);
    worst := x;
    if rest != multiset{} {
      var best := Greatest(less, ok, rest);
      Greater(less, ok, rest, best, x);
      if !less(best, x) {
        worst := best;
      }
    }
  }

  lemma Greater<T(!new)>(less: (T, T) -> bool, ok: T -> bool, rest: multiset<T>, best: T, x: T)
    requires WeakOrder(less, ok) && AllOk(ok, rest) && ok(x) && IsGreatest(less, best, rest)
    ensures IsGreatest(less, if less(best, x) then x else best, rest + multiset{x})
  {
    if less(best, x) {
      forall y | y in rest
        ensures !less(x, y)
      {
        assert ok(y) && ok(best) && !less(best, y);
      }
    }
  }

  /* ----- Sorting ----- */

  ghost predicate Sorted<T>(less: (T, T) -> bool, s: seq<T>) {
    forall i, j | 0 <= i < j < |s| :: !less(s[j], s[i])
  }

  /** Insert behind every element of the same rank: sorting this way is stable. */
  function Insert<T>(less: (T, T) -> bool, x: T, s: seq<T>): (r: seq<T>)
    ensures multiset(r) == multiset(s) + multiset{x}
  {
    if s == [] then [x]
    else if less(x, s[|s| - 1]) then
      assert s == s[..|s| - 1] + [s[|s| - 1]];
      Insert(less, x, s[..|s| - 1]) + [s[|s| - 1]]
    else s + [x]
  }

  function Sort<T>(less: (T, T) -> bool, s: seq<T>): (r: seq<T>)
    ensures multiset(r) == multiset(s)
  {
    if s == [] then []
    else
      assert s == s[..|s| - 1] + [s[|s| - 1]];
      Insert(less, s[|s| - 1], Sort(less, s[..|s| - 1]))
  }

  lemma {:induction false} InsertSorts<T(!new)>(less: (T, T) -> bool, ok: T -> bool, x: T, s: seq<T>)
    requires WeakOrder(less, ok) && ok(x) && AllOk(ok, multiset(s)) && Sorted(less, s)
    ensures Sorted(less, Insert(less, x, s))
  {
    if s != [] && less(x, s[|s| - 1]) {
      var init, last := s[..|s| - 1], s[|s| - 1];
      assert s == init + [last];
      InsertSorts(less, ok, x, init);
      LastStaysLast(less, init, last, x, Insert(less, x, init)) by {
        assert !less(last, x) by {
          assert last in multiset(s);
        }
      }
    } else if s != [] {
      forall i | 0 <= i < |s|
        ensures !less(x, s[i])
      {
        assert s[i] in multiset(s) && s[|s| - 1] in multiset(s);
        assert ok(s[i]) && ok(s[|s| - 1]);
      }
    }
  }

  lemma LastStaysLast<T>(less: (T, T) -> bool, init: seq<T>, last: T, x: T, r: seq<T>)
    requires Sorted(less, init + [last]) && !less(last, x)
    requires Sorted(less, r) && multiset(r) == multiset(init) + multiset{x}
    ensures Sorted(less, r + [last])
  {
    forall y | y in r
      ensures !less(last, y)
    {
      assert y in multiset(init) + multiset{x};
      if y in init {
        var i :| 0 <= i < |init| && init[i] == y;
        assert (init + [last])[i] == y && (init + [last])[|init|] == last;
      }
    }
  }

  lemma {:induction false} SortSorts<T(!new)>(less: (T, T) -> bool, ok: T -> bool, s: seq<T>)
    requires WeakOrder(less, ok) && AllOk(ok, multiset(s))
    ensures Sorted(less, Sort(less, s))
  {
    if s != [] {
      var init := s[..|s| - 1];
      assert multiset(s) == multiset(init) + multiset{s[|s| - 1]} by {
        assert s == init + [s[|s| - 1]];
      }
      SortSorts(less, ok, init);
      InsertSorts(less, ok, s[|s| - 1], Sort(less, init));
    }
  }

  ghost predicate SameRanks<T>(less: (T, T) -> bool, a: seq<T>, b: seq<T>) {
    |a| == |b| && forall i | 0 <= i < |a| :: SameRank(less, a[i], b[i])
  }

  /** Two sorted arrangements of the same elements rank the same at every position. */
  lemma {:induction false} SortedRanks<T(!new)>(less: (T, T) -> bool, ok: T -> bool, a: seq<T>, b: seq<T>)
    requires WeakOrder(less, ok) && AllOk(ok, multiset(a))
    requires Sorted(less, a) && Sorted(less, b) && multiset(a) == multiset(b)
    ensures SameRanks(less, a, b)
  {
    hide WeakOrder, Sorted, SameRank, AllOk;
    SameSize(a, b);
    if a != [] {
      var j := FindFirst(a, b);
      RemoveBoth(a, b, j);
      RemoveKeepsSorted(less, a, 0);
      assert a[..0] + a[1..] == a[1..];
      RemoveKeepsSorted(less, b, j);
      SubsetOk(ok, multiset(a[1..]), multiset(a));
      SortedRanks(less, ok, a[1..], b[..j] + b[j + 1..]);
      RanksFollow(less, ok, a, b, j);
    }
  }

  lemma SameSize<T>(a: seq<T>, b: seq<T>)
    requires multiset(a) == multiset(b)
    ensures |a| == |b|
  {
    assert |a| == |multiset(a)| == |multiset(b)| == |b|;
  }

  lemma FindFirst<T>(a: seq<T>, b: seq<T>) returns (j: nat)
    requires a != [] && multiset(a) == multiset(b)
    ensures j < |b| && b[j] == a[0]
  {
    assert a[0] in multiset(a);
    var i: nat :| i < |b| && b[i] == a[0];
    j := i;
  }

  lemma RemoveBoth<T>(a: seq<T>, b: seq<T>, j: nat)
    requires a != [] && multiset(a) == multiset(b) && j < |b| && b[j] == a[0]
    ensures multiset(a[1..]) == multiset(b[..j] + b[j + 1..])
    ensures multiset(a[1..]) <= multiset(a)
  {
    RemoveAt(a, 0);
    assert a[..0] + a[1..] == a[1..];
    RemoveAt(b, j);
  }

  lemma RanksFollow<T(!new)>(less: (T, T) -> bool, ok: T -> bool, a: seq<T>, b: seq<T>, j: nat)
    requires WeakOrder(less, ok) && AllOk(ok, multiset(a)) && Sorted(less, a) && Sorted(less, b)
    requires multiset(a) == multiset(b) && |a| == |b| && j < |b| && b[j] == a[0]
    requires SameRanks(less, a[1..], b[..j] + b[j + 1..])
    ensures SameRanks(less, a, b)
  {
    hide WeakOrder, Sorted, SameRank;
    forall i | 0 <= i < |a|
      ensures SameRank(less, a[i], b[i])
    {
      RanksShift(less, ok, a, b, j, i);
    }
  }

  lemma RemoveAt<T>(s: seq<T>, j: nat)
    requires j < |s|
    ensures multiset(s[..j] + s[j + 1..]) == multiset(s) - multiset{s[j]}
  {
    assert s == s[..j] + [s[j]] + s[j + 1..];
  }

  lemma RemoveKeepsSorted<T>(less: (T, T) -> bool, s: seq<T>, j: nat)
    requires j < |s| && Sorted(less, s)
    ensures Sorted(less, s[..j] + s[j + 1..])
  {
  }

  /** With the first of `a` found at `j` in `b`, the ranks of the remainders give the ranks at `i`. */
  lemma RanksShift<T(!new)>(less: (T, T) -> bool, ok: T -> bool, a: seq<T>, b: seq<T>, j: nat, i: nat)
    requires WeakOrder(less, ok) && AllOk(ok, multiset(a)) && Sorted(less, a) && Sorted(less, b)
    requires multiset(a) == multiset(b) && i < |a| == |b| && j < |b| && b[j] == a[0]
    requires SameRanks(less, a[1..], b[..j] + b[j + 1..])
    ensures SameRank(less, a[i], b[i])
  {
    var b' := b[..j] + b[j + 1..];
    assert a[i] in multiset(a) && b[i] in multiset(b) && b[0] in multiset(b);
    assert b[i] in a && b[0] in a;
    var k :| 0 <= k < |a| && a[k] == b[0];
    if i == 0 {
      assert !less(b[0], a[0]);
      assert !less(a[0], b[0]);
    } else {
      assert SameRank(less, a[1..][i - 1], b'[i - 1]);
      if i - 1 < j {
        assert b[i - 1] in multiset(b) && b[i - 1] in a;
      }
    }
  }

  lemma {:induction false} SeqOf<T>(m: multiset<T>) returns (s: seq<T>)
    ensures multiset(s) == m
    decreases |m|
  {
    s := [];
    if m != multiset{} {
      var x :| x in m;
      s := SeqOf(m - multiset{x});
      s := s + [x];
    }
  }

  /** A sorted arrangement of the best `k` ranks, position by position, like the start of everything sorted. */
  lemma BestIsPrefix<T(!new)>(less: (T, T) -> bool, ok: T -> bool, best: seq<T>, all: seq<T>, k: nat)
    requires WeakOrder(less, ok) && AllOk(ok, multiset(all))
    requires IsBest(less, multiset(best), multiset(all), k) && Sorted(less, best)
    ensures |best| == Min(k, |all|)
    ensures SameRanks(less, best, Sort(less, all)[..|best|])
  {
    hide WeakOrder, SameRank, Sorted, AllOk;
    BestSize(less, best, all, k);
    var tail := SortedRest(less, ok, best, all);
    SortSorts(less, ok, all);
    AppendSorted(less, best, tail, multiset(all));
    assert multiset(best + tail) == multiset(all);
    SortedRanks(less, ok, best + tail, Sort(less, all));
    RanksOfPrefix(less, best, tail, Sort(less, all));
  }

  lemma SortedRest<T(!new)>(less: (T, T) -> bool, ok: T -> bool, best: seq<T>, all: seq<T>) returns (tail: seq<T>)
    requires WeakOrder(less, ok) && AllOk(ok, multiset(all)) && multiset(best) <= multiset(all)
    ensures Sorted(less, tail) && multiset(tail) == multiset(all) - multiset(best)
  {
    hide WeakOrder, SameRank, Sorted, AllOk;
    var rest := SeqOf(multiset(all) - multiset(best));
    SubsetOk(ok, multiset(rest), multiset(all));
    SortSorts(less, ok, rest);
    tail := Sort(less, rest);
  }

  lemma BestSize<T>(less: (T, T) -> bool, best: seq<T>, all: seq<T>, k: nat)
    requires IsBest(less, multiset(best), multiset(all), k)
    ensures |best| == Min(k, |all|) && |Sort(less, all)| == |all|
  {
    assert |best| == |multiset(best)| && |all| == |multiset(all)|;
    assert |Sort(less, all)| == |multiset(Sort(less, all))|;
  }

  lemma SubsetOk<T>(ok: T -> bool, a: multiset<T>, b: multiset<T>)
    requires a <= b && AllOk(ok, b)
    ensures AllOk(ok, a)
  {
    forall x | x in a
      ensures ok(x)
    {
      assert x in b;
    }
  }

  lemma RanksOfPrefix<T>(less: (T, T) -> bool, a: seq<T>, tail: seq<T>, b: seq<T>)
    requires SameRanks(less, a + tail, b)
    ensures SameRanks(less, a, b[..|a|])
  {
    forall i | 0 <= i < |a|
      ensures SameRank(less, a[i], b[..|a|][i])
    {
      assert SameRank(less, (a + tail)[i], b[i]);
    }
  }

  lemma AppendSorted<T>(less: (T, T) -> bool, best: seq<T>, tail: seq<T>, all: multiset<T>)
    requires Sorted(less, best) && Sorted(less, tail)
    requires multiset(tail) == all - multiset(best)
    requires forall a, b | a in multiset(best) && b in all - multiset(best) :: !less(b, a)
    ensures Sorted(less, best + tail)
  {
    var s := best + tail;
    forall i, j | 0 <= i < j < |s|
      ensures !less(s[j], s[i])
    {
      if i < |best| && |best| <= j {
        assert s[i] in multiset(best) && s[j] in multiset(tail);
      }
    }
  }

  /** Skip and take. */
  function Slice<T>(s: seq<T>, offset: nat, limit: nat): (r: seq<T>)
    ensures |r| == if offset >= |s| then 0 else Min(limit, |s| - offset)
    ensures forall i | 0 <= i < |r| :: r[i] == s[offset + i]
  {
    if offset >= |s| then []
    else if limit <= |s| - offset then s[offset..offset + limit]
    else s[offset..]
  }

  lemma PrefixElements<T>(s: seq<T>, k: nat)
    requires k <= |s|
    ensures multiset(s[..k]) <= multiset(s)
  {
    assert s == s[..k] + s[k..];
  }

  lemma SliceOfPrefix<T>(s: seq<T>, offset: nat, limit: nat)
    ensures Slice(s[..Min(offset + limit, |s|)], offset, limit) == Slice(s, offset, limit)
  {
  }

  lemma SliceRanks<T>(less: (T, T) -> bool, a: seq<T>, b: seq<T>, offset: nat, limit: nat)
    requires SameRanks(less, a, b)
    ensures SameRanks(less, Slice(a, offset, limit), Slice(b, offset, limit))
  {
    hide SameRank;
    forall i | 0 <= i < |Slice(a, offset, limit)|
      ensures SameRank(less, Slice(a, offset, limit)[i], Slice(b, offset, limit)[i])
    {
      assert SameRank(less, a[offset + i], b[offset + i]);
    }
  }
}
