/** Streaming a query's rows: a sink that keeps no more than it needs, and the final sort, skip and take. */
module Candidates {
  import opened Wrappers
  import opened Values
  import opened Ranking
  import opened SqlTypes
  import opened SortKeys

  /* ----- DISTINCT ----- */

  function RowKeys(candidates: seq<Candidate>): set<seq<UniqueKey>> {
    set i | 0 <= i < |candidates| :: KeysOf(candidates[i].values)
  }

  /** The first candidate with each combination of values. */
  function Dedup(candidates: seq<Candidate>): (r: seq<Candidate>)
    ensures multiset(r) <= multiset(candidates)
    ensures |r| <= |candidates|
  {
    if candidates == [] then []
    else
      var init, last := candidates[..|candidates| - 1], candidates[|candidates| - 1];
      assert candidates == init + [last];
      if KeysOf(last.values) in RowKeys(init) then Dedup(init) else Dedup(init) + [last]
  }

  function Kept(candidates: seq<Candidate>, distinct: bool): (r: seq<Candidate>)
    ensures multiset(r) <= multiset(candidates)
    ensures |r| <= |candidates|
  {
    if distinct then Dedup(candidates) else candidates
  }

  lemma RowKeysSnoc(candidates: seq<Candidate>, c: Candidate)
    ensures RowKeys(candidates + [c]) == RowKeys(candidates) + {KeysOf(c.values)}
  {
    hide KeysOf;
    var after := candidates + [c];
    assert after[|candidates|] == c;
    forall key
      ensures key in RowKeys(after) <==> key in RowKeys(candidates) + {KeysOf(c.values)}
    {
      if key in RowKeys(candidates) {
        var i :| 0 <= i < |candidates| && KeysOf(candidates[i].values) == key;
        assert after[i] == candidates[i];
      }
    }
  }

  lemma KeptSnoc(candidates: seq<Candidate>, c: Candidate, distinct: bool)
    ensures Kept(candidates + [c], distinct)
         == if distinct && KeysOf(c.values) in RowKeys(candidates) then Kept(candidates, distinct)
            else Kept(candidates, distinct) + [c]
  {
    hide KeysOf;
    var after := candidates + [c];
    assert after[..|after| - 1] == candidates && after[|after| - 1] == c;
  }

  /** DISTINCT keeps one candidate for each combination of values, and that the earliest. */
  lemma {:induction false} DedupMeaning(candidates: seq<Candidate>)
    ensures RowKeys(Dedup(candidates)) == RowKeys(candidates)
    ensures forall i, j | 0 <= i < j < |Dedup(candidates)| ::
              KeysOf(Dedup(candidates)[i].values) != KeysOf(Dedup(candidates)[j].values)
  {
    hide KeysOf;
    if candidates != [] {
      var init, last := candidates[..|candidates| - 1], candidates[|candidates| - 1];
      assert candidates == init + [last];
      DedupMeaning(init);
      RowKeysSnoc(init, last);
      RowKeysSnoc(Dedup(init), last);
      var key := KeysOf(last.values);
      if key !in RowKeys(init) {
        forall i | 0 <= i < |Dedup(init)|
          ensures KeysOf(Dedup(init)[i].values) != key
        {
          assert KeysOf(Dedup(init)[i].values) in RowKeys(Dedup(init));
        }
      }
    }
  }

  /** Looking at more rows only adds candidates behind those already kept. */
  lemma {:induction false} KeptGrows(a: seq<Candidate>, b: seq<Candidate>, distinct: bool)
    ensures Kept(a, distinct) <= Kept(a + b, distinct)
  {
    if b == [] {
      assert a + b == a;
    } else {
      var init, last := b[..|b| - 1], b[|b| - 1];
      assert a + b == (a + init) + [last];
      KeptGrows(a, init, distinct);
      KeptSnoc(a + init, last, distinct);
    }
  }

  /* ----- What a query may answer ----- */

  function LimitOf(limit: Option<nat>, size: nat): nat {
    if limit.Some? then limit.value else size
  }

  /** Skip and take; no LIMIT takes everything. */
  function Page<T>(s: seq<T>, offset: nat, limit: Option<nat>): seq<T> {
    Slice(s, offset, LimitOf(limit, |s|))
  }

  /** A page starts behind the first `offset` elements, goes on in order, and holds at most `limit`. */
  lemma PageMeans<T>(s: seq<T>, offset: nat, limit: Option<nat>)
    ensures var page := Page(s, offset, limit);
      && (offset >= |s| ==> page == [])
      && (offset < |s| ==> offset + |page| <= |s| && page == s[offset..offset + |page|])
      && (limit.Some? ==> |page| <= limit.value)
      && (offset + |page| < |s| ==> limit == Some(|page|))
  {
  }

  lemma PageIsSubset<T>(s: seq<T>, offset: nat, limit: Option<nat>)
    ensures multiset(Page(s, offset, limit)) <= multiset(s)
  {
    var page := Page(s, offset, limit);
    if offset < |s| {
      assert page == s[offset..offset + |page|];
      SegmentIsSubset(s, offset, offset + |page|);
    } else {
      assert page == [];
    }
  }

  lemma SegmentIsSubset<T>(s: seq<T>, lo: nat, hi: nat)
    requires lo <= hi <= |s|
    ensures multiset(s[lo..hi]) <= multiset(s)
  {
    var a, b, c := s[..lo], s[lo..hi], s[hi..];
    assert s == a + b + c;
    assert multiset(s) == multiset(a) + multiset(b) + multiset(c);
  }

  function ValuesOf(candidates: seq<Candidate>): (rows: seq<Row>)
    ensures |rows| == |candidates|
  {
    seq(|candidates|, i requires 0 <= i < |candidates| => candidates[i].values)
  }

  /** The chosen candidates are some of all of them, and at each position rank like the page of all sorted. */
  ghost predicate Chosen(
      less: (Candidate, Candidate) -> bool, chosen: seq<Candidate>, all: seq<Candidate>, offset: nat, limit: Option<nat>)
  {
    && multiset(chosen) <= multiset(all)
    && SameRanks(less, chosen, Page(Sort(less, all), offset, limit))
  }

  /** Without ORDER BY the page is taken in scan order; with it, among equally ranked rows any may be chosen. */
  ghost predicate Answers(
      terms: seq<OrderBy>, m: Machine, all: seq<Candidate>, offset: nat, limit: Option<nat>, rows: seq<Row>)
  {
    if terms == [] then rows == ValuesOf(Page(all, offset, limit))
    else exists chosen :: Chosen(BeforeBy(terms, m), chosen, all, offset, limit) && rows == ValuesOf(chosen)
  }

  lemma AnswerSize(terms: seq<OrderBy>, m: Machine, all: seq<Candidate>, offset: nat, limit: Option<nat>, rows: seq<Row>)
    requires Answers(terms, m, all, offset, limit, rows)
    ensures |rows| == |Page(all, offset, limit)|
  {
    hide Sort, BeforeBy;
    if terms != [] {
      var less := BeforeBy(terms, m);
      var chosen :| Chosen(less, chosen, all, offset, limit) && rows == ValuesOf(chosen);
      assert |Sort(less, all)| == |multiset(Sort(less, all))| == |multiset(all)| == |all|;
    }
  }

  /* ----- The sink ----- */

  /** Keeps the candidates that may still be part of the result. */
  class CandidateSink {
    const terms: seq<OrderBy>
    const m: Machine
    const capacity: Option<nat>
    const distinct: bool
    const heap: BoundedHeap<Candidate>
    var candidates: seq<Candidate>
    var seen: set<seq<UniqueKey>>
    ghost var pushed: seq<Candidate>

    /** The bounded heap is used when there is both an order and a limit. */
    predicate UsesHeap() {
      terms != [] && capacity.Some?
    }

    ghost function All(): seq<Candidate>
      reads this`pushed
    {
      Kept(pushed, distinct)
    }

    ghost predicate HeapHolds(ok: Candidate -> bool)
      reads this`pushed, heap
    {
      capacity.Some? ==>
        && WeakOrder(BeforeBy(terms, m), ok)
        && AllOk(ok, multiset(pushed))
        && IsBest(BeforeBy(terms, m), heap.items, multiset(All()), capacity.value)
    }

    ghost predicate Valid(ok: Candidate -> bool)
      reads this, heap
    {
      && heap.less == BeforeBy(terms, m)
      && (distinct ==> seen == RowKeys(pushed))
      && (if UsesHeap() then HeapHolds(ok) else candidates == Page(All(), 0, capacity))
    }

    constructor (
        terms: seq<OrderBy>, m: Machine, capacity: Option<nat>, distinct: bool, ghost ok: Candidate -> bool)
      requires terms != [] && capacity.Some? ==> WeakOrder(BeforeBy(terms, m), ok)
      ensures Valid(ok) && pushed == [] && fresh(heap)
      ensures this.terms == terms && this.m == m && this.capacity == capacity && this.distinct == distinct
    {
      hide WeakOrder, BeforeBy;
      this.terms, this.m, this.capacity, this.distinct := terms, m, capacity, distinct;
      heap := new BoundedHeap(BeforeBy(terms, m));
      candidates, seen, pushed := [], {}, [];
    }

    /** A candidate DISTINCT has not dropped goes to the heap, or behind the others while there is room. */
    method Store(c: Candidate, ghost ok: Candidate -> bool)
      requires heap.less == BeforeBy(terms, m)
      requires if UsesHeap() then HeapHolds(ok) && ok(c) else candidates == Page(All(), 0, capacity)
      modifies this`candidates, heap
      ensures if UsesHeap() then IsBest(BeforeBy(terms, m), heap.items, multiset(old(All()) + [c]), capacity.value)
              else candidates == Page(old(All()) + [c], 0, capacity)
    {
      hide WeakOrder, BeforeBy, AllOk, IsBest, Kept, Page;
      if UsesHeap() {
        AllOkOfKept(ok);
        BestIsSubset(heap.less, heap.items, multiset(All()), capacity.value);
        heap.Push(c, capacity.value, ok, multiset(All()));
        assert multiset(All() + [c]) == multiset(All()) + multiset{c};
      } else if capacity.None? || |candidates| < capacity.value {
        PageGrows(All(), c, capacity);
        candidates := candidates + [c];
      } else {
        PageIsFull(All(), c, capacity.value);
      }
    }

    method Push(c: Candidate, ghost ok: Candidate -> bool)
      requires Valid(ok) && (UsesHeap() ==> ok(c))
      modifies this`candidates, this`seen, this`pushed, heap
      ensures Valid(ok) && pushed == old(pushed) + [c]
    {
      hide WeakOrder, BeforeBy, AllOk, IsBest, KeysOf, RowKeys, Kept, Page;
      KeptSnoc(pushed, c, distinct);
      RowKeysSnoc(pushed, c);
      PushedOk(ok, c);
      var key := KeysOf(c.values);
      if distinct {
        if key in seen {
          assert seen + {key} == seen;
          pushed := pushed + [c];
          return;
        }
        seen := seen + {key};
      }
      Store(c, ok);
      pushed := pushed + [c];
    }

    lemma PushedOk(ok: Candidate -> bool, c: Candidate)
      requires UsesHeap() ==> AllOk(ok, multiset(pushed)) && ok(c)
      ensures UsesHeap() ==> AllOk(ok, multiset(pushed + [c]))
    {
      assert multiset(pushed + [c]) == multiset(pushed) + multiset{c};
    }

    lemma AllOkOfKept(ok: Candidate -> bool)
      requires AllOk(ok, multiset(pushed))
      ensures AllOk(ok, multiset(All()))
    {
      SubsetOk(ok, multiset(All()), multiset(pushed));
    }

    /** More rows cannot change what is returned. */
    predicate IsFull()
      reads this`candidates
    {
      !UsesHeap() && capacity.Some? && |candidates| >= capacity.value
    }

    method IntoCandidates(ghost ok: Candidate -> bool) returns (r: seq<Candidate>)
      requires Valid(ok)
      ensures UsesHeap() ==> multiset(r) == heap.items
      ensures !UsesHeap() ==> r == candidates
    {
      if UsesHeap() {
        r := Drain(heap.items);
      } else {
        r := candidates;
      }
    }
  }

  lemma PageGrows(all: seq<Candidate>, c: Candidate, capacity: Option<nat>)
    requires capacity.Some? ==> |Page(all, 0, capacity)| < capacity.value
    ensures Page(all + [c], 0, capacity) == Page(all, 0, capacity) + [c]
  {
  }

  lemma PageIsFull(all: seq<Candidate>, c: Candidate, capacity: nat)
    requires |Page(all, 0, Some(capacity))| >= capacity
    ensures Page(all + [c], 0, Some(capacity)) == Page(all, 0, Some(capacity))
  {
  }
}
