/** Exact vector search: bounded heaps over tiles of rows, merged in any order, against
    "score every row, sort, skip, take". */
module TopK {
  import opened Wrappers
  import opened Values
  import opened Dense
  import opened Ranking

  datatype Score = NullScore | Score(bits: f64)

  datatype SortOrder = SortOrder(descending: bool, nullsFirst: bool)

  /** Ranks by score, and rows of the same score by row number. */
  datatype Candidate = Candidate(row: nat, score: Score)

  /** Comparison of two numbers; anything compares equal to NaN. */
  function CompareBits(a: f64, b: f64): int {
    if IsNaN(a) || IsNaN(b) || Key64(a) == Key64(b) then 0
    else if Key64(a) < Key64(b) then -1
    else 1
  }

  function CompareScores(order: SortOrder, a: Score, b: Score): int {
    match (a, b)
    case (NullScore, NullScore) => 0
    case (NullScore, _) => if order.nullsFirst then -1 else 1
    case (_, NullScore) => if order.nullsFirst then 1 else -1
    case (Score(x), Score(y)) => if order.descending then CompareBits(y, x) else CompareBits(x, y)
  }

  predicate Less(order: SortOrder, a: Candidate, b: Candidate) {
    var c := CompareScores(order, a.score, b.score);
    c < 0 || (c == 0 && a.row < b.row)
  }

  function LessBy(order: SortOrder): (Candidate, Candidate) -> bool {
    (a, b) => Less(order, a, b)
  }

  predicate NumberScore(s: Score) {
    s.Score? ==> !IsNaN(s.bits)
  }

  function Numbers(): Candidate -> bool {
    (c: Candidate) => NumberScore(c.score)
  }

  /** Without NaN the order is a weak order, and only candidates of the same row rank the same. */
  lemma OrderIsWeak(order: SortOrder)
    ensures WeakOrder(LessBy(order), Numbers())
    ensures forall a, b | Numbers()(a) && Numbers()(b) && SameRank(LessBy(order), a, b) :: a.row == b.row
  {
    forall a, b, c: Candidate | Numbers()(a) && Numbers()(b) && Numbers()(c)
      ensures LessBy(order)(a, b) && !LessBy(order)(c, b) ==> LessBy(order)(a, c)
      ensures !LessBy(order)(b, a) && LessBy(order)(b, c) ==> LessBy(order)(a, c)
    {
      LessIsTransitive(order, a, b, c);
    }
  }

  lemma LessIsTransitive(order: SortOrder, a: Candidate, b: Candidate, c: Candidate)
    requires NumberScore(a.score) && NumberScore(b.score) && NumberScore(c.score)
    ensures Less(order, a, b) && !Less(order, c, b) ==> Less(order, a, c)
    ensures !Less(order, b, a) && Less(order, b, c) ==> Less(order, a, c)
  {
    hide IsNaN, Key64;
  }

  /* ----- Scoring ----- */

  /** What is asked for: `metric` scores a stored vector for ranking, `filter` tells which rows are scored at all. */
  datatype Plan = Plan(
    metric: Stored -> Result<f64>, filter: Option<nat -> Result<bool>>, order: SortOrder, offset: nat, limit: nat)
  {
    function Capacity(): nat {
      offset + limit
    }

    function Admits(row: nat): Result<bool> {
      if filter.None? then Success(true) else filter.value(row)
    }
  }

  /** What comes of each row: a candidate, nothing, or a failure. */
  type Judgement = nat -> Result<Option<Candidate>>

  /** Score one row from its stored vector; a row without a vector must hold NULL. */
  function ScoreRow(plan: Plan, rows: seq<Row>, column: nat, row: nat, vector: Option<Stored>): Result<Candidate> {
    match vector
    case Some(stored) =>
      var bits :- plan.metric(stored);
      Success(Candidate(row, Score(bits)))
    case None =>
      if row < |rows| && column < |rows[row]| && rows[row][column].Null? then Success(Candidate(row, NullScore))
      else Failure(InvalidQuery(OtherQuery))
  }

  function StoredAt(contents: seq<Option<Vector>>, norm: Vector -> f64, row: nat): Option<Stored> {
    if row < |contents| && contents[row].Some? then Some(Stored(contents[row].value, norm(contents[row].value)))
    else None
  }

  function JudgeRow(plan: Plan, rows: seq<Row>, column: nat, row: nat, vector: Option<Stored>): Result<Option<Candidate>> {
    var admitted :- plan.Admits(row);
    if !admitted then Success(None)
    else
      var c :- ScoreRow(plan, rows, column, row, vector);
      Success(Some(c))
  }

  /** How each row of the column is judged. */
  function Judge(plan: Plan, rows: seq<Row>, column: nat, contents: seq<Option<Vector>>, norm: Vector -> f64): Judgement {
    (row: nat) => JudgeRow(plan, rows, column, row, StoredAt(contents, norm, row))
  }

  function Listed(judged: Result<Option<Candidate>>): seq<Candidate> {
    if judged.Success? && judged.value.Some? then [judged.value.value] else []
  }

  /** The candidates of the rows from `lo` to `hi`, in row order. */
  function Candidates(judge: Judgement, lo: nat, hi: nat): seq<Candidate>
    decreases hi
  {
    if lo >= hi then [] else Candidates(judge, lo, hi - 1) + Listed(judge(hi - 1))
  }

  predicate AllScored(judge: Judgement, lo: nat, hi: nat) {
    forall row | lo <= row < hi :: judge(row).Success?
  }

  /** Some row from `lo` to `hi` fails with this error. */
  ghost predicate FailsWith(judge: Judgement, lo: nat, hi: nat, e: Error) {
    exists row | lo <= row < hi :: judge(row) == Failure(e)
  }

  /** Every judgement is about its own row. */
  ghost predicate SoundJudge(judge: Judgement) {
    forall row :: judge(row).Success? && judge(row).value.Some? ==> judge(row).value.value.row == row
  }

  lemma JudgeIsSound(plan: Plan, rows: seq<Row>, column: nat, contents: seq<Option<Vector>>, norm: Vector -> f64)
    ensures SoundJudge(Judge(plan, rows, column, contents, norm))
  {
  }

  /** The candidates of the first `n` rows. */
  ghost function Scored(judge: Judgement, n: nat): Candidate -> bool {
    (c: Candidate) => c.row < n && judge(c.row) == Success(Some(c))
  }

  /** The order ranks the candidates of the first `n` rows. */
  ghost predicate Orderly(order: SortOrder, judge: Judgement, n: nat) {
    WeakOrder(LessBy(order), Scored(judge, n))
  }

  lemma ScoredHere(judge: Judgement, n: nat, row: nat)
    requires SoundJudge(judge) && row < n
    ensures AllOk(Scored(judge, n), multiset(Listed(judge(row))))
  {
  }

  lemma {:induction false} CandidatesConcat(judge: Judgement, lo: nat, mid: nat, hi: nat)
    requires lo <= mid <= hi
    ensures Candidates(judge, lo, hi) == Candidates(judge, lo, mid) + Candidates(judge, mid, hi)
    decreases hi
  {
    if mid < hi {
      CandidatesConcat(judge, lo, mid, hi - 1);
    }
  }

  lemma NoneOk<T>(ok: T -> bool)
    ensures AllOk(ok, multiset([]))
  {
  }

  lemma {:induction false} CandidatesAreScored(judge: Judgement, lo: nat, hi: nat, n: nat)
    requires SoundJudge(judge) && hi <= n
    ensures AllOk(Scored(judge, n), multiset(Candidates(judge, lo, hi)))
    decreases hi
  {
    hide Scored, SoundJudge, AllOk, Listed;
    if lo >= hi {
      NoneOk(Scored(judge, n));
    } else {
      CandidatesAreScored(judge, lo, hi - 1, n);
      var before, last := Candidates(judge, lo, hi - 1), Listed(judge(hi - 1));
      ScoredHere(judge, n, hi - 1);
      BothOk(Scored(judge, n), multiset(before), multiset(last));
      assert multiset(before + last) == multiset(before) + multiset(last);
    }
  }

  lemma BothOk<T>(ok: T -> bool, a: multiset<T>, b: multiset<T>)
    requires AllOk(ok, a) && AllOk(ok, b)
    ensures AllOk(ok, a + b)
  {
  }

  lemma SameRankSameRow(order: SortOrder, a: Candidate, b: Candidate)
    requires SameRank(LessBy(order), a, b)
    ensures a.row == b.row
  {
    hide IsNaN, Key64;
  }

  /** Among candidates of distinct rows, ranking the same at every position is being equal. */
  lemma RanksAreEqual(order: SortOrder, judge: Judgement, n: nat, a: seq<Candidate>, b: seq<Candidate>)
    requires SameRanks(LessBy(order), a, b)
    requires AllOk(Scored(judge, n), multiset(a)) && AllOk(Scored(judge, n), multiset(b))
    ensures a == b
  {
    hide Less, SameRank;
    forall i | 0 <= i < |a|
      ensures a[i] == b[i]
    {
      assert SameRank(LessBy(order), a[i], b[i]);
      SameRankSameRow(order, a[i], b[i]);
      assert a[i] in multiset(a) && b[i] in multiset(b);
      assert Scored(judge, n)(a[i]) && Scored(judge, n)(b[i]);
    }
  }

  /** The specification: all candidates, sorted, then skipped and taken. */
  function TopSlice(plan: Plan, all: seq<Candidate>): seq<Candidate> {
    Slice(Sort(LessBy(plan.order), all), plan.offset, plan.limit)
  }

  /** Sorting a bounded heap that holds the best candidates gives the specified slice. */
  lemma HeapGivesSlice(plan: Plan, judge: Judgement, n: nat, sorted: seq<Candidate>)
    requires Orderly(plan.order, judge, n) && SoundJudge(judge) && Sorted(LessBy(plan.order), sorted)
    requires IsBest(LessBy(plan.order), multiset(sorted), multiset(Candidates(judge, 0, n)), plan.Capacity())
    ensures Slice(sorted, plan.offset, plan.limit) == TopSlice(plan, Candidates(judge, 0, n))
  {
    hide WeakOrder, Sorted, SoundJudge, Sort, SameRanks, Candidates, LessBy, Scored, IsBest, AllOk;
    var all, less, ok := Candidates(judge, 0, n), LessBy(plan.order), Scored(judge, n);
    CandidatesAreScored(judge, 0, n, n);
    BestIsPrefix(less, ok, sorted, all, plan.Capacity());
    BestSize(less, sorted, all, plan.Capacity());
    var prefix := Sort(less, all)[..|sorted|];
    PrefixElements(Sort(less, all), |sorted|);
    BestIsSubset(less, multiset(sorted), multiset(all), plan.Capacity());
    SubsetOk(ok, multiset(sorted), multiset(all));
    SubsetOk(ok, multiset(prefix), multiset(all));
    RanksAreEqual(plan.order, judge, n, sorted, prefix);
    SliceOfPrefix(Sort(less, all), plan.offset, plan.limit);
  }

  /* ----- Scans ----- */

  /** The better of two candidates, the first one unless the second is better. */
  function Keep(order: SortOrder, kept: Option<Candidate>, c: Candidate): Option<Candidate> {
    if kept.None? || Less(order, c, kept.value) then Some(c) else kept
  }

  /** What room for one candidate holds after all these were offered in turn. */
  function KeepAll(order: SortOrder, kept: Option<Candidate>, cs: seq<Candidate>): Option<Candidate> {
    if cs == [] then kept else Keep(order, KeepAll(order, kept, cs[..|cs| - 1]), cs[|cs| - 1])
  }

  lemma {:induction false} KeepAllConcat(order: SortOrder, kept: Option<Candidate>, a: seq<Candidate>, b: seq<Candidate>)
    ensures KeepAll(order, kept, a + b) == KeepAll(order, KeepAll(order, kept, a), b)
    decreases |b|
  {
    hide Keep;
    if b == [] {
      assert a + b == a;
    } else {
      assert (a + b)[..|a + b| - 1] == a + b[..|b| - 1];
      KeepAllConcat(order, kept, a, b[..|b| - 1]);
    }
  }

  function Holding(kept: Option<Candidate>): seq<Candidate> {
    if kept.Some? then [kept.value] else []
  }

  /** What went into a heap: which candidates, and which of them room for one would hold. */
  datatype Trace = Trace(seen: multiset<Candidate>, kept: Option<Candidate>) {
    function Then(order: SortOrder, cs: seq<Candidate>): Trace {
      Trace(seen + multiset(cs), KeepAll(order, kept, cs))
    }
  }

  const NOTHING := Trace(multiset{}, None)

  /** The heap holds the best candidates of its trace, if the order ranks them; with room for one it holds
      the one its trace tells, whatever the order. */
  ghost predicate HeapIs(heap: BoundedHeap<Candidate>, plan: Plan, judge: Judgement, n: nat, t: Trace)
    reads heap
  {
    && heap.less == LessBy(plan.order)
    && heap.items <= t.seen && |heap.items| <= plan.Capacity()
    && AllOk(Scored(judge, n), t.seen)
    && (Orderly(plan.order, judge, n) ==> IsBest(heap.less, heap.items, t.seen, plan.Capacity()))
    && (plan.Capacity() == 1 ==> heap.items == multiset(Holding(t.kept)))
  }

  lemma EmptyHeap(heap: BoundedHeap<Candidate>, plan: Plan, judge: Judgement, n: nat)
    requires heap.less == LessBy(plan.order) && heap.items == multiset{}
    ensures HeapIs(heap, plan, judge, n, NOTHING)
  {
    hide WeakOrder, Less;
  }

  /** Offering one candidate to room for one. */
  lemma OneHeld(order: SortOrder, kept: Option<Candidate>, c: Candidate, before: multiset<Candidate>, after: multiset<Candidate>)
    requires before == multiset(Holding(kept)) && after <= before + multiset{c} && |after| == 1
    requires forall y | before == multiset{y} :: after == multiset{if LessBy(order)(c, y) then c else y}
    ensures after == multiset(Holding(KeepAll(order, kept, [c])))
  {
    hide Less;
    assert [c][..0] == [];
    if kept.None? {
      FullSubset(after, multiset{c});
    } else {
      assert before == multiset{kept.value};
    }
  }

  method PushCandidate(
      heap: BoundedHeap<Candidate>, plan: Plan, c: Candidate,
      ghost judge: Judgement, ghost n: nat, ghost t: Trace)
    requires HeapIs(heap, plan, judge, n, t) && Scored(judge, n)(c)
    modifies heap
    ensures HeapIs(heap, plan, judge, n, t.Then(plan.order, [c]))
  {
    hide WeakOrder, Less, IsBest, Scored, AllOk, KeepAll;
    ghost var before := heap.items;
    heap.Push(c, plan.Capacity(), Scored(judge, n), t.seen);
    OneMoreOk(Scored(judge, n), t.seen, c);
    if plan.Capacity() == 1 {
      OneHeld(plan.order, t.kept, c, before, heap.items);
    }
  }

  lemma OneMoreOk<T>(ok: T -> bool, seen: multiset<T>, x: T)
    requires AllOk(ok, seen) && ok(x)
    ensures AllOk(ok, seen + multiset{x})
  {
  }

  lemma CandidatesStep(order: SortOrder, judge: Judgement, lo: nat, row: nat, t: Trace)
    requires lo <= row && judge(row).Success? && AllScored(judge, lo, row)
    ensures AllScored(judge, lo, row + 1)
    ensures t.Then(order, Candidates(judge, lo, row + 1)) ==
            t.Then(order, Candidates(judge, lo, row)).Then(order, Listed(judge(row)))
  {
    hide Keep, Listed;
    KeepAllConcat(order, t.kept, Candidates(judge, lo, row), Listed(judge(row)));
  }

  lemma FailsHere(judge: Judgement, lo: nat, hi: nat, row: nat, e: Error)
    requires lo <= row < hi && judge(row) == Failure(e)
    ensures FailsWith(judge, lo, hi, e)
  {
  }

  lemma NotAllScored(judge: Judgement, lo: nat, hi: nat, e: Error)
    requires FailsWith(judge, lo, hi, e)
    ensures !AllScored(judge, lo, hi)
  {
  }

  lemma NoCandidates(order: SortOrder, judge: Judgement, lo: nat, t: Trace)
    ensures AllScored(judge, lo, lo) && t.Then(order, Candidates(judge, lo, lo)) == t
  {
  }

  /** The judgement of the rows that `dense` packs. */
  ghost predicate Judges(
      judge: Judgement, dense: DenseVectorColumn, rows: seq<Row>, column: nat, plan: Plan)
    reads dense
  {
    dense.Valid() && judge == Judge(plan, rows, column, dense.contents, dense.norm)
  }

  /** Score one stored row. */
  method ScoreLocal(
      heap: BoundedHeap<Candidate>, dense: DenseVectorColumn, rows: seq<Row>, column: nat, plan: Plan,
      index: nat, local: nat, ghost judge: Judgement, ghost t: Trace)
    returns (r: Result<()>)
    requires Judges(judge, dense, rows, column, plan) && HeapIs(heap, plan, judge, dense.rowCount, t)
    requires plan.filter.None? && index < |dense.chunks| && local < dense.chunks[index].rowCount
    modifies heap
    ensures
      var judged := judge(dense.chunks[index].firstRow + local);
      if r.Success? then
        judged.Success? && HeapIs(heap, plan, judge, dense.rowCount, t.Then(plan.order, Listed(judged)))
      else judged == Failure(r.error)
  {
    hide WeakOrder, Less, IsBest, HeapIs, Tiled, Indexed, ChunkHolds, Trace.Then;
    var chunk := dense.chunks[index];
    ghost var cells := dense.ChunkCells(index);
    var vector := dense.GetLocal(chunk, local, cells);
    assert cells[local] == dense.contents[chunk.firstRow + local];
    var judged := ScoreRow(plan, rows, column, chunk.firstRow + local, vector);
    assert vector == StoredAt(dense.contents, dense.norm, chunk.firstRow + local);
    if judged.Failure? {
      return Failure(judged.error);
    }
    assert chunk.firstRow + local < dense.rowCount;
    PushCandidate(heap, plan, judged.value, judge, dense.rowCount, t);
    return Success(());
  }

  /** Score local rows `lo` to `hi` of one chunk. */
  method ScoreDenseChunk(
      heap: BoundedHeap<Candidate>, dense: DenseVectorColumn, rows: seq<Row>, column: nat, plan: Plan,
      index: nat, lo: nat, hi: nat, ghost judge: Judgement, ghost t: Trace)
    returns (r: Result<()>)
    requires Judges(judge, dense, rows, column, plan) && HeapIs(heap, plan, judge, dense.rowCount, t)
    requires plan.filter.None? && index < |dense.chunks| && lo <= hi <= dense.chunks[index].rowCount
    modifies heap
    ensures
      var first := dense.chunks[index].firstRow;
      if r.Success? then
        && AllScored(judge, first + lo, first + hi)
        && HeapIs(heap, plan, judge, dense.rowCount, t.Then(plan.order, Candidates(judge, first + lo, first + hi)))
      else FailsWith(judge, first + lo, first + hi, r.error)
  {
    hide HeapIs, Candidates, Judges, AllScored, FailsWith, Trace.Then;
    var first := dense.chunks[index].firstRow;
    NoCandidates(plan.order, judge, first + lo, t);
    ghost var pushed := t;
    for local := lo to hi
      invariant AllScored(judge, first + lo, first + local)
      invariant pushed == t.Then(plan.order, Candidates(judge, first + lo, first + local))
      invariant HeapIs(heap, plan, judge, dense.rowCount, pushed)
    {
      var scored := ScoreLocal(heap, dense, rows, column, plan, index, local, judge, pushed);
      if scored.Failure? {
        FailsHere(judge, first + lo, first + hi, first + local, scored.error);
        return Failure(scored.error);
      }
      CandidatesStep(plan.order, judge, first + lo, first + local, t);
      pushed := pushed.Then(plan.order, Listed(judge(first + local)));
    }
    return Success(());
  }

  lemma CandidatesExtend(order: SortOrder, judge: Judgement, lo: nat, mid: nat, hi: nat, t: Trace)
    requires lo <= mid <= hi && AllScored(judge, lo, mid) && AllScored(judge, mid, hi)
    ensures AllScored(judge, lo, hi)
    ensures t.Then(order, Candidates(judge, lo, hi)) ==
            t.Then(order, Candidates(judge, lo, mid)).Then(order, Candidates(judge, mid, hi))
  {
    hide KeepAll;
    CandidatesConcat(judge, lo, mid, hi);
    KeepAllConcat(order, t.kept, Candidates(judge, lo, mid), Candidates(judge, mid, hi));
  }

  lemma FailsWithin(judge: Judgement, lo: nat, mid: nat, end: nat, hi: nat, e: Error)
    requires lo <= mid <= end <= hi && FailsWith(judge, mid, end, e)
    ensures FailsWith(judge, lo, hi, e)
  {
  }

  /** The end of the tile that starts at `first`. */
  function TileEnd(first: nat, rowsPerTask: nat, rowCount: nat): nat {
    Min(first + rowsPerTask, rowCount)
  }

  /** Score the rows of one tile: find the chunk of its first row, then walk the chunks to its end. */
  method ScanTile(
      heap: BoundedHeap<Candidate>, dense: DenseVectorColumn, rows: seq<Row>, column: nat, plan: Plan,
      firstRow: nat, rowsPerTask: nat, ghost judge: Judgement, ghost t: Trace)
    returns (r: Result<()>)
    requires Judges(judge, dense, rows, column, plan) && HeapIs(heap, plan, judge, dense.rowCount, t)
    requires plan.filter.None? && firstRow < dense.rowCount && rowsPerTask > 0
    modifies heap
    ensures
      var end := TileEnd(firstRow, rowsPerTask, dense.rowCount);
      if r.Success? then
        && AllScored(judge, firstRow, end)
        && HeapIs(heap, plan, judge, dense.rowCount, t.Then(plan.order, Candidates(judge, firstRow, end)))
      else FailsWith(judge, firstRow, end, r.error)
  {
    hide HeapIs, Candidates, AllScored, FailsWith, Tiled, Indexed, Judge, Trace.Then;
    var endRow := TileEnd(firstRow, rowsPerTask, dense.rowCount);
    var found := dense.ChunkIndex(firstRow);
    var index := found.value;
    StartsAreOrdered(dense.chunks, dense.dimensions, dense.norm, dense.contents);
    NoCandidates(plan.order, judge, firstRow, t);
    var position := firstRow;
    ghost var pushed := t;
    while true
      invariant firstRow <= position < endRow && index < |dense.chunks|
      invariant Covers(dense.chunks[index], position)
      invariant position == (if firstRow > dense.chunks[index].firstRow then firstRow else dense.chunks[index].firstRow)
      invariant AllScored(judge, firstRow, position)
      invariant pushed == t.Then(plan.order, Candidates(judge, firstRow, position))
      invariant HeapIs(heap, plan, judge, dense.rowCount, pushed)
      decreases |dense.chunks| - index
    {
      var chunk := dense.chunks[index];
      var localStart := if firstRow > chunk.firstRow then firstRow - chunk.firstRow else 0;
      var localEnd := Min(endRow - chunk.firstRow, chunk.rowCount);
      var next := chunk.firstRow + localEnd;
      var scored := ScoreDenseChunk(heap, dense, rows, column, plan, index, localStart, localEnd, judge, pushed);
      if scored.Failure? {
        FailsWithin(judge, firstRow, position, next, endRow, scored.error);
        return Failure(scored.error);
      }
      CandidatesExtend(plan.order, judge, firstRow, position, next, t);
      pushed := pushed.Then(plan.order, Candidates(judge, position, next));
      if chunk.firstRow + chunk.rowCount >= endRow {
        return Success(());
      }
      position := next;
      index := index + 1;
    }
  }

  /** Score one row if the filter admits it. */
  method ScoreFiltered(
      heap: BoundedHeap<Candidate>, dense: DenseVectorColumn, rows: seq<Row>, column: nat, plan: Plan,
      row: nat, ghost judge: Judgement, ghost t: Trace)
    returns (r: Result<()>)
    requires Judges(judge, dense, rows, column, plan) && HeapIs(heap, plan, judge, dense.rowCount, t)
    requires row < dense.rowCount
    modifies heap
    ensures
      if r.Success? then
        judge(row).Success? && HeapIs(heap, plan, judge, dense.rowCount, t.Then(plan.order, Listed(judge(row))))
      else judge(row) == Failure(r.error)
  {
    hide WeakOrder, Less, IsBest, HeapIs, Tiled, Indexed, ChunkHolds, Trace.Then, Plan.Admits;
    ThenNothing(plan.order, t);
    var admitted := plan.Admits(row);
    if admitted.Failure? {
      return Failure(admitted.error);
    }
    if !admitted.value {
      return Success(());
    }
    var vector := dense.Get(row);
    var judged := ScoreRow(plan, rows, column, row, vector);
    assert vector == StoredAt(dense.contents, dense.norm, row);
    if judged.Failure? {
      return Failure(judged.error);
    }
    PushCandidate(heap, plan, judged.value, judge, dense.rowCount, t);
    return Success(());
  }

  /** Score rows one by one. */
  method ScoreRows(
      heap: BoundedHeap<Candidate>, dense: DenseVectorColumn, rows: seq<Row>, column: nat, plan: Plan,
      lo: nat, hi: nat, ghost judge: Judgement, ghost t: Trace)
    returns (r: Result<()>)
    requires Judges(judge, dense, rows, column, plan) && HeapIs(heap, plan, judge, dense.rowCount, t)
    requires lo <= hi <= dense.rowCount
    modifies heap
    ensures
      if r.Success? then
        && AllScored(judge, lo, hi)
        && HeapIs(heap, plan, judge, dense.rowCount, t.Then(plan.order, Candidates(judge, lo, hi)))
      else FailsWith(judge, lo, hi, r.error)
  {
    hide HeapIs, Candidates, Judges, AllScored, FailsWith, Trace.Then;
    NoCandidates(plan.order, judge, lo, t);
    ghost var pushed := t;
    for row := lo to hi
      invariant AllScored(judge, lo, row)
      invariant pushed == t.Then(plan.order, Candidates(judge, lo, row))
      invariant HeapIs(heap, plan, judge, dense.rowCount, pushed)
    {
      var scored := ScoreFiltered(heap, dense, rows, column, plan, row, judge, pushed);
      if scored.Failure? {
        FailsHere(judge, lo, hi, row, scored.error);
        return Failure(scored.error);
      }
      CandidatesStep(plan.order, judge, lo, row, t);
      pushed := pushed.Then(plan.order, Listed(judge(row)));
    }
    return Success(());
  }

  /** Score every chunk in turn. */
  method SequentialScan(
      dense: DenseVectorColumn, rows: seq<Row>, column: nat, plan: Plan, ghost judge: Judgement)
    returns (r: Result<BoundedHeap<Candidate>>)
    requires Judges(judge, dense, rows, column, plan) && plan.filter.None?
    ensures
      if r.Success? then
        && fresh(r.value) && AllScored(judge, 0, dense.rowCount)
        && HeapIs(r.value, plan, judge, dense.rowCount, NOTHING.Then(plan.order, Candidates(judge, 0, dense.rowCount)))
      else FailsWith(judge, 0, dense.rowCount, r.error)
  {
    hide Candidates, AllScored, FailsWith, Tiled, Indexed, Judge, HeapIs, Trace.Then;
    var heap := new BoundedHeap(LessBy(plan.order));
    StartsAreOrdered(dense.chunks, dense.dimensions, dense.norm, dense.contents);
    NoCandidates(plan.order, judge, 0, NOTHING);
    ghost var pushed := NOTHING;
    ghost var position := 0;
    FirstStartsAtZero(dense);
    EmptyHeap(heap, plan, judge, dense.rowCount);
    for index := 0 to |dense.chunks|
      invariant position == (if index < |dense.chunks| then dense.chunks[index].firstRow else dense.rowCount)
      invariant AllScored(judge, 0, position)
      invariant pushed == NOTHING.Then(plan.order, Candidates(judge, 0, position))
      invariant HeapIs(heap, plan, judge, dense.rowCount, pushed)
    {
      var chunk := dense.chunks[index];
      ghost var next := chunk.firstRow + chunk.rowCount;
      var scored := ScoreDenseChunk(heap, dense, rows, column, plan, index, 0, chunk.rowCount, judge, pushed);
      ChunkWithin(dense, index);
      if scored.Failure? {
        FailsWithin(judge, 0, position, next, dense.rowCount, scored.error);
        return Failure(scored.error);
      }
      CandidatesExtend(plan.order, judge, 0, position, next, NOTHING);
      pushed := pushed.Then(plan.order, Candidates(judge, position, next));
      position := next;
    }
    return Success(heap);
  }

  /** Score every row that the filter admits. */
  method SequentialRows(
      dense: DenseVectorColumn, rows: seq<Row>, column: nat, plan: Plan, ghost judge: Judgement)
    returns (r: Result<BoundedHeap<Candidate>>)
    requires Judges(judge, dense, rows, column, plan)
    ensures
      if r.Success? then
        && fresh(r.value) && AllScored(judge, 0, dense.rowCount)
        && HeapIs(r.value, plan, judge, dense.rowCount, NOTHING.Then(plan.order, Candidates(judge, 0, dense.rowCount)))
      else FailsWith(judge, 0, dense.rowCount, r.error)
  {
    hide Candidates, AllScored, FailsWith, Judges, HeapIs, Trace.Then;
    var heap := new BoundedHeap(LessBy(plan.order));
    EmptyHeap(heap, plan, judge, dense.rowCount);
    var scored := ScoreRows(heap, dense, rows, column, plan, 0, dense.rowCount, judge, NOTHING);
    if scored.Failure? {
      return Failure(scored.error);
    }
    return Success(heap);
  }

  lemma FirstStartsAtZero(dense: DenseVectorColumn)
    requires dense.Valid()
    ensures if dense.chunks == [] then dense.rowCount == 0 else dense.chunks[0].firstRow == 0
  {
    if dense.chunks != [] {
      assert ChunkTiled(dense.chunks, dense.dimensions, dense.norm, dense.contents, 0);
    }
  }

  lemma ChunkWithin(dense: DenseVectorColumn, index: nat)
    requires dense.Valid() && index < |dense.chunks|
    ensures dense.chunks[index].firstRow + dense.chunks[index].rowCount <= dense.rowCount
  {
    assert ChunkTiled(dense.chunks, dense.dimensions, dense.norm, dense.contents, index);
  }

  /* ----- Parallel scans ----- */

  /** How the tasks were split over workers and in which order the workers' heaps were merged. */
  datatype Tree = Leaf(tasks: seq<nat>) | Merge(left: Tree, right: Tree)

  /** The first rows of the tiles a tree scans. */
  function Tasks(tree: Tree): seq<nat> {
    match tree
    case Leaf(tasks) => tasks
    case Merge(left, right) => Tasks(left) + Tasks(right)
  }

  /** The first rows of all tiles of a column. */
  function TaskStarts(first: nat, rowCount: nat, rowsPerTask: nat): seq<nat>
    requires rowsPerTask > 0
    decreases rowCount - first
  {
    if first >= rowCount then [] else [first] + TaskStarts(first + rowsPerTask, rowCount, rowsPerTask)
  }

  /** The candidates of the tiles in the order in which they are scanned. */
  function TileCandidates(judge: Judgement, tasks: seq<nat>, rowsPerTask: nat, rowCount: nat): seq<Candidate> {
    if tasks == [] then []
    else
      TileCandidates(judge, tasks[..|tasks| - 1], rowsPerTask, rowCount)
      + Candidates(judge, tasks[|tasks| - 1], TileEnd(tasks[|tasks| - 1], rowsPerTask, rowCount))
  }

  /** The candidate that a tree of workers and merges ends with when there is room for one. */
  function TreeKept(order: SortOrder, judge: Judgement, tree: Tree, rowsPerTask: nat, rowCount: nat)
    : Option<Candidate>
  {
    match tree
    case Leaf(tasks) => KeepAll(order, None, TileCandidates(judge, tasks, rowsPerTask, rowCount))
    case Merge(left, right) =>
      var (one, other) := (TreeKept(order, judge, left, rowsPerTask, rowCount),
                           TreeKept(order, judge, right, rowsPerTask, rowCount));
      KeepAll(order, one, Holding(other))
  }

  function TreeTrace(order: SortOrder, judge: Judgement, tree: Tree, rowsPerTask: nat, rowCount: nat): Trace {
    Trace(multiset(TileCandidates(judge, Tasks(tree), rowsPerTask, rowCount)),
          TreeKept(order, judge, tree, rowsPerTask, rowCount))
  }

  predicate TilesScored(judge: Judgement, tasks: multiset<nat>, rowsPerTask: nat, rowCount: nat) {
    forall task | task in tasks :: AllScored(judge, task, TileEnd(task, rowsPerTask, rowCount))
  }

  predicate TasksWithin(tasks: multiset<nat>, rowCount: nat) {
    forall task | task in tasks :: task < rowCount
  }

  lemma {:induction false} TilesConcat(
      judge: Judgement, a: seq<nat>, b: seq<nat>, rowsPerTask: nat, rowCount: nat)
    ensures TileCandidates(judge, a + b, rowsPerTask, rowCount) ==
            TileCandidates(judge, a, rowsPerTask, rowCount) + TileCandidates(judge, b, rowsPerTask, rowCount)
    decreases |b|
  {
    hide Candidates;
    if b == [] {
      assert a + b == a;
    } else {
      assert (a + b)[..|a + b| - 1] == a + b[..|b| - 1];
      TilesConcat(judge, a, b[..|b| - 1], rowsPerTask, rowCount);
    }
  }

  lemma TilesOne(judge: Judgement, task: nat, rowsPerTask: nat, rowCount: nat)
    ensures TileCandidates(judge, [task], rowsPerTask, rowCount) ==
            Candidates(judge, task, TileEnd(task, rowsPerTask, rowCount))
  {
    hide Candidates;
    assert [task][..0] == [];
  }

  lemma TilesStep(judge: Judgement, tasks: seq<nat>, i: nat, rowsPerTask: nat, rowCount: nat)
    requires i < |tasks|
    ensures TileCandidates(judge, tasks[..i + 1], rowsPerTask, rowCount) ==
            TileCandidates(judge, tasks[..i], rowsPerTask, rowCount)
            + Candidates(judge, tasks[i], TileEnd(tasks[i], rowsPerTask, rowCount))
    ensures TilesScored(judge, multiset(tasks[..i]), rowsPerTask, rowCount)
            && AllScored(judge, tasks[i], TileEnd(tasks[i], rowsPerTask, rowCount)) ==>
            TilesScored(judge, multiset(tasks[..i + 1]), rowsPerTask, rowCount)
    ensures TilesScored(judge, multiset(tasks), rowsPerTask, rowCount) ==>
            AllScored(judge, tasks[i], TileEnd(tasks[i], rowsPerTask, rowCount))
  {
    hide Candidates, AllScored;
    assert tasks[..i + 1] == tasks[..i] + [tasks[i]];
    assert tasks[..i + 1][..i] == tasks[..i];
    assert tasks[i] in multiset(tasks);
  }

  /** The order in which tiles are scanned does not matter. */
  lemma {:induction false} TilesPermute(
      judge: Judgement, a: seq<nat>, b: seq<nat>, rowsPerTask: nat, rowCount: nat)
    requires multiset(a) == multiset(b)
    ensures multiset(TileCandidates(judge, a, rowsPerTask, rowCount)) == multiset(TileCandidates(judge, b, rowsPerTask, rowCount))
    decreases |a|
  {
    hide Candidates, TileCandidates;
    SameSize(a, b);
    if a != [] {
      var j := FindFirst(a, b);
      RemoveBoth(a, b, j);
      var rest := b[..j] + b[j + 1..];
      TilesPermute(judge, a[1..], rest, rowsPerTask, rowCount);
      assert a == [a[0]] + a[1..];
      assert b == b[..j] + ([b[j]] + b[j + 1..]);
      TilesConcat(judge, [a[0]], a[1..], rowsPerTask, rowCount);
      TilesConcat(judge, b[..j], [b[j]] + b[j + 1..], rowsPerTask, rowCount);
      TilesConcat(judge, [b[j]], b[j + 1..], rowsPerTask, rowCount);
      TilesConcat(judge, b[..j], b[j + 1..], rowsPerTask, rowCount);
    } else {
      assert b == [];
    }
  }

  /** The tiles of a column cover every row exactly once. */
  lemma {:induction false} TilesCover(judge: Judgement, first: nat, rowCount: nat, rowsPerTask: nat)
    requires rowsPerTask > 0 && first <= rowCount
    ensures TileCandidates(judge, TaskStarts(first, rowCount, rowsPerTask), rowsPerTask, rowCount) ==
            Candidates(judge, first, rowCount)
    ensures TilesScored(judge, multiset(TaskStarts(first, rowCount, rowsPerTask)), rowsPerTask, rowCount) <==>
            AllScored(judge, first, rowCount)
    ensures TasksWithin(multiset(TaskStarts(first, rowCount, rowsPerTask)), rowCount)
    decreases rowCount - first
  {
    hide Candidates, TileCandidates;
    var starts := TaskStarts(first, rowCount, rowsPerTask);
    if first == rowCount {
      NothingToScan(judge, first, rowsPerTask, rowCount);
    } else {
      var end := TileEnd(first, rowsPerTask, rowCount);
      var rest := TaskStarts(end, rowCount, rowsPerTask);
      assert first + rowsPerTask >= rowCount ==> TaskStarts(first + rowsPerTask, rowCount, rowsPerTask) == [] == rest;
      assert starts == [first] + rest;
      TilesCover(judge, end, rowCount, rowsPerTask);
      TilesOne(judge, first, rowsPerTask, rowCount);
      TilesConcat(judge, [first], rest, rowsPerTask, rowCount);
      CandidatesConcat(judge, first, end, rowCount);
      assert multiset(starts) == multiset{first} + multiset(rest);
    }
  }

  lemma NothingToScan(judge: Judgement, row: nat, rowsPerTask: nat, rowCount: nat)
    ensures TileCandidates(judge, [], rowsPerTask, rowCount) == []
    ensures Candidates(judge, row, row) == []
  {
  }

  lemma ThenNothing(order: SortOrder, t: Trace)
    ensures t.Then(order, []) == t
  {
  }

  lemma ThenMore(order: SortOrder, t: Trace, a: seq<Candidate>, b: seq<Candidate>)
    ensures t.Then(order, a).Then(order, b) == t.Then(order, a + b)
  {
    hide KeepAll;
    KeepAllConcat(order, t.kept, a, b);
  }

  /** Best of the left and of what the right kept is best of both; room for one holds one of the two. */
  lemma MergedHeap(
      heap: BoundedHeap<Candidate>, plan: Plan, judge: Judgement, n: nat,
      left: Trace, right: Trace, part: multiset<Candidate>, pushed: seq<Candidate>)
    requires HeapIs(heap, plan, judge, n, left.Then(plan.order, pushed)) && multiset(pushed) == part <= right.seen
    requires AllOk(Scored(judge, n), left.seen) && AllOk(Scored(judge, n), right.seen)
    requires Orderly(plan.order, judge, n) ==> IsBest(LessBy(plan.order), part, right.seen, plan.Capacity())
    requires plan.Capacity() == 1 ==> part == multiset(Holding(right.kept))
    ensures HeapIs(heap, plan, judge, n,
                   Trace(left.seen + right.seen, KeepAll(plan.order, left.kept, Holding(right.kept))))
  {
    hide WeakOrder, Less, IsBest, Scored, AllOk, KeepAll;
    BothOk(Scored(judge, n), left.seen, right.seen);
    if Orderly(plan.order, judge, n) {
      MergeBest(heap.less, Scored(judge, n), left.seen, part, right.seen, heap.items, plan.Capacity());
    }
    if plan.Capacity() == 1 {
      OneList(pushed, Holding(right.kept));
    }
    assert part <= right.seen;
  }

  lemma OneList<T>(a: seq<T>, b: seq<T>)
    requires multiset(a) == multiset(b) && |b| <= 1
    ensures a == b
  {
    SameSize(a, b);
    if b != [] {
      assert a[0] in multiset(a) && a == [a[0]] && b == [b[0]];
    }
  }

  /** Push everything from one heap into another, in any order. */
  method MergeInto(
      left: BoundedHeap<Candidate>, right: BoundedHeap<Candidate>, plan: Plan,
      ghost judge: Judgement, ghost n: nat, ghost leftTrace: Trace, ghost rightTrace: Trace)
    requires left != right && HeapIs(left, plan, judge, n, leftTrace) && HeapIs(right, plan, judge, n, rightTrace)
    modifies left
    ensures HeapIs(left, plan, judge, n, Trace(leftTrace.seen + rightTrace.seen,
                                               KeepAll(plan.order, leftTrace.kept, Holding(rightTrace.kept))))
  {
    hide WeakOrder, IsBest, Scored, AllOk, Orderly, KeepAll, HeapIs, Trace.Then;
    HeapFacts(left, plan, judge, n, leftTrace);
    HeapFacts(right, plan, judge, n, rightTrace);
    ghost var part := right.items;
    var rest := right.items;
    ghost var pushed: seq<Candidate> := [];
    ThenNothing(plan.order, leftTrace);
    while rest != multiset{}
      invariant multiset(pushed) + rest == part
      invariant HeapIs(left, plan, judge, n, leftTrace.Then(plan.order, pushed))
      decreases |rest|
    {
      var c :| c in rest;
      AllOkAt(Scored(judge, n), rightTrace.seen, c);
      PushCandidate(left, plan, c, judge, n, leftTrace.Then(plan.order, pushed));
      ThenMore(plan.order, leftTrace, pushed, [c]);
      rest := rest - multiset{c};
      pushed := pushed + [c];
    }
    MergedHeap(left, plan, judge, n, leftTrace, rightTrace, part, pushed);
  }

  lemma HeapFacts(heap: BoundedHeap<Candidate>, plan: Plan, judge: Judgement, n: nat, t: Trace)
    requires HeapIs(heap, plan, judge, n, t)
    ensures heap.items <= t.seen && AllOk(Scored(judge, n), t.seen)
    ensures Orderly(plan.order, judge, n) ==> IsBest(LessBy(plan.order), heap.items, t.seen, plan.Capacity())
    ensures plan.Capacity() == 1 ==> heap.items == multiset(Holding(t.kept))
  {
    hide WeakOrder, IsBest, AllOk, Less;
  }

  lemma AllOkAt<T>(ok: T -> bool, s: multiset<T>, x: T)
    requires AllOk(ok, s) && x in s
    ensures ok(x)
  {
  }

  /** One worker folds its tiles into one heap: a filtered scan goes row by row, and any other chunk by chunk. */
  method FoldTasks(
      dense: DenseVectorColumn, rows: seq<Row>, column: nat, plan: Plan, rowsPerTask: nat, tasks: seq<nat>,
      ghost judge: Judgement) returns (r: Result<BoundedHeap<Candidate>>)
    requires Judges(judge, dense, rows, column, plan) && rowsPerTask > 0
    requires TasksWithin(multiset(tasks), dense.rowCount)
    ensures
      if r.Success? then
        && fresh(r.value) && TilesScored(judge, multiset(tasks), rowsPerTask, dense.rowCount)
        && HeapIs(r.value, plan, judge, dense.rowCount,
                  NOTHING.Then(plan.order, TileCandidates(judge, tasks, rowsPerTask, dense.rowCount)))
      else FailsWith(judge, 0, dense.rowCount, r.error)
  {
    hide Candidates, Judges, AllScored, HeapIs, TileEnd, Trace.Then, FailsWith;
    var heap := new BoundedHeap(LessBy(plan.order));
    EmptyHeap(heap, plan, judge, dense.rowCount);
    ghost var pushed := NOTHING;
    NoTiles(plan.order, judge, tasks, rowsPerTask, dense.rowCount);
    hide TilesScored, TileCandidates;
    for i := 0 to |tasks|
      invariant TilesScored(judge, multiset(tasks[..i]), rowsPerTask, dense.rowCount)
      invariant pushed == NOTHING.Then(plan.order, TileCandidates(judge, tasks[..i], rowsPerTask, dense.rowCount))
      invariant HeapIs(heap, plan, judge, dense.rowCount, pushed)
    {
      assert tasks[i] in multiset(tasks);
      TilesStep(judge, tasks, i, rowsPerTask, dense.rowCount);
      var scanned;
      if plan.filter.None? {
        scanned := ScanTile(heap, dense, rows, column, plan, tasks[i], rowsPerTask, judge, pushed);
      } else {
        var end := TileEnd(tasks[i], rowsPerTask, dense.rowCount);
        TileFits(tasks[i], rowsPerTask, dense.rowCount);
        scanned := ScoreRows(heap, dense, rows, column, plan, tasks[i], end, judge, pushed);
      }
      if scanned.Failure? {
        TileFails(judge, tasks[i], rowsPerTask, dense.rowCount, scanned.error);
        return Failure(scanned.error);
      }
      ghost var tile := Candidates(judge, tasks[i], TileEnd(tasks[i], rowsPerTask, dense.rowCount));
      ThenMore(plan.order, NOTHING, TileCandidates(judge, tasks[..i], rowsPerTask, dense.rowCount), tile);
      pushed := pushed.Then(plan.order, tile);
    }
    assert tasks[..|tasks|] == tasks;
    return Success(heap);
  }

  lemma TileFits(first: nat, rowsPerTask: nat, rowCount: nat)
    requires first < rowCount
    ensures first <= TileEnd(first, rowsPerTask, rowCount) <= rowCount
  {
  }

  lemma TileFails(judge: Judgement, first: nat, rowsPerTask: nat, rowCount: nat, e: Error)
    requires first < rowCount && FailsWith(judge, first, TileEnd(first, rowsPerTask, rowCount), e)
    ensures FailsWith(judge, 0, rowCount, e)
  {
  }

  lemma NoTiles(order: SortOrder, judge: Judgement, tasks: seq<nat>, rowsPerTask: nat, rowCount: nat)
    ensures TilesScored(judge, multiset(tasks[..0]), rowsPerTask, rowCount)
    ensures NOTHING.Then(order, TileCandidates(judge, tasks[..0], rowsPerTask, rowCount)) == NOTHING
  {
  }

  lemma SplitTasks(a: seq<nat>, b: seq<nat>, judge: Judgement, rowsPerTask: nat, rowCount: nat)
    ensures TasksWithin(multiset(a + b), rowCount) <==>
            TasksWithin(multiset(a), rowCount) && TasksWithin(multiset(b), rowCount)
    ensures TilesScored(judge, multiset(a + b), rowsPerTask, rowCount) <==>
            TilesScored(judge, multiset(a), rowsPerTask, rowCount)
            && TilesScored(judge, multiset(b), rowsPerTask, rowCount)
  {
    hide AllScored;
    assert multiset(a + b) == multiset(a) + multiset(b);
    forall x
      ensures x in multiset(a + b) <==> x in multiset(a) || x in multiset(b)
    {
    }
  }

  /** Workers and merges, in the order the tree says. */
  method RunTree(
      dense: DenseVectorColumn, rows: seq<Row>, column: nat, plan: Plan, rowsPerTask: nat, tree: Tree,
      ghost judge: Judgement) returns (r: Result<BoundedHeap<Candidate>>)
    requires Judges(judge, dense, rows, column, plan) && rowsPerTask > 0
    requires TasksWithin(multiset(Tasks(tree)), dense.rowCount)
    ensures
      if r.Success? then
        && fresh(r.value) && TilesScored(judge, multiset(Tasks(tree)), rowsPerTask, dense.rowCount)
        && HeapIs(r.value, plan, judge, dense.rowCount, TreeTrace(plan.order, judge, tree, rowsPerTask, dense.rowCount))
      else FailsWith(judge, 0, dense.rowCount, r.error)
    decreases tree
  {
    hide Candidates, Judges, AllScored, HeapIs, TileCandidates, TilesScored, TasksWithin, FailsWith, KeepAll;
    match tree {
      case Leaf(tasks) =>
        r := FoldTasks(dense, rows, column, plan, rowsPerTask, tasks, judge);
        assert NOTHING.Then(plan.order, TileCandidates(judge, tasks, rowsPerTask, dense.rowCount))
            == TreeTrace(plan.order, judge, tree, rowsPerTask, dense.rowCount);
      case Merge(left, right) =>
        SplitTasks(Tasks(left), Tasks(right), judge, rowsPerTask, dense.rowCount);
        var one := RunTree(dense, rows, column, plan, rowsPerTask, left, judge);
        if one.Failure? {
          return Failure(one.error);
        }
        var other := RunTree(dense, rows, column, plan, rowsPerTask, right, judge);
        if other.Failure? {
          return Failure(other.error);
        }
        TilesConcat(judge, Tasks(left), Tasks(right), rowsPerTask, dense.rowCount);
        MergeInto(one.value, other.value, plan, judge, dense.rowCount,
                  TreeTrace(plan.order, judge, left, rowsPerTask, dense.rowCount),
                  TreeTrace(plan.order, judge, right, rowsPerTask, dense.rowCount));
        return Success(one.value);
    }
  }

  /** Sort what a heap holds, skip and take. */
  method FinishHeap(
      heap: BoundedHeap<Candidate>, plan: Plan, ghost judge: Judgement, ghost n: nat, ghost t: Trace)
    returns (result: seq<Candidate>)
    requires SoundJudge(judge) && HeapIs(heap, plan, judge, n, t)
    requires t.seen == multiset(Candidates(judge, 0, n))
    ensures Orderly(plan.order, judge, n) ==> result == TopSlice(plan, Candidates(judge, 0, n))
    ensures plan.Capacity() == 1 ==> result == Slice(Holding(t.kept), plan.offset, plan.limit)
  {
    hide WeakOrder, IsBest, Scored, Candidates, Sort, SoundJudge;
    var drained := Drain(heap.items);
    var sorted := Sort(LessBy(plan.order), drained);
    if Orderly(plan.order, judge, n) {
      SubsetOk(Scored(judge, n), heap.items, t.seen);
      SortSorts(LessBy(plan.order), Scored(judge, n), drained);
      HeapGivesSlice(plan, judge, n, sorted);
    }
    if plan.Capacity() == 1 {
      OneList(sorted, Holding(t.kept));
    }
    return Slice(sorted, plan.offset, plan.limit);
  }

  /** How the tiles of `n` rows may be split over workers. */
  ghost predicate Splits(tree: Tree, n: nat, rowsPerTask: nat) {
    rowsPerTask > 0 && multiset(Tasks(tree)) == multiset(TaskStarts(0, n, rowsPerTask))
  }

  lemma TreeSeesAll(order: SortOrder, judge: Judgement, tree: Tree, n: nat, rowsPerTask: nat)
    requires Splits(tree, n, rowsPerTask)
    ensures TasksWithin(multiset(Tasks(tree)), n)
    ensures TreeTrace(order, judge, tree, rowsPerTask, n).seen == multiset(Candidates(judge, 0, n))
    ensures TilesScored(judge, multiset(Tasks(tree)), rowsPerTask, n) <==> AllScored(judge, 0, n)
  {
    hide Candidates, AllScored, TileCandidates, TilesScored, TasksWithin;
    TilesCover(judge, 0, n, rowsPerTask);
    TilesPermute(judge, Tasks(tree), TaskStarts(0, n, rowsPerTask), rowsPerTask, n);
  }

  /** Exact top-k: for any tile size, any distribution of the tiles over workers and any merge order, the
      parallel scan returns the specified slice of all scored rows, and fails exactly when some row does, like one
      such row. That holds when the order ranks the scored rows; with room for one row, the result is told
      whatever the order. */
  method ParallelTopK(
      dense: DenseVectorColumn, rows: seq<Row>, column: nat, plan: Plan, rowsPerTask: nat, tree: Tree)
    returns (r: Result<seq<Candidate>>)
    requires dense.Valid() && Splits(tree, dense.rowCount, rowsPerTask)
    ensures
      var judge, n := Judge(plan, rows, column, dense.contents, dense.norm), dense.rowCount;
      if AllScored(judge, 0, n) then
        && r.Success?
        && (Orderly(plan.order, judge, n) ==> r.value == TopSlice(plan, Candidates(judge, 0, n)))
        && (plan.Capacity() == 1 ==>
              r.value == Slice(Holding(TreeKept(plan.order, judge, tree, rowsPerTask, n)), plan.offset, plan.limit))
      else r.Failure? && FailsWith(judge, 0, n, r.error)
  {
    hide Candidates, AllScored, HeapIs, TileCandidates, TilesScored, TasksWithin, Tiled, Indexed, TopSlice, FailsWith,
         Orderly, Splits;
    ghost var judge := Judge(plan, rows, column, dense.contents, dense.norm);
    JudgeIsSound(plan, rows, column, dense.contents, dense.norm);
    assert Judges(judge, dense, rows, column, plan);
    hide Judge, Judges, SoundJudge;
    Positive(tree, dense.rowCount, rowsPerTask);
    TreeSeesAll(plan.order, judge, tree, dense.rowCount, rowsPerTask);
    var heap := RunTree(dense, rows, column, plan, rowsPerTask, tree, judge);
    if heap.Failure? {
      NotAllScored(judge, 0, dense.rowCount, heap.error);
      return Failure(heap.error);
    }
    var result := FinishHeap(heap.value, plan, judge, dense.rowCount,
                             TreeTrace(plan.order, judge, tree, rowsPerTask, dense.rowCount));
    return Success(result);
  }

  lemma Positive(tree: Tree, n: nat, rowsPerTask: nat)
    requires Splits(tree, n, rowsPerTask)
    ensures rowsPerTask > 0
  {
  }

  /** The scan by one thread returns the same slice. */
  method SequentialTopK(dense: DenseVectorColumn, rows: seq<Row>, column: nat, plan: Plan)
    returns (r: Result<seq<Candidate>>)
    requires dense.Valid()
    ensures
      var judge, n := Judge(plan, rows, column, dense.contents, dense.norm), dense.rowCount;
      if AllScored(judge, 0, n) then
        && r.Success?
        && (Orderly(plan.order, judge, n) ==> r.value == TopSlice(plan, Candidates(judge, 0, n)))
        && (plan.Capacity() == 1 ==>
              r.value == Slice(Holding(KeepAll(plan.order, None, Candidates(judge, 0, n))), plan.offset, plan.limit))
      else r.Failure? && FailsWith(judge, 0, n, r.error)
  {
    hide Candidates, AllScored, HeapIs, Tiled, Indexed, TopSlice, FailsWith, Orderly, KeepAll;
    ghost var judge := Judge(plan, rows, column, dense.contents, dense.norm);
    JudgeIsSound(plan, rows, column, dense.contents, dense.norm);
    assert Judges(judge, dense, rows, column, plan);
    hide Judge, Judges, SoundJudge;
    var heap;
    if plan.filter.None? {
      heap := SequentialScan(dense, rows, column, plan, judge);
    } else {
      heap := SequentialRows(dense, rows, column, plan, judge);
    }
    if heap.Failure? {
      NotAllScored(judge, 0, dense.rowCount, heap.error);
      return Failure(heap.error);
    }
    assert multiset{} + multiset(Candidates(judge, 0, dense.rowCount)) == multiset(Candidates(judge, 0, dense.rowCount));
    var result := FinishHeap(heap.value, plan, judge, dense.rowCount,
                             NOTHING.Then(plan.order, Candidates(judge, 0, dense.rowCount)));
    return Success(result);
  }
}
