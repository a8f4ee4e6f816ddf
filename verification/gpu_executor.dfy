/** Streaming exact scores from a device: a cache of uploaded columns with a byte budget, and a pipeline that
    keeps two batches in flight. */
module GpuExecution {
  import opened Wrappers
  import opened Bytes
  import opened Values
  import opened GpuColumn

  /* ----- The cache ----- */

  function TotalBytes(cached: seq<CachedColumn>): nat {
    if cached == [] then 0 else TotalBytes(cached[..|cached| - 1]) + cached[|cached| - 1].bytes
  }

  lemma {:induction false} TotalConcat(a: seq<CachedColumn>, b: seq<CachedColumn>)
    ensures TotalBytes(a + b) == TotalBytes(a) + TotalBytes(b)
    decreases |b|
  {
    if b == [] {
      assert a + b == a;
    } else {
      assert (a + b)[..|a + b| - 1] == a + b[..|b| - 1];
      TotalConcat(a, b[..|b| - 1]);
    }
  }

  lemma TotalOne(c: CachedColumn)
    ensures TotalBytes([c]) == c.bytes
  {
    assert [c][..0] == [];
  }

  predicate Matches(cached: CachedColumn, column: ColumnView) {
    cached.storageId == column.storageId && cached.dimensions == column.dimensions && cached.rowCount == column.rowCount
  }

  /** Moves an entry to the front. */
  function Promoted(cached: seq<CachedColumn>, p: nat): (r: seq<CachedColumn>)
    requires p < |cached|
    ensures |r| == |cached| && r[0] == cached[p]
  {
    [cached[p]] + cached[..p] + cached[p + 1..]
  }

  lemma MoveToFront(before: seq<CachedColumn>, e: CachedColumn, after: seq<CachedColumn>)
    ensures TotalBytes([e] + before + after) == TotalBytes(before + [e] + after)
  {
    hide TotalBytes;
    TotalConcat([e] + before, after);
    TotalConcat([e], before);
    TotalConcat(before + [e], after);
    TotalConcat(before, [e]);
  }

  lemma PromotedKeepsBytes(cached: seq<CachedColumn>, p: nat)
    requires p < |cached|
    ensures TotalBytes(Promoted(cached, p)) == TotalBytes(cached)
  {
    hide TotalBytes;
    SplitAt(cached, p);
    MoveToFront(cached[..p], cached[p], cached[p + 1..]);
  }

  lemma SplitAt<T>(s: seq<T>, p: nat)
    requires p < |s|
    ensures s[..p] + [s[p]] + s[p + 1..] == s
  {
  }

  class GpuCache {
    const device: Device
    const maxCacheBytes: nat
    /** What every storage generation holds; a changed column gets a new generation. */
    ghost const contentOf: nat -> ColumnView
    /** Most recently used first. */
    var cached: seq<CachedColumn>
    var cachedBytes: nat

    /** The byte counter is exact and within budget, and every entry holds its column. */
    ghost predicate Valid()
      reads this
    {
      && cachedBytes == TotalBytes(cached) <= maxCacheBytes
      && forall i | 0 <= i < |cached| :: EntryOk(cached[i])
    }

    ghost predicate EntryOk(e: CachedColumn) {
      && WellFormed(contentOf(e.storageId)) && Uploaded(e, contentOf(e.storageId), device.narrow)
      && e.rowsPerShard <= U32_MAX
    }

    ghost predicate Holds(column: ColumnView)
      reads this
    {
      exists p | 0 <= p < |cached| :: Matches(cached[p], column)
    }

    /** The column can be brought to the device: it can be laid out within the budget, with usable norms. */
    ghost predicate Cacheable(column: ColumnView) {
      LayoutFits(column, device) && ColumnBytes(column) <= maxCacheBytes && NormsUsable(column, 0, column.rowCount)
    }

    constructor (device: Device, maxCacheBytes: nat, ghost contentOf: nat -> ColumnView)
      ensures Valid() && cached == [] && this.device == device && this.maxCacheBytes == maxCacheBytes
      ensures this.contentOf == contentOf
    {
      this.device, this.maxCacheBytes, this.contentOf := device, maxCacheBytes, contentOf;
      cached, cachedBytes := [], 0;
    }

    /** Brings the column to the front. A hit only moves its entry. A miss evicts from the back, and only as much
        as the new entry needs. The accounting never goes wrong: no execution error is reported. */
    method EnsureCached(column: ColumnView) returns (r: Gpu<()>)
      requires Valid() && contentOf(column.storageId) == column
      modifies this
      ensures Valid()
      ensures r.Ok? <==> old(Holds(column)) || Cacheable(column)
      ensures r.Ok? ==> cached != [] && EntryOk(cached[0]) && Matches(cached[0], column)
      ensures r.Err? ==> r.error == InvalidInput || r.error == Limit
      ensures old(Holds(column)) ==> exists p | 0 <= p < |old(cached)| :: cached == Promoted(old(cached), p)
      ensures r.Ok? && !old(Holds(column)) ==>
        exists k | 0 <= k <= |old(cached)| ::
          && cached[1..] == old(cached)[..k]
          && (k < |old(cached)| ==> TotalBytes(old(cached)[..k + 1]) + cached[0].bytes > maxCacheBytes)
    {
      hide WellFormed, Uploaded;
      var position := FindCached(column);
      if position.Some? {
        PromotedKeepsBytes(cached, position.value);
        PromotedOk(position.value);
        cached := Promoted(cached, position.value);
        return Ok(());
      }
      var layout := LayOut(column, device);
      if layout.Err? {
        return Err(layout.error);
      }
      if layout.value.bytes > maxCacheBytes {
        return Err(Limit);
      }
      Evict(layout.value.bytes);
      var uploaded := UploadColumn(column, layout.value, device.narrow);
      if uploaded.Err? {
        return Err(uploaded.error);
      }
      UploadedMatches(uploaded.value, column, device.narrow);
      Insert(uploaded.value);
      return Ok(());
    }

    /** Drops entries from the back until so many bytes are free, and no more than that. */
    method Evict(bytes: nat)
      requires Valid() && bytes <= maxCacheBytes
      modifies this
      ensures Valid() && cachedBytes + bytes <= maxCacheBytes
      ensures |cached| <= |old(cached)| && cached == old(cached)[..|cached|]
      ensures |cached| < |old(cached)| ==> TotalBytes(old(cached)[..|cached| + 1]) + bytes > maxCacheBytes
    {
      hide EntryOk;
      ghost var before := cached;
      while cachedBytes > maxCacheBytes - bytes
        invariant Valid() && |cached| <= |before| && cached == before[..|cached|]
        invariant |cached| < |before| ==> TotalBytes(before[..|cached| + 1]) + bytes > maxCacheBytes
        decreases |cached|
      {
        var evicted := cached[|cached| - 1];
        cachedBytes := cachedBytes - evicted.bytes;
        cached := cached[..|cached| - 1];
      }
    }

    method Insert(e: CachedColumn)
      requires Valid() && EntryOk(e) && cachedBytes + e.bytes <= maxCacheBytes
      modifies this
      ensures Valid() && cached == [e] + old(cached)
    {
      hide EntryOk;
      TotalConcat([e], cached);
      TotalOne(e);
      cachedBytes := cachedBytes + e.bytes;
      cached := [e] + cached;
    }

    method FindCached(column: ColumnView) returns (p: Option<nat>)
      ensures p.Some? ==> p.value < |cached| && Matches(cached[p.value], column)
      ensures p.None? ==> forall i | 0 <= i < |cached| :: !Matches(cached[i], column)
    {
      for i := 0 to |cached|
        invariant forall k | 0 <= k < i :: !Matches(cached[k], column)
      {
        if Matches(cached[i], column) {
          return Some(i);
        }
      }
      return None;
    }

    lemma PromotedOk(p: nat)
      requires Valid() && p < |cached|
      ensures forall i | 0 <= i < |cached| :: EntryOk(Promoted(cached, p)[i])
    {
      hide EntryOk;
    }
  }

  lemma UploadedMatches(e: CachedColumn, column: ColumnView, narrow: f64 -> f32)
    requires Uploaded(e, column, narrow)
    ensures Matches(e, column) && e.bytes == ColumnBytes(column)
  {
  }

  /* ----- Dispatching ----- */

  datatype DispatchShape = DispatchShape(x: nat, y: nat)

  function CeilDiv(a: nat, b: nat): nat
    requires b > 0
  {
    (a + b - 1) / b
  }

  /** One workgroup for each candidate, in a grid of at most so many workgroups each way. */
  function Dispatch(candidateCount: nat, maxWorkgroups: nat): Gpu<DispatchShape> {
    if candidateCount == 0 then Err(InvalidInput)
    else if maxWorkgroups == 0 then Err(Limit)
    else
      var x := GpuColumn.Min(candidateCount, maxWorkgroups);
      var y := CeilDiv(candidateCount, x);
      if y > maxWorkgroups || x * y > U32_MAX then Err(Limit) else Ok(DispatchShape(x, y))
  }

  /** The candidate a workgroup scores. */
  function GroupCandidate(shape: DispatchShape, gx: nat, gy: nat): nat {
    gx + gy * shape.x
  }

  /** The grid has exactly one workgroup for each candidate. */
  lemma GridCoversOnce(candidateCount: nat, maxWorkgroups: nat, candidate: nat)
    requires Dispatch(candidateCount, maxWorkgroups).Ok? && candidate < candidateCount
    ensures var shape := Dispatch(candidateCount, maxWorkgroups).value;
      && 0 < shape.x <= maxWorkgroups && 0 < shape.y <= maxWorkgroups
      && candidate % shape.x < shape.x && candidate / shape.x < shape.y
      && GroupCandidate(shape, candidate % shape.x, candidate / shape.x) == candidate
      && forall gx: nat, gy: nat | gx < shape.x && GroupCandidate(shape, gx, gy) == candidate ::
           gx == candidate % shape.x && gy == candidate / shape.x
  {
    var shape := Dispatch(candidateCount, maxWorkgroups).value;
    CeilCovers(candidateCount, shape.x, candidate);
    forall gx: nat, gy: nat | gx < shape.x && GroupCandidate(shape, gx, gy) == candidate
      ensures gx == candidate % shape.x && gy == candidate / shape.x
    {
      DivisionIsUnique(candidate, shape.x, gy, gx);
    }
  }

  lemma CeilCovers(count: nat, x: nat, candidate: nat)
    requires 0 < x && candidate < count
    ensures candidate / x < CeilDiv(count, x)
  {
    if candidate / x >= CeilDiv(count, x) {
      ProductsOrdered(CeilDiv(count, x), candidate / x, x);
    }
  }
}
