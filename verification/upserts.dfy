/** INSERT ... ON CONFLICT DO UPDATE: the statement-by-statement meaning, and the bounded patch that does the
    same to the stored rows without copying them. */
module Upserts {
  import opened Wrappers
  import opened Values
  import opened Indexes
  import opened Conflicts

  /* ----- The meaning ----- */

  /** What became of an incoming row: appended, written over a stored row, or refused by the WHERE of the update. */
  datatype Fate = Appended | Replaced(row: nat) | Skipped(row: nat)

  datatype Merge = Merge(rows: seq<Row>, touched: set<nat>, affected: nat, fates: seq<Fate>)

  /** Computes the row to write from the stored and the incoming row, or `None` to leave it. */
  type Replacement = (Row, Row) -> Result<Option<Row>>

  ghost predicate KeepsWidth(replace: Replacement, width: nat) {
    forall a: Row, b: Row | |a| == width && |b| == width ::
      replace(a, b).Success? && replace(a, b).value.Some? ==> |replace(a, b).value.value| == width
  }

  lemma WidthKept(replace: Replacement, width: nat, a: Row, b: Row)
    requires KeepsWidth(replace, width) && |a| == width && |b| == width
    ensures replace(a, b).Success? && replace(a, b).value.Some? ==> |replace(a, b).value.value| == width
  {
  }

  function FindEqual(rows: seq<Row>, c: nat, v: Value): (r: Option<nat>)
    requires forall i | 0 <= i < |rows| :: c < |rows[i]|
    ensures r.Some? ==> r.value < |rows| && SqlEq(rows[r.value][c], v) && forall i | 0 <= i < r.value :: !SqlEq(rows[i][c], v)
    ensures r.None? ==> forall i | 0 <= i < |rows| :: !SqlEq(rows[i][c], v)
  {
    FindEqualFrom(rows, c, v, 0)
  }

  function FindEqualFrom(rows: seq<Row>, c: nat, v: Value, from: nat): (r: Option<nat>)
    requires from <= |rows| && forall i | 0 <= i < |rows| :: c < |rows[i]|
    ensures r.Some? ==> from <= r.value < |rows| && SqlEq(rows[r.value][c], v)
                        && forall i | from <= i < r.value :: !SqlEq(rows[i][c], v)
    ensures r.None? ==> forall i | from <= i < |rows| :: !SqlEq(rows[i][c], v)
    decreases |rows| - from
  {
    if from == |rows| then None
    else if SqlEq(rows[from][c], v) then Some(from)
    else FindEqualFrom(rows, c, v, from + 1)
  }

  /** The row an incoming row conflicts with; NULL conflicts with nothing. */
  function ConflictRow(rows: seq<Row>, c: nat, incoming: Row): (r: Option<nat>)
    requires c < |incoming| && forall i | 0 <= i < |rows| :: c < |rows[i]|
    ensures r.Some? ==> r.value < |rows| && !incoming[c].Null? && SqlEq(rows[r.value][c], incoming[c])
  {
    if incoming[c].Null? then None else FindEqual(rows, c, incoming[c])
  }

  /** One incoming row. */
  function MergeOne(columns: seq<Column>, m: Merge, incoming: Row, c: nat, replace: Replacement): (r: Result<Merge>)
    requires Wide(m.rows, |columns|) && |incoming| == |columns| && c < |columns| && KeepsWidth(replace, |columns|)
    ensures r.Success? ==> Wide(r.value.rows, |columns|)
  {
    match ConflictRow(m.rows, c, incoming)
    case None =>
      Success(Merge(m.rows + [incoming], m.touched + {|m.rows|}, m.affected + 1, m.fates + [Appended]))
    case Some(i) =>
      if i in m.touched then Failure(InvalidQuery(RepeatedRow))
      else
        var replacement :- replace(m.rows[i], incoming);
        if replacement.None? then
          Success(Merge(m.rows, m.touched + {i}, m.affected, m.fates + [Skipped(i)]))
        else
          var _ :- ValidateRow(columns, replacement.value);
          Success(Merge(m.rows[i := replacement.value], m.touched + {i}, m.affected + 1, m.fates + [Replaced(i)]))
  }

  function Start(rows: seq<Row>): Merge {
    Merge(rows, {}, 0, [])
  }

  /** All incoming rows, in order, on a private copy of the rows. */
  function MergeAll(columns: seq<Column>, rows: seq<Row>, pending: seq<Row>, c: nat, replace: Replacement): (r: Result<Merge>)
    requires Wide(rows, |columns|) && Wide(pending, |columns|) && c < |columns| && KeepsWidth(replace, |columns|)
    ensures r.Success? ==> Wide(r.value.rows, |columns|)
  {
    if pending == [] then Success(Start(rows))
    else
      var before :- MergeAll(columns, rows, pending[..|pending| - 1], c, replace);
      MergeOne(columns, before, pending[|pending| - 1], c, replace)
  }

  /** The whole statement: merge, then check uniqueness and the size of the result. */
  ghost function Upserted(columns: seq<Column>, rows: seq<Row>, pending: seq<Row>, c: nat, replace: Replacement)
    : (r: Result<Merge>)
    requires Wide(rows, |columns|) && Wide(pending, |columns|) && c < |columns| && KeepsWidth(replace, |columns|)
    ensures r.Success? ==> Wide(r.value.rows, |columns|)
  {
    var m :- MergeAll(columns, rows, pending, c, replace);
    var _ :- UniqueCheck(columns, m.rows, 0);
    var _ :- Capacity(0, |m.rows|);
    Success(m)
  }

  function CountAppended(fates: seq<Fate>): (n: nat)
    ensures n <= |fates|
  {
    if fates == [] then 0 else CountAppended(fates[..|fates| - 1]) + if fates[|fates| - 1].Appended? then 1 else 0
  }

  function CountReplaced(fates: seq<Fate>): (n: nat)
    ensures n <= |fates|
  {
    if fates == [] then 0 else CountReplaced(fates[..|fates| - 1]) + if fates[|fates| - 1].Replaced? then 1 else 0
  }

  predicate Hits(f: Fate, i: nat) {
    !f.Appended? && f.row == i
  }

  ghost predicate HitBy(fates: seq<Fate>, i: nat) {
    exists k | 0 <= k < |fates| :: Hits(fates[k], i)
  }

  ghost predicate AllExplained(m: Merge, rows: seq<Row>, pending: seq<Row>, c: nat, replace: Replacement) {
    && |m.fates| == |pending| && |m.rows| >= |rows|
    && forall k | 0 <= k < |pending| :: OneExplained(m, rows, pending, replace, c, k)
  }

  /** No stored row is hit twice. */
  ghost predicate HitOnce(fates: seq<Fate>) {
    forall k, l | 0 <= k < l < |fates| && !fates[k].Appended? && !fates[l].Appended? :: fates[k].row != fates[l].row
  }

  ghost predicate OthersStay(after: seq<Row>, rows: seq<Row>, fates: seq<Fate>) {
    |after| >= |rows| && forall i | 0 <= i < |rows| && !HitBy(fates, i) :: after[i] == rows[i]
  }

  /** What a successful merge wrote. */
  ghost predicate Wrote(m: Merge, rows: seq<Row>, pending: seq<Row>, c: nat, replace: Replacement) {
    && |m.rows| == |rows| + CountAppended(m.fates)
    && m.affected == CountAppended(m.fates) + CountReplaced(m.fates)
    && AllExplained(m, rows, pending, c, replace)
    && HitOnce(m.fates)
    && OthersStay(m.rows, rows, m.fates)
  }

  /** An appended row lies behind the stored ones, in the order of arrival; a row that hits a stored row has an
      equal conflict value, and the stored row becomes what the update makes of the original, or stays. */
  ghost predicate OneExplained(m: Merge, rows: seq<Row>, pending: seq<Row>, replace: Replacement, c: nat, k: nat)
    requires k < |pending| == |m.fates| && |m.rows| >= |rows|
  {
    match m.fates[k]
    case Appended =>
      var at := |rows| + CountAppended(m.fates[..k]);
      at < |m.rows| && m.rows[at] == pending[k]
    case Replaced(i) =>
      && i < |rows| && c < |rows[i]| && c < |pending[k]| && SqlEq(rows[i][c], pending[k][c])
      && replace(rows[i], pending[k]) == Success(Some(m.rows[i]))
    case Skipped(i) =>
      && i < |rows| && c < |rows[i]| && c < |pending[k]| && SqlEq(rows[i][c], pending[k][c])
      && replace(rows[i], pending[k]) == Success(None) && m.rows[i] == rows[i]
  }

  /** The rows as the `k`-th incoming row met them: stored rows that were not hit yet, what hits had written by
      then, and the rows appended by then. */
  ghost function Standing(m: Merge, rows: seq<Row>, k: nat): (s: seq<Row>)
    requires k <= |m.fates| && |m.rows| == |rows| + CountAppended(m.fates)
    ensures |s| == |rows| + CountAppended(m.fates[..k])
  {
    CountsPrefix(m.fates, k);
    seq(|rows| + CountAppended(m.fates[..k]), i requires 0 <= i < |rows| + CountAppended(m.fates[..k]) =>
      if i < |rows| && !HitBy(m.fates[..k], i) then rows[i] else m.rows[i])
  }

  lemma {:induction false} CountsPrefix(fates: seq<Fate>, k: nat)
    requires k <= |fates|
    ensures CountAppended(fates[..k]) <= CountAppended(fates)
  {
    if k == |fates| {
      assert fates[..k] == fates;
    } else {
      assert fates[..|fates| - 1][..k] == fates[..k];
      CountsPrefix(fates[..|fates| - 1], k);
    }
  }

  ghost predicate EqualAt(standing: seq<Row>, c: nat, i: nat, v: Value)
    requires i < |standing|
  {
    c < |standing[i]| && SqlEq(standing[i][c], v)
  }

  /** An incoming row is appended exactly if no row it met has an equal conflict value, and otherwise hits the first
      that has; NULL equals nothing here. */
  ghost predicate OneDecided(m: Merge, rows: seq<Row>, pending: seq<Row>, c: nat, k: nat)
    requires k < |pending| == |m.fates| && |m.rows| == |rows| + CountAppended(m.fates)
  {
    var standing := Standing(m, rows, k);
    c < |pending[k]| &&
    match m.fates[k]
    case Appended => pending[k][c].Null? || forall i | 0 <= i < |standing| :: !EqualAt(standing, c, i, pending[k][c])
    case _ =>
      var hit := m.fates[k].row;
      && !pending[k][c].Null? && hit < |standing| && EqualAt(standing, c, hit, pending[k][c])
      && forall i | 0 <= i < hit :: !EqualAt(standing, c, i, pending[k][c])
  }

  /** What a successful merge did: the rows it wrote, and why each incoming row was appended or hit a stored row. */
  ghost predicate Explained(m: Merge, rows: seq<Row>, pending: seq<Row>, c: nat, replace: Replacement) {
    && Wrote(m, rows, pending, c, replace)
    && forall k | 0 <= k < |pending| :: OneDecided(m, rows, pending, c, k)
  }

  /** Touched are the rows hit so far, and everything appended. */
  ghost predicate TouchedAre(m: Merge, rows: seq<Row>) {
    forall i: nat :: i in m.touched <==>
      || |rows| <= i < |m.rows|
      || (i < |rows| && HitBy(m.fates, i))
  }

  lemma CountsNext(fates: seq<Fate>, f: Fate)
    ensures CountAppended(fates + [f]) == CountAppended(fates) + if f.Appended? then 1 else 0
    ensures CountReplaced(fates + [f]) == CountReplaced(fates) + if f.Replaced? then 1 else 0
    ensures forall k | 0 <= k <= |fates| :: (fates + [f])[..k] == fates[..k]
  {
    assert (fates + [f])[..|fates|] == fates;
  }

  /** Every untouched stored row is still in place. */
  lemma UntouchedStay(m: Merge, rows: seq<Row>, pending: seq<Row>, c: nat, replace: Replacement, i: nat)
    requires Wrote(m, rows, pending, c, replace) && TouchedAre(m, rows) && i < |m.rows| && i !in m.touched
    ensures i < |rows| && m.rows[i] == rows[i]
    ensures !HitBy(m.fates, i)
  {
    hide OneExplained;
  }

  lemma AppendExplained(m: Merge, rows: seq<Row>, pending: seq<Row>, incoming: Row, c: nat, replace: Replacement)
    requires Wrote(m, rows, pending, c, replace) && TouchedAre(m, rows)
    ensures var after := Merge(m.rows + [incoming], m.touched + {|m.rows|}, m.affected + 1, m.fates + [Appended]);
      Wrote(after, rows, pending + [incoming], c, replace) && TouchedAre(after, rows)
  {
    hide OneExplained, HitBy, HitOnce, OthersStay;
    var after := Merge(m.rows + [incoming], m.touched + {|m.rows|}, m.affected + 1, m.fates + [Appended]);
    CountsNext(m.fates, Appended);
    forall k | 0 <= k < |pending| + 1
      ensures OneExplained(after, rows, pending + [incoming], replace, c, k)
    {
      if k < |pending| {
        StillExplained(m, after, rows, pending, incoming, c, replace, k);
      } else {
        AppendedExplained(m, rows, pending, incoming, c, replace);
      }
    }
    FatesNext(m.fates, Appended);
    AppendHitsNothing(m.rows, rows, m.fates, incoming);
  }

  lemma AppendHitsNothing(after: seq<Row>, rows: seq<Row>, fates: seq<Fate>, incoming: Row)
    requires HitOnce(fates) && OthersStay(after, rows, fates)
    ensures HitOnce(fates + [Appended]) && OthersStay(after + [incoming], rows, fates + [Appended])
  {
    hide HitBy;
    FatesNext(fates, Appended);
  }

  lemma AppendedExplained(m: Merge, rows: seq<Row>, pending: seq<Row>, incoming: Row, c: nat, replace: Replacement)
    requires |m.fates| == |pending| && |m.rows| == |rows| + CountAppended(m.fates)
    ensures var after := Merge(m.rows + [incoming], m.touched + {|m.rows|}, m.affected + 1, m.fates + [Appended]);
      OneExplained(after, rows, pending + [incoming], replace, c, |pending|)
  {
    CountsNext(m.fates, Appended);
  }

  lemma StillExplained(
      m: Merge, after: Merge, rows: seq<Row>, pending: seq<Row>, incoming: Row, c: nat, replace: Replacement, k: nat)
    requires k < |pending| == |m.fates| && |m.rows| >= |rows| && OneExplained(m, rows, pending, replace, c, k)
    requires |after.fates| == |pending| + 1 && after.fates[..|pending|] == m.fates && |after.rows| >= |m.rows|
    requires forall i | 0 <= i < |m.rows| && after.rows[i] != m.rows[i] :: i < |rows| && !Hits(m.fates[k], i)
    ensures OneExplained(after, rows, pending + [incoming], replace, c, k)
  {
    assert after.fates[k] == m.fates[k] && after.fates[..k] == m.fates[..k] by {
      assert m.fates[..k] == after.fates[..|pending|][..k] == after.fates[..k];
    }
    assert (pending + [incoming])[k] == pending[k];
  }

  lemma FatesNext(fates: seq<Fate>, f: Fate)
    ensures forall i: nat :: HitBy(fates + [f], i) <==> Hits(f, i) || HitBy(fates, i)
  {
    forall i: nat
      ensures HitBy(fates + [f], i) <==> Hits(f, i) || HitBy(fates, i)
    {
      if Hits(f, i) {
        assert Hits((fates + [f])[|fates|], i);
      }
      if HitBy(fates, i) {
        var k :| 0 <= k < |fates| && Hits(fates[k], i);
        assert Hits((fates + [f])[k], i);
      }
    }
  }

  /** Hitting an untouched stored row: `written` is what stands there afterwards. */
  lemma HitExplained(
      m: Merge, rows: seq<Row>, pending: seq<Row>, incoming: Row, c: nat, replace: Replacement, f: Fate, written: Row)
    requires Wrote(m, rows, pending, c, replace) && TouchedAre(m, rows)
    requires !f.Appended? && f.row < |m.rows| && f.row !in m.touched
    requires c < |incoming| && c < |m.rows[f.row]| && SqlEq(m.rows[f.row][c], incoming[c])
    requires f.Replaced? ==> replace(m.rows[f.row], incoming) == Success(Some(written))
    requires f.Skipped? ==> replace(m.rows[f.row], incoming) == Success(None) && written == m.rows[f.row]
    ensures var after := Merge(m.rows[f.row := written], m.touched + {f.row},
                               m.affected + if f.Replaced? then 1 else 0, m.fates + [f]);
      Wrote(after, rows, pending + [incoming], c, replace) && TouchedAre(after, rows)
  {
    hide AllExplained, HitOnce, OthersStay, SqlEq, HitBy;
    var after := Merge(m.rows[f.row := written], m.touched + {f.row},
                       m.affected + if f.Replaced? then 1 else 0, m.fates + [f]);
    UntouchedStay(m, rows, pending, c, replace, f.row);
    CountsNext(m.fates, f);
    FatesNext(m.fates, f);
    HitKeepsExplanations(m, after, rows, pending, incoming, c, replace, f);
    HitOnceMore(m.fates, f);
    OthersStillStay(m.rows, rows, m.fates, f, written);
  }

  lemma HitKeepsExplanations(
      m: Merge, after: Merge, rows: seq<Row>, pending: seq<Row>, incoming: Row, c: nat, replace: Replacement, f: Fate)
    requires !f.Appended? && AllExplained(m, rows, pending, c, replace) && !HitBy(m.fates, f.row)
    requires f.row < |rows| && |after.rows| == |m.rows| && after.fates == m.fates + [f]
    requires after.rows == m.rows[f.row := after.rows[f.row]]
    requires
      && c < |incoming| && c < |rows[f.row]| && SqlEq(rows[f.row][c], incoming[c])
      && (f.Replaced? ==> replace(rows[f.row], incoming) == Success(Some(after.rows[f.row])))
      && (f.Skipped? ==> replace(rows[f.row], incoming) == Success(None) && after.rows[f.row] == rows[f.row])
    ensures AllExplained(after, rows, pending + [incoming], c, replace)
  {
    hide OneExplained, SqlEq, HitBy;
    assert after.fates[..|pending|] == m.fates;
    forall k | 0 <= k < |pending| + 1
      ensures OneExplained(after, rows, pending + [incoming], replace, c, k)
    {
      if k < |pending| {
        NotHit(m.fates, k, f.row);
        StillExplained(m, after, rows, pending, incoming, c, replace, k);
      } else {
        HitIsExplained(after, rows, pending + [incoming], c, replace, f);
      }
    }
  }

  lemma HitOnceMore(fates: seq<Fate>, f: Fate)
    requires HitOnce(fates) && !f.Appended? && !HitBy(fates, f.row)
    ensures HitOnce(fates + [f])
  {
    hide HitBy;
    forall k | 0 <= k < |fates|
      ensures !Hits(fates[k], f.row)
    {
      NotHit(fates, k, f.row);
    }
  }

  lemma OthersStillStay(after: seq<Row>, rows: seq<Row>, fates: seq<Fate>, f: Fate, written: Row)
    requires OthersStay(after, rows, fates) && !f.Appended? && f.row < |rows|
    ensures OthersStay(after[f.row := written], rows, fates + [f])
  {
    hide HitBy;
    FatesNext(fates, f);
  }

  lemma NotHit(fates: seq<Fate>, k: nat, i: nat)
    requires k < |fates| && !HitBy(fates, i)
    ensures !Hits(fates[k], i)
  {
  }

  lemma HitIsExplained(after: Merge, rows: seq<Row>, pending: seq<Row>, c: nat, replace: Replacement, f: Fate)
    requires |after.fates| == |pending| > 0 && |after.rows| >= |rows| && !f.Appended? && f.row < |rows|
    requires after.fates[|pending| - 1] == f
    requires var incoming := pending[|pending| - 1];
      && c < |incoming| && c < |rows[f.row]| && SqlEq(rows[f.row][c], incoming[c])
      && (f.Replaced? ==> replace(rows[f.row], incoming) == Success(Some(after.rows[f.row])))
      && (f.Skipped? ==> replace(rows[f.row], incoming) == Success(None) && after.rows[f.row] == rows[f.row])
    ensures OneExplained(after, rows, pending, replace, c, |pending| - 1)
  {
    hide SqlEq;
  }

  lemma StartExplained(rows: seq<Row>, c: nat, replace: Replacement)
    ensures Wrote(Start(rows), rows, [], c, replace) && TouchedAre(Start(rows), rows)
  {
  }

  lemma OneMeaning(
      columns: seq<Column>, m: Merge, rows: seq<Row>, pending: seq<Row>, incoming: Row, c: nat, replace: Replacement)
    requires Wide(m.rows, |columns|) && |incoming| == |columns| && c < |columns| && KeepsWidth(replace, |columns|)
    requires Wrote(m, rows, pending, c, replace) && TouchedAre(m, rows)
    ensures var r := MergeOne(columns, m, incoming, c, replace);
      r.Success? ==> Wrote(r.value, rows, pending + [incoming], c, replace) && TouchedAre(r.value, rows)
  {
    hide Wrote, TouchedAre, KeepsWidth, SqlEq, ValidateRow;
    var conflict := ConflictRow(m.rows, c, incoming);
    if conflict.None? {
      AppendExplained(m, rows, pending, incoming, c, replace);
    } else {
      var i := conflict.value;
      var replacement := replace(m.rows[i], incoming);
      if i !in m.touched && replacement.Success? {
        var f := if replacement.value.None? then Skipped(i) else Replaced(i);
        var written := if replacement.value.None? then m.rows[i] else replacement.value.value;
        HitExplained(m, rows, pending, incoming, c, replace, f, written);
        assert m.rows[i := m.rows[i]] == m.rows;
      }
    }
  }

  /* ----- Why rows are appended ----- */

  /** Later incoming rows do not change what an earlier one met. */
  lemma StandingStays(m: Merge, after: Merge, rows: seq<Row>, k: nat, f: Fate)
    requires |m.rows| == |rows| + CountAppended(m.fates) && |after.rows| == |rows| + CountAppended(after.fates)
    requires after.fates == m.fates + [f] && k <= |m.fates| && |after.rows| >= |m.rows|
    requires forall i | 0 <= i < |m.rows| && after.rows[i] != m.rows[i] :: i < |rows| && !HitBy(m.fates, i)
    ensures Standing(after, rows, k) == Standing(m, rows, k)
  {
    assert after.fates[..k] == m.fates[..k];
    CountsPrefix(m.fates, k);
    forall i | 0 <= i < |rows| + CountAppended(m.fates[..k])
      ensures Standing(after, rows, k)[i] == Standing(m, rows, k)[i]
    {
      if i < |rows| && HitBy(m.fates[..k], i) {
        HitEarlier(m.fates, k, i);
      }
    }
  }

  lemma HitEarlier(fates: seq<Fate>, k: nat, i: nat)
    requires k <= |fates| && HitBy(fates[..k], i)
    ensures HitBy(fates, i)
  {
    var l :| 0 <= l < k && Hits(fates[..k][l], i);
    assert Hits(fates[l], i);
  }

  /** What the next row meets is the private copy as it is. */
  lemma StandingNow(m: Merge, after: Merge, rows: seq<Row>, f: Fate)
    requires |m.rows| == |rows| + CountAppended(m.fates) && OthersStay(m.rows, rows, m.fates)
    requires |after.rows| == |rows| + CountAppended(after.fates) && after.fates == m.fates + [f]
    requires |after.rows| >= |m.rows|
    requires forall i | 0 <= i < |m.rows| && after.rows[i] != m.rows[i] :: i < |rows| && !HitBy(m.fates, i)
    ensures Standing(after, rows, |m.fates|) == m.rows
  {
    hide HitBy;
    StandingStays(m, after, rows, |m.fates|, f);
    assert m.fates[..|m.fates|] == m.fates;
  }

  lemma StillDecided(m: Merge, after: Merge, rows: seq<Row>, pending: seq<Row>, incoming: Row, c: nat, k: nat, f: Fate)
    requires k < |pending| == |m.fates| && |m.rows| == |rows| + CountAppended(m.fates)
    requires |after.rows| == |rows| + CountAppended(after.fates) && after.fates == m.fates + [f] && |after.rows| >= |m.rows|
    requires forall i | 0 <= i < |m.rows| && after.rows[i] != m.rows[i] :: i < |rows| && !HitBy(m.fates, i)
    requires OneDecided(m, rows, pending, c, k)
    ensures OneDecided(after, rows, pending + [incoming], c, k)
  {
    hide HitBy, Standing, EqualAt, CountAppended;
    StandingStays(m, after, rows, k, f);
    assert after.fates[k] == m.fates[k] && (pending + [incoming])[k] == pending[k];
  }

  /** The search decides the fate of the incoming row. */
  lemma NowDecided(m: Merge, after: Merge, rows: seq<Row>, pending: seq<Row>, incoming: Row, c: nat, width: nat, f: Fate)
    requires |pending| == |m.fates| && |m.rows| == |rows| + CountAppended(m.fates) && OthersStay(m.rows, rows, m.fates)
    requires |after.rows| == |rows| + CountAppended(after.fates) && after.fates == m.fates + [f] && |after.rows| >= |m.rows|
    requires forall i | 0 <= i < |m.rows| && after.rows[i] != m.rows[i] :: i < |rows| && !HitBy(m.fates, i)
    requires Wide(m.rows, width) && |incoming| == width && c < width
    requires ConflictRow(m.rows, c, incoming) == if f.Appended? then None else Some(f.row)
    ensures OneDecided(after, rows, pending + [incoming], c, |pending|)
  {
    hide HitBy, Standing, CountAppended, SqlEq;
    StandingNow(m, after, rows, f);
    assert after.fates[|pending|] == f && (pending + [incoming])[|pending|] == incoming;
  }

  lemma NextExplained(
      m: Merge, after: Merge, rows: seq<Row>, pending: seq<Row>, incoming: Row, c: nat, replace: Replacement, width: nat,
      f: Fate)
    requires Explained(m, rows, pending, c, replace) && Wrote(after, rows, pending + [incoming], c, replace)
    requires after.fates == m.fates + [f] && |after.rows| >= |m.rows|
    requires forall i | 0 <= i < |m.rows| && after.rows[i] != m.rows[i] :: i < |rows| && !HitBy(m.fates, i)
    requires Wide(m.rows, width) && |incoming| == width && c < width
    requires ConflictRow(m.rows, c, incoming) == if f.Appended? then None else Some(f.row)
    ensures Explained(after, rows, pending + [incoming], c, replace)
  {
    hide HitBy, Standing, CountAppended, OneDecided, OneExplained, HitOnce, ConflictRow;
    forall k | 0 <= k < |pending| + 1
      ensures OneDecided(after, rows, pending + [incoming], c, k)
    {
      if k < |pending| {
        StillDecided(m, after, rows, pending, incoming, c, k, f);
      } else {
        NowDecided(m, after, rows, pending, incoming, c, width, f);
      }
    }
  }

  lemma OneExplains(
      columns: seq<Column>, m: Merge, rows: seq<Row>, pending: seq<Row>, incoming: Row, c: nat, replace: Replacement)
    requires Wide(m.rows, |columns|) && |incoming| == |columns| && c < |columns| && KeepsWidth(replace, |columns|)
    requires Explained(m, rows, pending, c, replace) && TouchedAre(m, rows)
    ensures var r := MergeOne(columns, m, incoming, c, replace);
      r.Success? ==> Explained(r.value, rows, pending + [incoming], c, replace) && TouchedAre(r.value, rows)
  {
    hide OneDecided, TouchedAre, KeepsWidth, SqlEq, ValidateRow, Wrote, HitBy, ConflictRow;
    OneMeaning(columns, m, rows, pending, incoming, c, replace);
    var r := MergeOne(columns, m, incoming, c, replace);
    if r.Success? {
      var f := r.value.fates[|m.fates|];
      if !f.Appended? {
        UntouchedStay(m, rows, pending, c, replace, f.row);
      }
      NextExplained(m, r.value, rows, pending, incoming, c, replace, |columns|, f);
    }
  }

  /** A merge that succeeds keeps every row that was not hit in place, writes over each stored row at most once,
      appends in order exactly the rows that conflict with nothing they met, and counts exactly what it wrote. */
  lemma {:induction false} MergeMeaning(columns: seq<Column>, rows: seq<Row>, pending: seq<Row>, c: nat, replace: Replacement)
    requires Wide(rows, |columns|) && Wide(pending, |columns|) && c < |columns| && KeepsWidth(replace, |columns|)
    ensures var r := MergeAll(columns, rows, pending, c, replace);
      r.Success? ==> Explained(r.value, rows, pending, c, replace) && TouchedAre(r.value, rows)
  {
    hide Explained, TouchedAre, KeepsWidth, SqlEq;
    if pending == [] {
      NothingDecided(rows, c, replace);
    } else {
      var init, incoming := pending[..|pending| - 1], pending[|pending| - 1];
      assert pending == init + [incoming];
      MergeMeaning(columns, rows, init, c, replace);
      var before := MergeAll(columns, rows, init, c, replace);
      if before.Success? {
        OneExplains(columns, before.value, rows, init, incoming, c, replace);
      }
    }
  }

  lemma NothingDecided(rows: seq<Row>, c: nat, replace: Replacement)
    ensures Explained(Start(rows), rows, [], c, replace) && TouchedAre(Start(rows), rows)
  {
    StartExplained(rows, c, replace);
  }

  /** The statement either fails, or does what `Explained` says and leaves no repeated key in a unique column. */
  lemma UpsertMeaning(columns: seq<Column>, rows: seq<Row>, pending: seq<Row>, c: nat, replace: Replacement)
    requires Wide(rows, |columns|) && Wide(pending, |columns|) && c < |columns| && KeepsWidth(replace, |columns|)
    ensures var r := Upserted(columns, rows, pending, c, replace);
      r.Success? ==>
        && Explained(r.value, rows, pending, c, replace)
        && (forall u | 0 <= u < |columns| && columns[u].unique :: NoDuplicates(Cells(r.value.rows, u)))
        && |r.value.rows| <= MAX_TABLE_ROWS
  {
    hide Explained, TouchedAre, KeepsWidth, NoDuplicates;
    MergeMeaning(columns, rows, pending, c, replace);
  }
}
