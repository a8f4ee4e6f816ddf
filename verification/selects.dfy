/** SELECT over one table: rows stream through the sink, which stops early when it may, and the row cap of the
    caller is pushed down as a limit. */
module Selects {
  import opened Wrappers
  import opened Values
  import opened Ranking
  import opened SqlAst
  import opened SqlTypes
  import opened SqlEval
  import opened SqlSoundness
  import opened SortKeys
  import opened Candidates
  import opened QueryResults
  import opened SortMeanings
  import Grouping

  /** One column of the result. */
  datatype Item = Item(title: string, expr: Expr)

  type Count = n: nat | n < 0x8000_0000_0000_0000

  datatype Query = Query(
    columns: seq<Column>, items: seq<Item>, filter: Option<Expr>, orderBy: seq<OrderBy>,
    offset: Count, limit: Option<nat>, distinct: bool)

  /* ----- Names of results in ORDER BY ----- */

  function Label(items: seq<Item>, name: string, from: nat): (r: Option<nat>)
    requires from <= |items|
    ensures r.Some? ==> from <= r.value < |items| && NormalizeName(items[r.value].title) == name
    ensures forall i | from <= i < if r.Some? then r.value else |items| :: NormalizeName(items[i].title) != name
    decreases |items| - from
  {
    if from == |items| then None
    else if NormalizeName(items[from].title) == name then Some(from)
    else Label(items, name, from + 1)
  }

  /** The result column an ORDER BY term names, if it is a plain name of one. */
  function Alias(term: OrderBy, items: seq<Item>): (r: Option<nat>)
    ensures r.Some? ==> r.value < |items|
  {
    match term.expr
    case Identifier(i) => Label(items, IdentName(i), 0)
    case _ => None
  }

  function KeyExpr(term: OrderBy, items: seq<Item>): Expr {
    var alias := Alias(term, items);
    if alias.Some? then items[alias.value].expr else term.expr
  }

  /** A sort key: a result column that is named, or else an expression over the row. */
  function KeyOutcome(term: OrderBy, q: Query, row: Row, values: seq<Value>, m: Machine): Outcome
    requires |values| == |q.items|
  {
    var alias := Alias(term, q.items);
    if alias.Some? then Success(values[alias.value]) else Eval(term.expr, RowContext(q.columns, row), m)
  }

  function ItemOutcomes(q: Query, row: Row, m: Machine): (rs: seq<Outcome>)
    ensures |rs| == |q.items|
  {
    seq(|q.items|, i requires 0 <= i < |q.items| => Eval(q.items[i].expr, RowContext(q.columns, row), m))
  }

  function KeyOutcomes(q: Query, row: Row, values: seq<Value>, m: Machine): (rs: seq<Outcome>)
    requires |values| == |q.items|
    ensures |rs| == |q.orderBy|
  {
    seq(|q.orderBy|, i requires 0 <= i < |q.orderBy| => KeyOutcome(q.orderBy[i], q, row, values, m))
  }

  /** What one row contributes: nothing if WHERE rejects it. */
  function Judge(q: Query, row: Row, m: Machine): (r: Result<Option<Candidate>>)
    ensures r.Success? && r.value.Some? ==> |r.value.value.order| == |q.orderBy|
  {
    var admitted :- Grouping.Admits(Grouping.Selection(q.columns, q.filter, []), row, m);
    if !admitted then Success(None)
    else
      var values :- Collect(ItemOutcomes(q, row, m));
      var order :- Collect(KeyOutcomes(q, row, values, m));
      Success(Some(Candidate(values, order)))
  }

  function Listed(c: Option<Candidate>): seq<Candidate> {
    if c.Some? then [c.value] else []
  }

  /** The candidates of all rows in scan order, or the error of the first row that fails. */
  function Matches(q: Query, rows: seq<Row>, m: Machine): Result<seq<Candidate>> {
    if rows == [] then Success([])
    else
      var before :- Matches(q, rows[..|rows| - 1], m);
      var last :- Judge(q, rows[|rows| - 1], m);
      Success(before + Listed(last))
  }

  lemma MatchesNext(q: Query, rows: seq<Row>, n: nat, m: Machine)
    requires n < |rows| && Matches(q, rows[..n], m).Success?
    ensures Matches(q, rows[..n + 1], m)
         == match Judge(q, rows[n], m)
            case Failure(e) => Failure(e)
            case Success(c) => Success(Matches(q, rows[..n], m).value + Listed(c))
  {
    hide Judge;
    assert rows[..n + 1][..n] == rows[..n];
  }

  /** WHERE is absent, or true. */
  ghost predicate Passes(q: Query, row: Row, m: Machine) {
    q.filter.Some? ==> Eval(q.filter.value, RowContext(q.columns, row), m) == Success(Bool(true))
  }

  /** The candidate holds the values of the result columns, and those of the expressions that the ORDER BY terms
      stand for, all for this row. */
  ghost predicate ShowsRow(q: Query, row: Row, m: Machine, c: Candidate) {
    var context := RowContext(q.columns, row);
    && |c.values| == |q.items|
    && (forall k | 0 <= k < |q.items| :: Eval(q.items[k].expr, context, m) == Success(c.values[k]))
    && |c.order| == |q.orderBy|
    && forall k | 0 <= k < |q.orderBy| :: Eval(KeyExpr(q.orderBy[k], q.items), context, m) == Success(c.order[k])
  }

  lemma JudgeMeans(q: Query, row: Row, m: Machine)
    ensures
      match Judge(q, row, m)
      case Failure(_) => true
      case Success(None) => !Passes(q, row, m)
      case Success(Some(c)) => Passes(q, row, m) && ShowsRow(q, row, m, c)
  {
    hide Eval, RowContext, Label;
    var judged := Judge(q, row, m);
    if judged.Success? && judged.value.Some? {
      var c := judged.value.value;
      forall k | 0 <= k < |q.items|
        ensures Eval(q.items[k].expr, RowContext(q.columns, row), m) == Success(c.values[k])
      {
        assert ItemOutcomes(q, row, m)[k] == Success(c.values[k]);
      }
      forall k | 0 <= k < |q.orderBy|
        ensures Eval(KeyExpr(q.orderBy[k], q.items), RowContext(q.columns, row), m) == Success(c.order[k])
      {
        assert KeyOutcomes(q, row, c.values, m)[k] == Success(c.order[k]);
      }
    }
  }

  /** Candidate by candidate, the rows they stand for. */
  ghost predicate ComeFrom(q: Query, rows: seq<Row>, m: Machine, picks: seq<nat>, all: seq<Candidate>) {
    && |picks| == |all|
    && (forall i, j | 0 <= i < j < |picks| :: picks[i] < picks[j])
    && (forall i | 0 <= i < |picks| :: picks[i] < |rows| && ShowsRow(q, rows[picks[i]], m, all[i]))
    && forall row: nat | row < |rows| :: row in picks <==> Passes(q, rows[row], m)
  }

  /** The matches are the rows that pass, each once and in scan order. */
  lemma {:induction false} MatchesMean(q: Query, rows: seq<Row>, m: Machine) returns (picks: seq<nat>)
    requires Matches(q, rows, m).Success?
    ensures ComeFrom(q, rows, m, picks, Matches(q, rows, m).value)
  {
    hide Judge, Passes, ShowsRow;
    picks := [];
    if rows != [] {
      var n := |rows| - 1;
      picks := MatchesMean(q, rows[..n], m);
      JudgeMeans(q, rows[n], m);
      var last := Judge(q, rows[n], m).value;
      OneMorePick(q, rows, m, picks, Matches(q, rows[..n], m).value, last);
      if last.Some? {
        picks := picks + [n];
      } else {
        assert Matches(q, rows[..n], m).value + [] == Matches(q, rows[..n], m).value;
      }
    }
  }

  lemma OneMorePick(
      q: Query, rows: seq<Row>, m: Machine, picks: seq<nat>, before: seq<Candidate>, last: Option<Candidate>)
    requires rows != [] && ComeFrom(q, rows[..|rows| - 1], m, picks, before)
    requires last.Some? <==> Passes(q, rows[|rows| - 1], m)
    requires last.Some? ==> ShowsRow(q, rows[|rows| - 1], m, last.value)
    ensures last.Some? ==> ComeFrom(q, rows, m, picks + [|rows| - 1], before + [last.value])
    ensures last.None? ==> ComeFrom(q, rows, m, picks, before)
  {
    hide Passes, ShowsRow;
    var n := |rows| - 1;
    forall row: nat | row < |rows|
      ensures (row in picks || (last.Some? && row == n)) <==> Passes(q, rows[row], m)
    {
      if row < n {
        assert rows[..n][row] == rows[row];
      }
    }
  }

  /** A row that fails decides, whatever follows it. */
  lemma {:induction false} MatchesFail(q: Query, rows: seq<Row>, n: nat, m: Machine)
    requires n <= |rows| && Matches(q, rows[..n], m).Failure?
    ensures Matches(q, rows, m) == Matches(q, rows[..n], m)
  {
    if n == |rows| {
      assert rows[..n] == rows;
    } else {
      assert rows[..|rows| - 1][..n] == rows[..n];
      MatchesFail(q, rows[..|rows| - 1], n, m);
    }
  }

  /** The candidates of some rows come before those of the rows behind them. */
  lemma {:induction false} MatchesGrow(q: Query, rows: seq<Row>, n: nat, m: Machine)
    requires n <= |rows| && Matches(q, rows, m).Success?
    ensures Matches(q, rows[..n], m).Success? && Matches(q, rows[..n], m).value <= Matches(q, rows, m).value
  {
    hide Judge;
    if n == |rows| {
      assert rows[..n] == rows;
    } else {
      assert rows[..|rows| - 1][..n] == rows[..n];
      MatchesGrow(q, rows[..|rows| - 1], n, m);
    }
  }

  /* ----- The type check ----- */

  function ItemTypings(q: Query, m: Machine): (ts: seq<Typing>)
    ensures |ts| == |q.items| && forall i | 0 <= i < |ts| :: ts[i] == TypeOf(q.items[i].expr, q.columns, m)
  {
    seq(|q.items|, i requires 0 <= i < |q.items| => TypeOf(q.items[i].expr, q.columns, m))
  }

  function KeyTyping(term: OrderBy, q: Query, m: Machine): Typing {
    var t :- TypeOf(KeyExpr(term, q.items), q.columns, m);
    var _ :- Require(Sortable(t));
    Success(t)
  }

  function KeyTypings(q: Query, m: Machine): (ts: seq<Typing>)
    ensures |ts| == |q.orderBy| && forall i | 0 <= i < |ts| :: ts[i] == KeyTyping(q.orderBy[i], q, m)
  {
    seq(|q.orderBy|, i requires 0 <= i < |q.orderBy| => KeyTyping(q.orderBy[i], q, m))
  }

  function FilterTyping(q: Query, m: Machine): Result<()> {
    match q.filter
    case None => Success(())
    case Some(filter) =>
      var t :- TypeOf(filter, q.columns, m);
      Require(Logical(t))
  }

  /** The types of the sort keys, or why the query is rejected before any row is scanned. */
  function CheckQuery(q: Query, m: Machine): (r: Result<seq<Type>>)
    ensures r.Success? ==> |r.value| == |q.orderBy|
  {
    var _ :- Collect(ItemTypings(q, m));
    var _ :- FilterTyping(q, m);
    Collect(KeyTypings(q, m))
  }

  ghost predicate RowsFit(q: Query, rows: seq<Row>) {
    forall i | 0 <= i < |rows| :: RowFits(q.columns, rows[i])
  }

  /** No sort key of these rows is NaN. */
  ghost predicate KeysAreNumbers(q: Query, rows: seq<Row>, m: Machine) {
    forall i | 0 <= i < |rows| :: RowKeysAreNumbers(q, rows[i], m)
  }

  ghost predicate RowKeysAreNumbers(q: Query, row: Row, m: Machine) {
    var c := Judge(q, row, m);
    c.Success? && c.value.Some? ==> forall k | 0 <= k < |c.value.value.order| :: NotNaN(c.value.value.order[k])
  }

  lemma RowInScopeFits(columns: seq<Column>, row: Row)
    requires RowFits(columns, row)
    ensures RowContext(columns, row).Fits()
  {
  }

  /** A value computed for a type-checked expression has its type. */
  lemma ValueHasItsType(e: Expr, columns: seq<Column>, row: Row, t: Type, m: Machine)
    requires RowFits(columns, row) && TypeOf(e, columns, m) == Success(t)
    ensures Eval(e, RowContext(columns, row), m).Success? ==> OfType(Eval(e, RowContext(columns, row), m).value, t)
  {
    hide TypeOf, Eval, OfType, Allowed, Context.Fits;
    RowInScopeFits(columns, row);
    TypeSoundness(e, RowContext(columns, row), m, t);
  }

  lemma KeyHasItsType(q: Query, row: Row, values: seq<Value>, k: nat, t: Type, m: Machine)
    requires RowFits(q.columns, row) && k < |q.orderBy| && KeyTyping(q.orderBy[k], q, m) == Success(t)
    requires Collect(ItemOutcomes(q, row, m)) == Success(values)
    requires Collect(ItemTypings(q, m)).Success?
    ensures |values| == |q.items|
    ensures Sortable(t)
    ensures var key := KeyOutcome(q.orderBy[k], q, row, values, m); key.Success? ==> OfType(key.value, t)
  {
    hide TypeOf, Eval, OfType, RowFits, Label;
    var term := q.orderBy[k];
    ValueHasItsType(KeyExpr(term, q.items), q.columns, row, t, m);
    var alias := Alias(term, q.items);
    if alias.Some? {
      assert ItemOutcomes(q, row, m)[alias.value] == Success(values[alias.value]);
    }
  }

  /** The sort keys of a checked query are of the types it was checked with: each term sorts values of one type. */
  lemma CheckedKeysAreTyped(q: Query, row: Row, types: seq<Type>, m: Machine)
    requires CheckQuery(q, m) == Success(types) && RowFits(q.columns, row) && RowKeysAreNumbers(q, row, m)
    requires Judge(q, row, m).Success? && Judge(q, row, m).value.Some?
    ensures KeysOk(Judge(q, row, m).value.value.order, types)
  {
    hide KeyOutcome, KeyTyping, OfType, RowFits, Grouping.Admits, FilterTyping;
    var c := Judge(q, row, m).value.value;
    forall k | 0 <= k < |c.order|
      ensures KeyOk(c.order[k], types[k])
    {
      assert KeyTypings(q, m)[k] == Success(types[k]);
      assert KeyOutcomes(q, row, c.values, m)[k] == Success(c.order[k]);
      KeyHasItsType(q, row, c.values, k, types[k], m);
    }
  }

  /* ----- The scan ----- */

  function Capacity(q: Query): Option<nat> {
    if q.limit.Some? then Some(q.offset + q.limit.value) else None
  }

  /** Without ORDER BY the scan may stop once it has enough rows. */
  ghost predicate Enough(q: Query, candidates: seq<Candidate>) {
    q.orderBy == [] && q.limit.Some? && |Kept(candidates, q.distinct)| >= q.offset + q.limit.value
  }

  /** The answer is right for the first `n` rows, and those are all or enough. */
  ghost predicate AnswersFrom(q: Query, rows: seq<Row>, n: nat, m: Machine, answer: seq<Row>) {
    && n <= |rows|
    && Matches(q, rows[..n], m).Success?
    && (n < |rows| ==> Enough(q, Matches(q, rows[..n], m).value))
    && Answers(q.orderBy, m, Kept(Matches(q, rows[..n], m).value, q.distinct), q.offset, q.limit, answer)
  }

  lemma EnoughIsEnough(q: Query, rows: seq<Row>, n: nat, m: Machine, answer: seq<Row>)
    requires AnswersFrom(q, rows, n, m, answer) && Matches(q, rows, m).Success?
    ensures Answers(q.orderBy, m, Kept(Matches(q, rows, m).value, q.distinct), q.offset, q.limit, answer)
  {
    hide Matches, Kept;
    if n == |rows| {
      assert rows[..n] == rows;
    } else {
      MatchesGrow(q, rows, n, m);
      var some, all := Matches(q, rows[..n], m).value, Matches(q, rows, m).value;
      assert all == some + all[|some|..];
      KeptGrows(some, all[|some|..], q.distinct);
      PrefixPage(Kept(some, q.distinct), Kept(all, q.distinct), q.offset, q.limit.value);
    }
  }

  lemma PrefixPage<T>(a: seq<T>, b: seq<T>, offset: nat, limit: nat)
    requires a <= b && |a| >= offset + limit
    ensures Page(a, offset, Some(limit)) == Page(b, offset, Some(limit))
  {
  }

  ghost predicate SinkOf(q: Query, m: Machine, sink: CandidateSink) {
    sink.terms == q.orderBy && sink.m == m && sink.capacity == Capacity(q) && sink.distinct == q.distinct
  }

  lemma CandidateIsOk(q: Query, row: Row, types: seq<Type>, m: Machine)
    requires CheckQuery(q, m) == Success(types) && RowFits(q.columns, row) && RowKeysAreNumbers(q, row, m)
    ensures Judge(q, row, m).Success? && Judge(q, row, m).value.Some? ==> TypedKeys(types)(Judge(q, row, m).value.value)
  {
    hide Judge, CheckQuery, RowFits, KeysOk, RowKeysAreNumbers;
    if Judge(q, row, m).Success? && Judge(q, row, m).value.Some? {
      CheckedKeysAreTyped(q, row, types, m);
    }
  }

  /** The sort keys of all matches have the types they were checked with. */
  lemma {:induction false} MatchesAreOk(q: Query, rows: seq<Row>, types: seq<Type>, m: Machine)
    requires CheckQuery(q, m) == Success(types) && RowsFit(q, rows) && KeysAreNumbers(q, rows, m)
    requires Matches(q, rows, m).Success?
    ensures AllOk(TypedKeys(types), multiset(Matches(q, rows, m).value))
  {
    hide CheckQuery, Judge, TypedKeys, AllOk, RowKeysAreNumbers, RowFits;
    if rows == [] {
      NoneOk(TypedKeys(types));
    } else {
      var n := |rows| - 1;
      MatchesAreOk(q, rows[..n], types, m);
      CandidateIsOk(q, rows[n], types, m);
      var before, last := Matches(q, rows[..n], m).value, Judge(q, rows[n], m).value;
      if last.Some? {
        OkSnoc(TypedKeys(types), before, last.value);
      } else {
        assert before + [] == before;
      }
    }
  }

  /** With ORDER BY, the answer to a query on rows that do not fail is in order by its sort keys. */
  ghost predicate Ordered(q: Query, rows: seq<Row>, m: Machine, r: Result<seq<Row>>) {
    var all := Matches(q, rows, m);
    all.Success? && q.orderBy != [] ==>
      r.Success? && AnswersInOrder(q.orderBy, m, Kept(all.value, q.distinct), q.offset, q.limit, r.value)
  }

  /** Unless a row fails the result is a right answer. */
  ghost predicate RightUnlessFailing(q: Query, rows: seq<Row>, m: Machine, r: Result<seq<Row>>) {
    var all := Matches(q, rows, m);
    all.Success? ==> r.Success? && Answers(q.orderBy, m, Kept(all.value, q.distinct), q.offset, q.limit, r.value)
  }

  lemma AnsweredIsOrdered(q: Query, rows: seq<Row>, types: seq<Type>, m: Machine, r: Result<seq<Row>>)
    requires CheckQuery(q, m) == Success(types) && RowsFit(q, rows) && KeysAreNumbers(q, rows, m)
    requires Answered(q, rows, m, r)
    ensures Ordered(q, rows, m, r)
  {
    hide CheckQuery, RowsFit, KeysAreNumbers, Matches, Answers, Kept, Ordered;
    RightIsOrdered(q, rows, types, m, r);
  }

  lemma RightIsOrdered(q: Query, rows: seq<Row>, types: seq<Type>, m: Machine, r: Result<seq<Row>>)
    requires CheckQuery(q, m) == Success(types) && RowsFit(q, rows) && KeysAreNumbers(q, rows, m)
    requires RightUnlessFailing(q, rows, m, r)
    ensures Ordered(q, rows, m, r)
  {
    hide CheckQuery, RowsFit, KeysAreNumbers, Matches, Answers, AnswersInOrder, Kept, TypedKeys, AllOk;
    var all := Matches(q, rows, m);
    if all.Success? && q.orderBy != [] {
      MatchesAreOk(q, rows, types, m);
      SubsetOk(TypedKeys(types), multiset(Kept(all.value, q.distinct)), multiset(all.value));
      AnswersAreInOrder(q.orderBy, m, types, Kept(all.value, q.distinct), q.offset, q.limit, r.value);
    }
  }

  lemma OkSnoc(ok: Candidate -> bool, pushed: seq<Candidate>, c: Candidate)
    requires AllOk(ok, multiset(pushed)) && ok(c)
    ensures AllOk(ok, multiset(pushed + [c]))
  {
    assert multiset(pushed + [c]) == multiset(pushed) + multiset{c};
  }

  lemma FullIsEnough(q: Query, m: Machine, sink: CandidateSink, types: seq<Type>)
    requires SinkOf(q, m, sink) && sink.Valid(TypedKeys(types)) && sink.IsFull()
    ensures Enough(q, sink.pushed)
  {
    hide Kept, RowKeys, IsBest, WeakOrder, AllOk, BeforeBy;
    assert |sink.candidates| <= |sink.All()|;
  }

  /** Push the candidates of the rows in scan order until the sink is full. */
  method Scan(q: Query, rows: seq<Row>, m: Machine, sink: CandidateSink, ghost types: seq<Type>)
    returns (r: Result<()>, ghost n: nat)
    requires CheckQuery(q, m) == Success(types) && RowsFit(q, rows) && KeysAreNumbers(q, rows, m)
    requires SinkOf(q, m, sink) && sink.Valid(TypedKeys(types)) && sink.pushed == []
    modifies sink, sink.heap
    ensures sink.Valid(TypedKeys(types)) && AllOk(TypedKeys(types), multiset(sink.pushed))
    ensures r.Failure? ==> Matches(q, rows, m) == Failure(r.error)
    ensures r.Success? ==>
              && n <= |rows| && Matches(q, rows[..n], m) == Success(sink.pushed)
              && (n < |rows| ==> Enough(q, sink.pushed))
  {
    hide CheckQuery, Matches, Judge, Enough, CandidateSink.Valid, TypedKeys, AllOk, RowKeysAreNumbers, RowFits;
    NoneOk(TypedKeys(types));
    NoMatches(q, m);
    assert rows[..0] == [];
    var i := 0;
    while i < |rows|
      invariant i <= |rows| && Matches(q, rows[..i], m) == Success(sink.pushed)
      invariant sink.Valid(TypedKeys(types)) && AllOk(TypedKeys(types), multiset(sink.pushed))
    {
      var c := Judge(q, rows[i], m);
      MatchesNext(q, rows, i, m);
      if c.Failure? {
        MatchesFail(q, rows, i + 1, m);
        return Failure(c.error), i;
      }
      i := i + 1;
      if c.value.None? {
        assert sink.pushed + Listed(c.value) == sink.pushed;
        continue;
      }
      CandidateIsOk(q, rows[i - 1], types, m);
      OkSnoc(TypedKeys(types), sink.pushed, c.value.value);
      sink.Push(c.value.value, TypedKeys(types));
      if sink.IsFull() {
        FullIsEnough(q, m, sink, types);
        return Success(()), i;
      }
    }
    return Success(()), i;
  }

  lemma NoneOk(ok: Candidate -> bool)
    ensures AllOk(ok, multiset([]))
  {
  }

  lemma NoMatches(q: Query, m: Machine)
    ensures Matches(q, [], m) == Success([])
  {
  }

  /** OFFSET plus LIMIT does not fit a machine word. */
  predicate TooFar(q: Query) {
    q.limit.Some? && q.offset + q.limit.value >= USIZE_BOUND
  }

  /** What the sink kept answers like everything that was pushed. */
  lemma SinkAnswers(q: Query, m: Machine, sink: CandidateSink, types: seq<Type>, kept: seq<Candidate>, answer: seq<Row>)
    requires |types| == |q.orderBy| && AllOk(TypedKeys(types), multiset(sink.pushed))
    requires SinkOf(q, m, sink) && sink.Valid(TypedKeys(types))
    requires if sink.UsesHeap() then multiset(kept) == sink.heap.items else kept == sink.candidates
    requires Answers(q.orderBy, m, kept, q.offset, q.limit, answer)
    ensures Answers(q.orderBy, m, Kept(sink.pushed, q.distinct), q.offset, q.limit, answer)
  {
    hide WeakOrder, AllOk, IsBest, BeforeBy, TypedKeys, Chosen, RowKeys, Kept, Page;
    var all := sink.All();
    if sink.UsesHeap() {
      var less := BeforeBy(q.orderBy, m);
      var chosen :| Chosen(less, chosen, kept, q.offset, q.limit) && answer == ValuesOf(chosen);
      sink.AllOkOfKept(TypedKeys(types));
      ChosenFromBest(less, TypedKeys(types), chosen, kept, all, q.offset, q.limit);
    } else {
      PageOfPage(all, q.offset, q.limit);
    }
  }

  lemma PageOfPage<T>(s: seq<T>, offset: nat, limit: Option<nat>)
    ensures var kept := Page(s, 0, if limit.Some? then Some(offset + limit.value) else None);
      && Page(kept, offset, limit) == Page(s, offset, limit)
      && (limit.None? ==> kept == s)
  {
  }

  lemma SinkHolds(q: Query, m: Machine, sink: CandidateSink, types: seq<Type>, kept: seq<Candidate>)
    requires AllOk(TypedKeys(types), multiset(sink.pushed)) && SinkOf(q, m, sink) && sink.Valid(TypedKeys(types))
    requires if sink.UsesHeap() then multiset(kept) == sink.heap.items else kept == sink.candidates
    ensures AllOk(TypedKeys(types), multiset(kept))
  {
    hide WeakOrder, AllOk, BeforeBy, TypedKeys, RowKeys, Kept, Page;
    sink.AllOkOfKept(TypedKeys(types));
    if !sink.UsesHeap() {
      PageIsSubset(sink.All(), 0, Capacity(q));
    }
    SubsetOk(TypedKeys(types), multiset(kept), multiset(sink.All()));
  }

  /** The result is right for every matching row, unless a row fails; without ORDER BY rows behind those that
      were needed are not looked at, so a failure there goes unnoticed. */
  ghost predicate Answered(q: Query, rows: seq<Row>, m: Machine, r: Result<seq<Row>>) {
    var all := Matches(q, rows, m);
    && (all.Success? ==> r.Success? && Answers(q.orderBy, m, Kept(all.value, q.distinct), q.offset, q.limit, r.value))
    && (all.Failure? && q.orderBy != [] ==> r == Failure(all.error))
    && (r.Failure? ==> all == Failure(r.error))
    && (r.Success? ==> exists n :: AnswersFrom(q, rows, n, m, r.value))
  }

  lemma AnsweredFrom(q: Query, rows: seq<Row>, n: nat, m: Machine, answer: seq<Row>)
    requires AnswersFrom(q, rows, n, m, answer)
    ensures Answered(q, rows, m, Success(answer))
  {
    hide Matches, Kept, Answers;
    assert rows[..|rows|] == rows;
    if Matches(q, rows, m).Success? {
      EnoughIsEnough(q, rows, n, m, answer);
    }
  }

  /** The streaming executor meets "collect every match, sort, skip, take". */
  method Run(q: Query, rows: seq<Row>, m: Machine) returns (r: Result<seq<Row>>)
    requires RowsFit(q, rows) && KeysAreNumbers(q, rows, m)
    ensures
      var types := CheckQuery(q, m);
      if types.Failure? then r == Failure(types.error)
      else if TooFar(q) then r == Failure(InvalidQuery(OtherQuery))
      else Answered(q, rows, m, r) && Ordered(q, rows, m, r)
  {
    hide CheckQuery, RowsFit, KeysAreNumbers, Matches, Answered, Ordered, Answers, Kept, TypedKeys, WeakOrder, AllOk, BeforeBy, CandidateSink.Valid;
    var types := CheckQuery(q, m);
    if types.Failure? {
      return Failure(types.error);
    }
    if TooFar(q) {
      return Failure(InvalidQuery(OtherQuery));
    }
    ghost var ok := TypedKeys(types.value);
    OrderByIsWeak(q.orderBy, types.value, m);
    var sink := new CandidateSink(q.orderBy, m, Capacity(q), q.distinct, ok);
    ghost var n;
    var scanned;
    scanned, n := Scan(q, rows, m, sink, types.value);
    if scanned.Failure? {
      FailureIsAnswer(q, rows, m, scanned.error);
      AnsweredIsOrdered(q, rows, types.value, m, Failure(scanned.error));
      return Failure(scanned.error);
    }
    var kept := sink.IntoCandidates(ok);
    SinkHolds(q, m, sink, types.value, kept);
    r := FinishCandidates(kept, false, q.orderBy, m, q.offset, q.limit, types.value);
    NotDistinct(kept);
    SinkAnswers(q, m, sink, types.value, kept, r.value);
    AnsweredFrom(q, rows, n, m, r.value);
    AnsweredIsOrdered(q, rows, types.value, m, r);
  }

  lemma FailureIsAnswer(q: Query, rows: seq<Row>, m: Machine, e: Error)
    requires Matches(q, rows, m) == Failure(e)
    ensures Answered(q, rows, m, Failure(e))
  {
  }

  /* ----- The row cap ----- */

  /** The limit a query runs with: one row more than the cap is enough to notice that it is exceeded. */
  function Pushdown(limit: Option<nat>, cap: Option<nat>): Option<nat> {
    match (limit, cap)
    case (Some(l), Some(max)) => Some(Min(l, max + 1))
    case (None, Some(max)) => Some(max + 1)
    case (_, None) => limit
  }

  /** A result within the cap is a result of the query without the cap, and a longer one cannot be. */
  lemma PushdownKeepsAnswers(
      terms: seq<OrderBy>, m: Machine, all: seq<Candidate>, offset: nat, limit: Option<nat>, max: nat, answer: seq<Row>)
    requires Answers(terms, m, all, offset, Pushdown(limit, Some(max)), answer)
    ensures |answer| > max <==> |Page(all, offset, limit)| > max
    ensures |answer| <= max ==> Answers(terms, m, all, offset, limit, answer)
  {
    hide Sort, BeforeBy, SameRanks, Page, ValuesOf;
    AnswerSize(terms, m, all, offset, Pushdown(limit, Some(max)), answer);
    PushdownPage(all, offset, limit, max);
    if terms != [] {
      SortedSize(BeforeBy(terms, m), all);
      PushdownPage(Sort(BeforeBy(terms, m), all), offset, limit, max);
    }
  }

  lemma PushdownPage<T>(s: seq<T>, offset: nat, limit: Option<nat>, max: nat)
    ensures var pushed := Page(s, offset, Pushdown(limit, Some(max)));
      && |pushed| == Min(|Page(s, offset, limit)|, max + 1)
      && (|pushed| <= max ==> pushed == Page(s, offset, limit))
    ensures |Page(s, offset, limit)| == Min(LimitOf(limit, |s|), if offset < |s| then |s| - offset else 0)
  {
  }

  /** Without LIMIT, a cap close to the largest machine word makes any OFFSET overflow. */
  predicate CapOverflows(q: Query, cap: Option<nat>) {
    q.limit.None? && cap.Some? && q.offset + cap.value + 1 >= USIZE_BOUND
  }

  /** The cap, applied to what a run returned. */
  function Enforced(raw: Result<seq<Row>>, cap: Option<nat>): Result<seq<Row>> {
    if raw.Success? && cap.Some? && |raw.value| > cap.value then Failure(LimitExceeded) else raw
  }

  /** Runs a query under a cap on the number of rows: it fails exactly when the uncapped result is longer than
      the cap, except that without LIMIT the sum of OFFSET and cap must fit a machine word. With a row that fails it
      fails like that row, or, without ORDER BY, may have had enough rows before. */
  method RunCapped(q: Query, rows: seq<Row>, m: Machine, cap: Option<nat>) returns (r: Result<seq<Row>>)
    requires RowsFit(q, rows) && KeysAreNumbers(q, rows, m)
    requires q.limit.Some? ==> q.limit.value < 0x8000_0000_0000_0000
    requires cap.Some? ==> cap.value + 1 < USIZE_BOUND
    ensures
      var types := CheckQuery(q, m);
      var all := Matches(q, rows, m);
      if types.Failure? then r == Failure(types.error)
      else if CapOverflows(q, cap) then r == Failure(InvalidQuery(OtherQuery))
      else if all.Failure? then
        && (q.orderBy != [] ==> r == Failure(all.error))
        && exists raw :: Answered(q.(limit := Pushdown(q.limit, cap)), rows, m, raw) && r == Enforced(raw, cap)
      else
        var kept := Kept(all.value, q.distinct);
        if cap.Some? && |Page(kept, q.offset, q.limit)| > cap.value then r == Failure(LimitExceeded)
        else r.Success? && Answers(q.orderBy, m, kept, q.offset, q.limit, r.value) && Ordered(q, rows, m, r)
  {
    hide CheckQuery, RowsFit, KeysAreNumbers, Matches, Answers, Kept, Page, Ordered;
    var pushed := q.(limit := Pushdown(q.limit, cap));
    SameQuery(q, rows, m, pushed.limit);
    r := Run(pushed, rows, m);
    assert r == Enforced(r, cap) || r.Success?;
    if r.Failure? {
      return;
    }
    ghost var all := Matches(q, rows, m);
    if cap.Some? {
      if all.Success? {
        PushdownKeepsAnswers(q.orderBy, m, Kept(all.value, q.distinct), q.offset, q.limit, cap.value, r.value);
      }
      if |r.value| > cap.value {
        assert Enforced(r, cap) == Failure(LimitExceeded);
        return Failure(LimitExceeded);
      }
    }
    assert r == Enforced(r, cap);
    if all.Success? {
      RightIsOrdered(q, rows, CheckQuery(q, m).value, m, r);
    }
  }

  lemma SameTypes(q: Query, m: Machine, limit: Option<nat>)
    ensures CheckQuery(q.(limit := limit), m) == CheckQuery(q, m)
  {
    hide TypeOf, Collect, Require, Sortable, Label;
    assert ItemTypings(q.(limit := limit), m) == ItemTypings(q, m);
    assert KeyTypings(q.(limit := limit), m) == KeyTypings(q, m);
  }

  lemma SameCandidate(q: Query, row: Row, m: Machine, limit: Option<nat>)
    ensures Judge(q.(limit := limit), row, m) == Judge(q, row, m)
  {
    hide Eval, Collect, Label, Grouping.Admits;
    assert ItemOutcomes(q.(limit := limit), row, m) == ItemOutcomes(q, row, m);
    var values := Collect(ItemOutcomes(q, row, m));
    if values.Success? {
      assert KeyOutcomes(q.(limit := limit), row, values.value, m) == KeyOutcomes(q, row, values.value, m);
    }
  }

  lemma {:induction false} SameMatches(q: Query, rows: seq<Row>, m: Machine, limit: Option<nat>)
    ensures Matches(q.(limit := limit), rows, m) == Matches(q, rows, m)
  {
    hide Judge;
    if rows != [] {
      SameMatches(q, rows[..|rows| - 1], m, limit);
      SameCandidate(q, rows[|rows| - 1], m, limit);
    }
  }

  /** LIMIT changes neither the type check nor what a row contributes. */
  lemma SameQuery(q: Query, rows: seq<Row>, m: Machine, limit: Option<nat>)
    ensures CheckQuery(q.(limit := limit), m) == CheckQuery(q, m)
    ensures Matches(q.(limit := limit), rows, m) == Matches(q, rows, m)
    ensures KeysAreNumbers(q, rows, m) ==> KeysAreNumbers(q.(limit := limit), rows, m)
    ensures RowsFit(q, rows) ==> RowsFit(q.(limit := limit), rows)
  {
    hide Judge, CheckQuery, Matches, RowFits;
    SameTypes(q, m, limit);
    SameMatches(q, rows, m, limit);
    if KeysAreNumbers(q, rows, m) {
      forall i | 0 <= i < |rows|
        ensures RowKeysAreNumbers(q.(limit := limit), rows[i], m)
      {
        assert RowKeysAreNumbers(q, rows[i], m);
        SameCandidate(q, rows[i], m, limit);
      }
    }
  }
}
