/** The group evaluator agrees with the row evaluator on the row that opened the group. */
module SqlGroupAgreement {
  import opened Wrappers
  import opened Values
  import opened SqlAst
  import opened SqlTypes
  import opened SqlEval
  import opened SqlGroups

  /** Values of the group evaluator `g` are values of the row evaluator `r`; under `full` also conversely. */
  predicate Agree(g: Outcome, r: Outcome, full: bool) {
    (g.Success? ==> r == g) && (full && r.Success? ==> g == r)
  }

  /** The group was opened by the row in scope. */
  ghost predicate Opened(groupBy: seq<Expr>, g: Group, c: Context, m: Machine) {
    |g.values| == |groupBy| && forall i | 0 <= i < |groupBy| :: Eval(groupBy[i], c, m) == Success(g.values[i])
  }

  ghost predicate Eligible(e: Expr, groupBy: seq<Expr>, full: bool) {
    !Contains(e, AggregateCall) && (full ==> Groupable(e, groupBy) && !LooseArray(e, groupBy))
  }

  lemma EligiblePart(e: Expr, groupBy: seq<Expr>, full: bool, i: nat)
    requires Eligible(e, groupBy, full) && e !in groupBy && i < |Children(e)|
    ensures Eligible(Children(e)[i], groupBy, full)
  {
    hide KindOf;
    if Contains(Children(e)[i], AggregateCall) {
      ChildContains(e, i, AggregateCall);
    }
  }

  lemma PartAgrees(
      e: Expr, i: nat, groupBy: seq<Expr>, g: Group, columns: seq<Column>, c: Context, m: Machine, full: bool)
    requires |g.values| == |groupBy| && Opened(groupBy, g, c, m) && Eligible(e, groupBy, full) && e !in groupBy && i < |Children(e)|
    ensures Agree(EvalGroup(Children(e)[i], groupBy, g, columns, m), Eval(Children(e)[i], c, m), full)
    decreases e, 0
  {
    hide Agree, Opened, Eligible, Eval, EvalGroup;
    EligiblePart(e, groupBy, full, i);
    GroupAgrees(Children(e)[i], groupBy, g, columns, c, m, full);
  }

  lemma BinaryAgrees(op: BinaryOperator, gl: Outcome, gr: Outcome, rl: Outcome, rr: Outcome, full: bool, m: Machine)
    requires Agree(gl, rl, full) && Agree(gr, rr, full)
    ensures Agree(GroupBinary(op, gl, gr, m), BinaryValue(op, rl, rr, m), full)
  {
    hide BinaryRest;
  }

  lemma BetweenAgrees(
      gx: Outcome, gl: Outcome, gh: Outcome, rx: Outcome, rl: Outcome, rh: Outcome, negated: bool, full: bool, m: Machine)
    requires Agree(gx, rx, full) && Agree(gl, rl, full) && Agree(gh, rh, full)
    ensures Agree(GroupBetween(gx, gl, gh, negated, m), BetweenValue(rx, rl, rh, negated, m), full)
  {
    hide CompareValues, SqlAnd, NotIf;
  }

  lemma LikeAgrees(
      gx: Outcome, gp: Outcome, rx: Outcome, rp: Outcome,
      negated: bool, escapeChar: Option<char>, insensitive: bool, full: bool, m: Machine)
    requires Agree(gx, rx, full) && Agree(gp, rp, full)
    ensures Agree(LikeValue(gx, gp, negated, escapeChar, insensitive, m),
                  LikeValue(rx, rp, negated, escapeChar, insensitive, m), full)
  {
  }

  lemma {:induction false} ScanAgrees(
      v: Value, gs: seq<Outcome>, rs: seq<Outcome>, found: bool, sawNull: bool, full: bool, m: Machine)
    requires |gs| == |rs| && forall i | 0 <= i < |gs| :: Agree(gs[i], rs[i], full)
    ensures Agree(ScanList(v, gs, found, sawNull, m), ScanList(v, rs, found, sawNull, m), full)
  {
    hide CompareValues;
    if gs != [] {
      assert Agree(gs[0], rs[0], full);
      if gs[0].Success? && rs[0].Success? {
        var equal := CompareValues(v, gs[0].value, Eq, m);
        if equal.Success? {
          ScanAgrees(v, gs[1..], rs[1..], found || equal.value == Bool(true), sawNull || equal.value.Null?, full, m);
        }
      }
    }
  }

  lemma InListAgrees(gx: Outcome, gs: seq<Outcome>, rx: Outcome, rs: seq<Outcome>, negated: bool, full: bool, m: Machine)
    requires Agree(gx, rx, full) && |gs| == |rs| && forall i | 0 <= i < |gs| :: Agree(gs[i], rs[i], full)
    ensures Agree(InListValue(gx, gs, negated, m), InListValue(rx, rs, negated, m), full)
  {
    hide ScanList, NotIf;
    if gx.Success? || (full && rx.Success?) {
      ScanAgrees(gx.value, gs, rs, false, gx.value.Null?, full, m);
    }
  }

  /** Forms of one part, whose two evaluators apply the same rule. */
  lemma OnePartForm(e: Expr, groupBy: seq<Expr>, g: Group, columns: seq<Column>, c: Context, m: Machine, full: bool)
    requires |g.values| == |groupBy| && Opened(groupBy, g, c, m) && Eligible(e, groupBy, full) && e !in groupBy
    requires e.Nested? || e.UnaryOp? || e.IsNull? || e.IsNotNull? || e.IsTruth? || e.Cast?
    ensures Agree(EvalGroup(e, groupBy, g, columns, m), Eval(e, c, m), full)
    decreases e, 1
  {
    hide Opened, Eligible, UnaryValue, NullTest, TruthValue, CastValue;
    PartAgrees(e, 0, groupBy, g, columns, c, m, full);
    var gx, rx := EvalGroup(Children(e)[0], groupBy, g, columns, m), Eval(Children(e)[0], c, m);
    assert !Has(e, AggregateCall);
    match e {
      case UnaryOp(op, _) => UnaryFails(op, gx, rx);
      case IsNull(_) => TestsFail(True, true, gx, rx);
      case IsNotNull(_) => TestsFail(True, false, gx, rx);
      case IsTruth(test, _) => TestsFail(test, true, gx, rx);
      case Cast(_, target) => CastFails(target, m, gx, rx);
      case Nested(_) =>
    }
  }

  lemma UnaryFails(op: UnaryOperator, gx: Outcome, rx: Outcome)
    ensures UnaryValue(op, gx).Success? ==> gx.Success?
    ensures UnaryValue(op, rx).Success? ==> rx.Success?
  {
  }

  lemma TestsFail(test: TruthTest, expected: bool, gx: Outcome, rx: Outcome)
    ensures TruthValue(test, gx).Success? ==> gx.Success?
    ensures TruthValue(test, rx).Success? ==> rx.Success?
    ensures NullTest(gx, expected).Success? ==> gx.Success?
    ensures NullTest(rx, expected).Success? ==> rx.Success?
  {
  }

  lemma CastFails(target: SqlType, m: Machine, gx: Outcome, rx: Outcome)
    ensures CastValue(gx, target, m).Success? ==> gx.Success?
    ensures CastValue(rx, target, m).Success? ==> rx.Success?
  {
    hide ParseType, Coerce;
  }

  lemma BinaryForm(e: Expr, groupBy: seq<Expr>, g: Group, columns: seq<Column>, c: Context, m: Machine, full: bool)
    requires |g.values| == |groupBy| && Opened(groupBy, g, c, m) && Eligible(e, groupBy, full) && e !in groupBy && e.BinaryOp?
    ensures Agree(EvalGroup(e, groupBy, g, columns, m), Eval(e, c, m), full)
    decreases e, 1
  {
    hide Opened, Eligible, Agree, GroupBinary, BinaryValue;
    PartAgrees(e, 0, groupBy, g, columns, c, m, full);
    PartAgrees(e, 1, groupBy, g, columns, c, m, full);
    BinaryAgrees(e.op, EvalGroup(e.left, groupBy, g, columns, m), EvalGroup(e.right, groupBy, g, columns, m),
                 Eval(e.left, c, m), Eval(e.right, c, m), full, m);
  }

  lemma BetweenForm(e: Expr, groupBy: seq<Expr>, g: Group, columns: seq<Column>, c: Context, m: Machine, full: bool)
    requires |g.values| == |groupBy| && Opened(groupBy, g, c, m) && Eligible(e, groupBy, full) && e !in groupBy && e.Between?
    ensures Agree(EvalGroup(e, groupBy, g, columns, m), Eval(e, c, m), full)
    decreases e, 1
  {
    hide Opened, Eligible, Agree, GroupBetween, BetweenValue;
    PartAgrees(e, 0, groupBy, g, columns, c, m, full);
    PartAgrees(e, 1, groupBy, g, columns, c, m, full);
    PartAgrees(e, 2, groupBy, g, columns, c, m, full);
    BetweenAgrees(
      EvalGroup(e.value, groupBy, g, columns, m), EvalGroup(e.low, groupBy, g, columns, m),
      EvalGroup(e.high, groupBy, g, columns, m), Eval(e.value, c, m), Eval(e.low, c, m), Eval(e.high, c, m),
      e.negated, full, m);
  }

  lemma ItemsAgree(
      e: Expr, groupBy: seq<Expr>, g: Group, columns: seq<Column>, c: Context, m: Machine, full: bool,
      gs: seq<Outcome>, rs: seq<Outcome>)
    requires |g.values| == |groupBy| && Opened(groupBy, g, c, m) && Eligible(e, groupBy, full) && e !in groupBy && e.InList?
    requires gs == EvalGroupAll(e, e.list, groupBy, g, columns, m) && rs == EvalAll(e, e.list, c, m)
    ensures |gs| == |rs| && forall i | 0 <= i < |gs| :: Agree(gs[i], rs[i], full)
    decreases e, 1, 0
  {
    hide Opened, Eligible, Agree, EvalGroup, Eval;
    forall i | 0 <= i < |gs|
      ensures Agree(gs[i], rs[i], full)
    {
      assert Children(e)[i + 1] == e.list[i];
      PartAgrees(e, i + 1, groupBy, g, columns, c, m, full);
    }
  }

  lemma InListForm(e: Expr, groupBy: seq<Expr>, g: Group, columns: seq<Column>, c: Context, m: Machine, full: bool)
    requires |g.values| == |groupBy| && Opened(groupBy, g, c, m) && Eligible(e, groupBy, full) && e !in groupBy && e.InList?
    ensures Agree(EvalGroup(e, groupBy, g, columns, m), Eval(e, c, m), full)
    decreases e, 1
  {
    hide Opened, Eligible, Agree, InListValue;
    PartAgrees(e, 0, groupBy, g, columns, c, m, full);
    var gs, rs := EvalGroupAll(e, e.list, groupBy, g, columns, m), EvalAll(e, e.list, c, m);
    ItemsAgree(e, groupBy, g, columns, c, m, full, gs, rs);
    InListAgrees(EvalGroup(e.value, groupBy, g, columns, m), gs, Eval(e.value, c, m), rs, e.negated, full, m);
  }

  lemma LikeForm(e: Expr, groupBy: seq<Expr>, g: Group, columns: seq<Column>, c: Context, m: Machine, full: bool)
    requires |g.values| == |groupBy| && Opened(groupBy, g, c, m) && Eligible(e, groupBy, full) && e !in groupBy && e.Like?
    ensures Agree(EvalGroup(e, groupBy, g, columns, m), Eval(e, c, m), full)
    decreases e, 1
  {
    hide Opened, Eligible, Agree, LikeValue;
    PartAgrees(e, 0, groupBy, g, columns, c, m, full);
    PartAgrees(e, 1, groupBy, g, columns, c, m, full);
    LikeAgrees(
      EvalGroup(e.value, groupBy, g, columns, m), EvalGroup(e.pattern, groupBy, g, columns, m),
      Eval(e.value, c, m), Eval(e.pattern, c, m), e.negated, e.escapeChar, e.caseInsensitive, full, m);
  }

  lemma OtherForm(e: Expr, groupBy: seq<Expr>, g: Group, columns: seq<Column>, c: Context, m: Machine, full: bool)
    requires |g.values| == |groupBy| && Opened(groupBy, g, c, m) && Eligible(e, groupBy, full) && e !in groupBy
    requires e.Literal? || e.Identifier? || e.CompoundIdentifier? || e.Array? || e.Call? || e.OtherExpr?
    ensures Agree(EvalGroup(e, groupBy, g, columns, m), Eval(e, c, m), full)
  {
    hide KindOf, LiteralValue, Opened;
    assert !Has(e, AggregateCall);
  }

  /** Whatever value the group evaluator gives an aggregate-free expression, the row evaluator gives on the
      opening row. When the query check admits the expression and no ARRAY stands outside GROUP BY, the two
      evaluators have values for the same expressions. */
  lemma GroupAgrees(e: Expr, groupBy: seq<Expr>, g: Group, columns: seq<Column>, c: Context, m: Machine, full: bool)
    requires |g.values| == |groupBy| && Opened(groupBy, g, c, m) && Eligible(e, groupBy, full)
    ensures Agree(EvalGroup(e, groupBy, g, columns, m), Eval(e, c, m), full)
    decreases e, 2
  {
    hide EvalGroup, Eval, Eligible, Opened, Agree;
    if e in groupBy {
      GroupedForm(e, groupBy, g, columns, c, m, full);
    } else {
      match e {
        case BinaryOp(_, _, _) => BinaryForm(e, groupBy, g, columns, c, m, full);
        case Between(_, _, _, _) => BetweenForm(e, groupBy, g, columns, c, m, full);
        case InList(_, _, _) => InListForm(e, groupBy, g, columns, c, m, full);
        case Like(_, _, _, _, _) => LikeForm(e, groupBy, g, columns, c, m, full);
        case Literal(_) => OtherForm(e, groupBy, g, columns, c, m, full);
        case Identifier(_) => OtherForm(e, groupBy, g, columns, c, m, full);
        case CompoundIdentifier(_) => OtherForm(e, groupBy, g, columns, c, m, full);
        case Array(_) => OtherForm(e, groupBy, g, columns, c, m, full);
        case Call(_) => OtherForm(e, groupBy, g, columns, c, m, full);
        case OtherExpr(_) => OtherForm(e, groupBy, g, columns, c, m, full);
        case _ => OnePartForm(e, groupBy, g, columns, c, m, full);
      }
    }
  }

  lemma GroupedForm(e: Expr, groupBy: seq<Expr>, g: Group, columns: seq<Column>, c: Context, m: Machine, full: bool)
    requires |g.values| == |groupBy| && Opened(groupBy, g, c, m) && e in groupBy
    ensures Agree(EvalGroup(e, groupBy, g, columns, m), Eval(e, c, m), full)
  {
    hide Eval;
    assert Position(groupBy, e) < |groupBy|;
  }

  /** An ARRAY outside GROUP BY passes the check of a grouped query when its elements do, and is then refused. */
  lemma LooseArrayIsRefusedLate(
      e: Expr, groupBy: seq<Expr>, g: Group, columns: seq<Column>, m: Machine)
    requires e.Array? && e !in groupBy && |g.values| == |groupBy|
    requires forall i | 0 <= i < |e.elements| :: Groupable(e.elements[i], groupBy)
    ensures Groupable(e, groupBy) && EvalGroup(e, groupBy, g, columns, m) == Failure(Unsupported)
  {
    assert Children(e) == e.elements;
  }
}
