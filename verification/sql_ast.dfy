/** The expression trees the SQL parser hands to the engine. */
module SqlAst {
  import opened Wrappers
  import opened Values

  datatype Ident = Ident(value: string, quoted: bool)

  datatype Literal =
    | Number(text: string)
    | StringLiteral(text: string)
    | BooleanLiteral(truth: bool)
    | NullLiteral
    | OtherLiteral(text: string)

  datatype BinaryOperator =
    | Eq | NotEq | Gt | GtEq | Lt | LtEq
    | And | Or
    | Plus | Minus | Multiply | Divide | Modulo
    | Spaceship
    | Custom(symbol: string)
    | OtherOperator(symbol: string)

  datatype UnaryOperator = Not | UnaryPlus | UnaryMinus | OtherUnary(symbol: string)

  /** What CAST names; spellings of one type differ only when expressions are compared with GROUP BY. */
  datatype SqlType =
    | SqlInteger(spelling: string)
    | SqlFloat(spelling: string)
    | SqlText(spelling: string)
    | SqlBoolean(spelling: string)
    | SqlVector(modifiers: seq<string>, spelling: string)
    | SqlOther(spelling: string)

  datatype TruthTest = True | False | NotTrue | NotFalse

  datatype Expr =
    | Literal(literal: Literal)
    | Identifier(ident: Ident)
    | CompoundIdentifier(idents: seq<Ident>)
    | Nested(inner: Expr)
    | Array(elements: seq<Expr>)
    | Call(callee: Function)
    | BinaryOp(left: Expr, op: BinaryOperator, right: Expr)
    | UnaryOp(unary: UnaryOperator, operand: Expr)
    | IsNull(tested: Expr)
    | IsNotNull(tested: Expr)
    | IsTruth(test: TruthTest, tested: Expr)
    | Between(value: Expr, negated: bool, low: Expr, high: Expr)
    | InList(value: Expr, list: seq<Expr>, negated: bool)
    | Like(value: Expr, pattern: Expr, negated: bool, escapeChar: Option<char>, caseInsensitive: bool)
    | Cast(value: Expr, target: SqlType)
    | OtherExpr(text: string)

  datatype Argument = Positional(expr: Expr) | Wildcard | QualifiedWildcard(name: string) | Named(name: string)

  datatype Function = Function(
    name: seq<Ident>, args: seq<Argument>, distinct: bool,
    filter: Option<Expr>, over: Option<string>, orderBy: seq<Expr>, special: bool)
  {
    predicate Modified() {
      distinct || filter.Some? || over.Some? || orderBy != []
    }
  }

  function IdentName(i: Ident): string {
    if i.quoted then i.value else NormalizeName(i.value)
  }

  function ObjectName(name: seq<Ident>): string {
    if name == [] then "" else IdentName(name[|name| - 1])
  }

  /* ----- Functions by name ----- */

  datatype AggregateKind = Count | Sum | Average | Minimum | Maximum

  datatype Metric = L2 | SquaredL2 | Cosine | Dot | NegativeDot

  datatype FunctionKind =
    | Aggregate(kind: AggregateKind)
    | MakeVector
    | Dimensions
    | Norm
    | Normalize
    | Distance(metric: Metric)
    | UnknownFunction

  function KindOf(f: Function): FunctionKind {
    var name := ObjectName(f.name);
    if name == "count" then Aggregate(Count)
    else if name == "sum" then Aggregate(Sum)
    else if name == "avg" then Aggregate(Average)
    else if name == "min" then Aggregate(Minimum)
    else if name == "max" then Aggregate(Maximum)
    else if name == "vector" then MakeVector
    else if name == "vector_dims" || name == "dimensions" then Dimensions
    else if name == "vector_norm" || name == "norm" then Norm
    else if name == "normalize" || name == "normalize_vector" then Normalize
    else if name == "l2_distance" || name == "euclidean_distance" then Distance(L2)
    else if name == "squared_l2_distance" then Distance(SquaredL2)
    else if name == "cosine_distance" then Distance(Cosine)
    else if name == "dot_product" || name == "inner_product" then Distance(Dot)
    else UnknownFunction
  }

  function OperatorMetric(symbol: string): Option<Metric> {
    if symbol == "<->" then Some(L2)
    else if symbol == "<#>" then Some(NegativeDot)
    else if symbol == "<=>" then Some(Cosine)
    else None
  }

  /* ----- Walking a tree ----- */

  function ArgumentExprs(args: seq<Argument>): (es: seq<Expr>)
    ensures forall i | 0 <= i < |es| :: exists k | 0 <= k < |args| :: args[k] == Positional(es[i])
  {
    if args == [] then []
    else (if args[0].Positional? then [args[0].expr] else []) + ArgumentExprs(args[1..])
  }

  lemma {:induction false} PositionalIsListed(args: seq<Argument>, i: nat) returns (k: nat)
    requires i < |args| && args[i].Positional?
    ensures k < |ArgumentExprs(args)| && ArgumentExprs(args)[k] == args[i].expr
  {
    if i == 0 {
      k := 0;
    } else {
      k := PositionalIsListed(args[1..], i - 1);
      k := k + if args[0].Positional? then 1 else 0;
    }
  }

  /** The subexpressions that evaluation looks at. */
  function Children(e: Expr): (es: seq<Expr>)
    ensures forall i | 0 <= i < |es| :: es[i] < e
  {
    match e
    case Nested(x) => [x]
    case Array(elements) => elements
    case Call(f) => ArgumentExprs(f.args)
    case BinaryOp(l, _, r) => [l, r]
    case UnaryOp(_, x) => [x]
    case IsNull(x) => [x]
    case IsNotNull(x) => [x]
    case IsTruth(_, x) => [x]
    case Between(x, _, low, high) => [x, low, high]
    case InList(x, list, _) => [x] + list
    case Like(x, pattern, _, _, _) => [x, pattern]
    case Cast(x, _) => [x]
    case _ => []
  }

  datatype Feature = AggregateCall | EscapeClause | CastForm

  predicate Has(e: Expr, feature: Feature) {
    match feature
    case AggregateCall => e.Call? && KindOf(e.callee).Aggregate?
    case EscapeClause => e.Like? && e.escapeChar.Some?
    case CastForm => e.Cast?
  }

  /** Some subexpression has the feature. */
  predicate Contains(e: Expr, feature: Feature)
    decreases e
  {
    Has(e, feature) || exists i | 0 <= i < |Children(e)| :: Contains(Children(e)[i], feature)
  }

  lemma ChildContains(e: Expr, i: nat, feature: Feature)
    requires i < |Children(e)| && Contains(Children(e)[i], feature)
    ensures Contains(e, feature)
  {
  }

  /* ----- Aggregates ----- */

  datatype AggregateSpec = AggregateSpec(kind: AggregateKind, argument: Option<Expr>, distinct: bool)

  function ParseAggregate(f: Function): (r: Result<AggregateSpec>)
    ensures r.Success? && r.value.argument.Some? ==> |f.args| == 1 && f.args[0] == Positional(r.value.argument.value)
    ensures r.Success? && r.value.argument.Some? ==> !Contains(r.value.argument.value, AggregateCall)
    ensures r.Success? && r.value.argument.None? ==> r.value.kind == Count
  {
    if f.filter.Some? || f.over.Some? || f.orderBy != [] || f.special then Failure(Unsupported)
    else
      var kind := KindOf(f);
      if !kind.Aggregate? then Failure(Unsupported)
      else if |f.args| != 1 then Failure(InvalidQuery(WrongArgumentCount))
      else
        match f.args[0]
        case Positional(x) =>
          if Contains(x, AggregateCall) then Failure(InvalidQuery(OtherQuery))
          else Success(AggregateSpec(kind.kind, Some(x), f.distinct))
        case Named(_) => Failure(Unsupported)
        case _ =>
          if kind.kind == Count && !f.distinct then Success(AggregateSpec(Count, None, f.distinct))
          else Failure(InvalidQuery(OtherQuery))
  }
}
