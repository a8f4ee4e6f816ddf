/** GROUP BY: every row that passes WHERE joins exactly one group, the one with its keys. */
module Grouping {
  import opened Wrappers
  import opened Values
  import opened SqlAst
  import opened SqlTypes
  import opened SqlEval
  import opened SqlGroups
  import opened SqlGroupAgreement

  datatype Selection = Selection(columns: seq<Column>, filter: Option<Expr>, groupBy: seq<Expr>)

  function Admits(s: Selection, row: Row, m: Machine): Result<bool> {
    match s.filter
    case None => Success(true)
    case Some(filter) =>
      var v :- Eval(filter, RowContext(s.columns, row), m);
      var b :- AsBool(v);
      Success(b == Some(true))
  }

  function GroupOutcomes(s: Selection, row: Row, m: Machine): (rs: seq<Outcome>)
    ensures |rs| == |s.groupBy|
    ensures forall i | 0 <= i < |rs| :: rs[i] == Eval(s.groupBy[i], RowContext(s.columns, row), m)
  {
    seq(|s.groupBy|, i requires 0 <= i < |s.groupBy| => Eval(s.groupBy[i], RowContext(s.columns, row), m))
  }

  /** The GROUP BY values of a row, or nothing if WHERE rejects it. */
  function Classify(s: Selection, row: Row, m: Machine): (r: Result<Option<seq<Value>>>)
    ensures r.Success? && r.value.Some? ==> |r.value.value| == |s.groupBy|
  {
    var admitted :- Admits(s, row, m);
    if !admitted then Success(None)
    else
      var values :- Collect(GroupOutcomes(s, row, m));
      Success(Some(values))
  }

  /** The classes of all rows, provided none fails. */
  ghost predicate AreClasses(classes: seq<Option<seq<Value>>>, s: Selection, rows: seq<Row>, m: Machine) {
    |classes| <= |rows| && forall i | 0 <= i < |classes| :: Classify(s, rows[i], m) == Success(classes[i])
  }

  function Pick(rows: seq<Row>, members: seq<nat>): (r: seq<Row>)
    requires forall i | 0 <= i < |members| :: members[i] < |rows|
    ensures |r| == |members|
  {
    seq(|members|, i requires 0 <= i < |members| => rows[members[i]])
  }

  ghost predicate Ascending(s: seq<nat>) {
    forall i, j | 0 <= i < j < |s| :: s[i] < s[j]
  }

  /** One group: rows of its class in scan order, values from the row that opened it. */
  ghost predicate IsGroup(g: Group, members: seq<nat>, rows: seq<Row>, classes: seq<Option<seq<Value>>>) {
    && |classes| <= |rows|
    && Ascending(members)
    && (forall i | 0 <= i < |members| ::
          && members[i] < |classes| && classes[members[i]].Some?
          && KeysOf(classes[members[i]].value) == KeysOf(g.values))
    && g.rows == Pick(rows, members)
    && (members != [] ==> g.values == classes[members[0]].value)
  }

  ghost predicate AllGroups(groups: seq<Group>, members: seq<seq<nat>>, rows: seq<Row>, classes: seq<Option<seq<Value>>>) {
    |members| == |groups| && forall j | 0 <= j < |groups| :: IsGroup(groups[j], members[j], rows, classes)
  }

  ghost predicate DistinctKeys(groups: seq<Group>) {
    forall i, j | 0 <= i < j < |groups| :: KeysOf(groups[i].values) != KeysOf(groups[j].values)
  }

  ghost predicate Joined(members: seq<seq<nat>>, i: nat) {
    exists j | 0 <= j < |members| :: i in members[j]
  }

  ghost predicate EveryoneJoined(members: seq<seq<nat>>, classes: seq<Option<seq<Value>>>) {
    forall i | 0 <= i < |classes| && classes[i].Some? :: Joined(members, i)
  }

  /** The groups partition the rows that pass. */
  ghost predicate Partition(groups: seq<Group>, members: seq<seq<nat>>, rows: seq<Row>, classes: seq<Option<seq<Value>>>) {
    AllGroups(groups, members, rows, classes) && DistinctKeys(groups) && EveryoneJoined(members, classes)
  }

  /** No row is in two groups. */
  lemma JoinedOnce(
      groups: seq<Group>, members: seq<seq<nat>>, rows: seq<Row>, classes: seq<Option<seq<Value>>>, i: nat, j: nat, k: nat)
    requires Partition(groups, members, rows, classes) && j < |members| && k < |members|
    requires i in members[j] && i in members[k]
    ensures j == k
  {
    hide KeysOf;
    assert IsGroup(groups[j], members[j], rows, classes) && IsGroup(groups[k], members[k], rows, classes);
    assert KeysOf(groups[j].values) == KeysOf(groups[k].values);
  }

  /** Two rows that pass share a group exactly when their GROUP BY keys are equal. */
  lemma SameGroup(
      groups: seq<Group>, members: seq<seq<nat>>, rows: seq<Row>, classes: seq<Option<seq<Value>>>, j: nat, a: nat, b: nat)
    requires Partition(groups, members, rows, classes) && j < |members| && a in members[j]
    requires b < |classes| && classes[b].Some?
    ensures a < |classes| && classes[a].Some?
    ensures b in members[j] <==> KeysOf(classes[a].value) == KeysOf(classes[b].value)
  {
    hide KeysOf;
    assert IsGroup(groups[j], members[j], rows, classes);
    var i :| 0 <= i < |members[j]| && members[j][i] == a;
    assert Joined(members, b);
    var k :| 0 <= k < |members| && b in members[k];
    assert IsGroup(groups[k], members[k], rows, classes);
    var l :| 0 <= l < |members[k]| && members[k][l] == b;
    if KeysOf(classes[a].value) == KeysOf(classes[b].value) {
      assert KeysOf(groups[j].values) == KeysOf(groups[k].values);
      assert j == k;
    }
  }

  lemma SkipRow(groups: seq<Group>, members: seq<seq<nat>>, rows: seq<Row>, classes: seq<Option<seq<Value>>>)
    requires Partition(groups, members, rows, classes) && |classes| < |rows|
    ensures Partition(groups, members, rows, classes + [None])
  {
    hide KeysOf, Joined;
    var after := classes + [None];
    forall j | 0 <= j < |groups|
      ensures IsGroup(groups[j], members[j], rows, after)
    {
      GroupStays(groups[j], members[j], rows, classes, None);
    }
    assert forall i | 0 <= i < |after| && after[i].Some? :: i < |classes| && after[i] == classes[i];
  }

  lemma GroupStays(g: Group, members: seq<nat>, rows: seq<Row>, classes: seq<Option<seq<Value>>>, c: Option<seq<Value>>)
    requires IsGroup(g, members, rows, classes) && |classes| < |rows|
    ensures IsGroup(g, members, rows, classes + [c])
  {
    hide KeysOf;
    assert forall i | 0 <= i < |classes| :: (classes + [c])[i] == classes[i];
  }

  lemma JoinsGroup(g: Group, members: seq<nat>, rows: seq<Row>, classes: seq<Option<seq<Value>>>, values: seq<Value>)
    requires IsGroup(g, members, rows, classes) && |classes| < |rows|
    requires KeysOf(g.values) == KeysOf(values) && (members == [] ==> g.values == values)
    ensures IsGroup(g.(rows := g.rows + [rows[|classes|]]), members + [|classes|], rows, classes + [Some(values)])
  {
    hide KeysOf;
    var after := classes + [Some(values)];
    assert forall i | 0 <= i < |classes| :: after[i] == classes[i];
    assert Pick(rows, members + [|classes|]) == Pick(rows, members) + [rows[|classes|]];
  }

  lemma JoinRow(
      groups: seq<Group>, members: seq<seq<nat>>, rows: seq<Row>, classes: seq<Option<seq<Value>>>,
      values: seq<Value>, j: nat)
    requires Partition(groups, members, rows, classes) && |classes| < |rows| && j < |groups|
    requires KeysOf(groups[j].values) == KeysOf(values) && (members[j] == [] ==> groups[j].values == values)
    ensures Partition(groups[j := groups[j].(rows := groups[j].rows + [rows[|classes|]])],
                      members[j := members[j] + [|classes|]], rows, classes + [Some(values)])
  {
    hide KeysOf, IsGroup, Joined;
    var after := classes + [Some(values)];
    var groups' := groups[j := groups[j].(rows := groups[j].rows + [rows[|classes|]])];
    var members' := members[j := members[j] + [|classes|]];
    forall k | 0 <= k < |groups|
      ensures IsGroup(groups'[k], members'[k], rows, after)
    {
      if k == j {
        JoinsGroup(groups[j], members[j], rows, classes, values);
      } else {
        GroupStays(groups[k], members[k], rows, classes, Some(values));
      }
    }
    forall i | 0 <= i < |after| && after[i].Some?
      ensures Joined(members', i)
    {
      StillJoined(members, j, |classes|, i) by {
        if i < |classes| {
          assert classes[i] == after[i];
        }
      }
    }
  }

  lemma StillJoined(members: seq<seq<nat>>, j: nat, added: nat, i: nat)
    requires j < |members| && (i == added || Joined(members, i))
    ensures Joined(members[j := members[j] + [added]], i)
  {
    var after := members[j := members[j] + [added]];
    if i == added {
      assert i in after[j];
    } else {
      var k :| 0 <= k < |members| && i in members[k];
      assert i in after[k];
    }
  }

  /** A new group starts without rows. */
  lemma OpenGroup(
      groups: seq<Group>, members: seq<seq<nat>>, rows: seq<Row>, classes: seq<Option<seq<Value>>>, values: seq<Value>)
    requires Partition(groups, members, rows, classes) && |classes| <= |rows|
    requires forall j | 0 <= j < |groups| :: KeysOf(groups[j].values) != KeysOf(values)
    ensures Partition(groups + [Group(values, [])], members + [[]], rows, classes)
  {
    hide KeysOf;
    assert IsGroup(Group(values, []), [], rows, classes);
    hide IsGroup;
    forall i | 0 <= i < |classes| && classes[i].Some?
      ensures Joined(members + [[]], i)
    {
      assert Joined(members, i);
      var j :| 0 <= j < |members| && i in members[j];
      assert i in (members + [[]])[j];
    }
  }

  /** The hash map from keys to group numbers. */
  ghost predicate PositionsFit(positions: map<seq<UniqueKey>, nat>, groups: seq<Group>) {
    && (forall key | key in positions :: positions[key] < |groups| && KeysOf(groups[positions[key]].values) == key)
    && forall j | 0 <= j < |groups| :: KeysOf(groups[j].values) in positions
  }

  lemma PositionsAfterOpen(positions: map<seq<UniqueKey>, nat>, groups: seq<Group>, g: Group)
    requires PositionsFit(positions, groups) && KeysOf(g.values) !in positions
    ensures PositionsFit(positions[KeysOf(g.values) := |groups|], groups + [g])
    ensures forall j | 0 <= j < |groups| :: KeysOf(groups[j].values) != KeysOf(g.values)
  {
    hide KeysOf;
  }

  lemma PositionsAfterJoin(positions: map<seq<UniqueKey>, nat>, groups: seq<Group>, j: nat, rows: seq<Row>)
    requires PositionsFit(positions, groups) && j < |groups|
    ensures PositionsFit(positions, groups[j := groups[j].(rows := rows)])
  {
    hide KeysOf;
  }

  lemma PositionFound(positions: map<seq<UniqueKey>, nat>, groups: seq<Group>, key: seq<UniqueKey>)
    requires PositionsFit(positions, groups) && key in positions
    ensures positions[key] < |groups| && KeysOf(groups[positions[key]].values) == key
  {
    hide KeysOf;
  }

  /** Which groups may have no rows: without GROUP BY the single group, otherwise none. */
  ghost predicate Occupied(s: Selection, groups: seq<Group>, members: seq<seq<nat>>) {
    && |members| == |groups|
    && if s.groupBy == [] then |groups| == 1 && groups[0].values == []
       else forall j | 0 <= j < |members| :: members[j] != []
  }

  lemma StartsOccupied(s: Selection, rows: seq<Row>)
    ensures var groups, members := if s.groupBy == [] then [Group([], [])] else [], if s.groupBy == [] then [[]] else [];
      Occupied(s, groups, members) && Partition(groups, members, rows, [])
  {
    if s.groupBy == [] {
      assert IsGroup(Group([], []), [], rows, []);
    }
  }

  /** The group a row joins: found by its key, or opened for it. */
  method FindGroup(
      s: Selection, groups: seq<Group>, positions: map<seq<UniqueKey>, nat>, values: seq<Value>,
      ghost members: seq<seq<nat>>, ghost rows: seq<Row>, ghost classes: seq<Option<seq<Value>>>)
    returns (groups': seq<Group>, positions': map<seq<UniqueKey>, nat>, position: nat, ghost members': seq<seq<nat>>)
    requires |values| == |s.groupBy| && |classes| < |rows|
    requires Occupied(s, groups, members) && Partition(groups, members, rows, classes)
    requires s.groupBy != [] ==> PositionsFit(positions, groups)
    ensures |members'| == |groups'| && Partition(groups', members', rows, classes)
    ensures s.groupBy != [] ==> PositionsFit(positions', groups')
    ensures position < |groups'| && KeysOf(groups'[position].values) == KeysOf(values)
    ensures members'[position] == [] ==> groups'[position].values == values
    ensures forall k | 0 <= k < |members'| && k != position ::
              k < |groups| && groups'[k] == groups[k] && members'[k] == members[k]
    ensures s.groupBy == [] ==> groups' == groups
  {
    hide KeysOf, Partition, PositionsFit;
    groups', positions', position, members' := groups, positions, 0, members;
    if s.groupBy == [] {
      assert values == [];
      return;
    }
    var key := KeysOf(values);
    if key in positions {
      position := positions[key];
      PositionFound(positions, groups, key);
    } else {
      position := |groups|;
      PositionsAfterOpen(positions, groups, Group(values, []));
      OpenGroup(groups, members, rows, classes, values);
      groups' := groups + [Group(values, [])];
      members' := members + [[]];
      positions' := positions[key := position];
    }
  }

  /** Groups every row that passes WHERE, in scan order. `members` lists the rows of each group; with GROUP BY
      no group is empty, and without it there is a single group. It fails exactly when WHERE or a GROUP BY
      expression fails on some row. */
  method GroupRows(s: Selection, rows: seq<Row>, m: Machine)
    returns (r: Result<seq<Group>>, ghost members: seq<seq<nat>>, ghost classes: seq<Option<seq<Value>>>)
    ensures r.Success? <==> forall i | 0 <= i < |rows| :: Classify(s, rows[i], m).Success?
    ensures r.Success? ==>
      && |classes| == |rows| && AreClasses(classes, s, rows, m)
      && Partition(r.value, members, rows, classes) && Occupied(s, r.value, members)
  {
    hide Classify, KeysOf, Partition, PositionsFit;
    var groups: seq<Group> := if s.groupBy == [] then [Group([], [])] else [];
    var positions: map<seq<UniqueKey>, nat> := map[];
    members, classes := if s.groupBy == [] then [[]] else [], [];
    StartsOccupied(s, rows);
    assert s.groupBy != [] ==> PositionsFit(positions, groups) by {
      NoPositions();
    }
    for k := 0 to |rows|
      invariant |classes| == k && AreClasses(classes, s, rows, m)
      invariant Occupied(s, groups, members) && Partition(groups, members, rows, classes)
      invariant s.groupBy != [] ==> PositionsFit(positions, groups)
    {
      var c := Classify(s, rows[k], m);
      if c.Failure? {
        return Failure(c.error), members, classes;
      }
      if c.value.None? {
        SkipRow(groups, members, rows, classes);
      } else {
        var position;
        groups, positions, position, members :=
          FindGroup(s, groups, positions, c.value.value, members, rows, classes);
        var joined := groups[position].(rows := groups[position].rows + [rows[k]]);
        JoinRow(groups, members, rows, classes, c.value.value, position);
        if s.groupBy != [] {
          PositionsAfterJoin(positions, groups, position, joined.rows);
        }
        groups := groups[position := joined];
        members := members[position := members[position] + [k]];
      }
      classes := classes + [c.value];
    }
    return Success(groups), members, classes;
  }

  lemma NoPositions()
    ensures PositionsFit(map[], [])
  {
  }

  /** With GROUP BY, every group was opened by its first row, so what the group evaluator computes for an
      aggregate-free expression is what the row evaluator computes on that row. */
  lemma GroupsAgreeWithTheirFirstRow(
      s: Selection, rows: seq<Row>, groups: seq<Group>, members: seq<seq<nat>>, classes: seq<Option<seq<Value>>>,
      j: nat, e: Expr, m: Machine)
    requires AreClasses(classes, s, rows, m) && Partition(groups, members, rows, classes)
    requires j < |groups| && members[j] != [] && !Contains(e, AggregateCall)
    ensures |groups[j].values| == |s.groupBy| && groups[j].rows != []
    ensures var g := EvalGroup(e, s.groupBy, groups[j], s.columns, m);
      g.Success? ==> Eval(e, RowContext(s.columns, groups[j].rows[0]), m) == g
  {
    hide EvalGroup, Eval;
    assert IsGroup(groups[j], members[j], rows, classes);
    var first := members[j][0];
    assert groups[j].rows[0] == rows[first];
    assert Classify(s, rows[first], m) == Success(classes[first]);
    GroupAgrees(e, s.groupBy, groups[j], s.columns, RowContext(s.columns, rows[first]), m, false);
  }
}
