/**
 The columns that a query asks for, and where they stand in what is collected (src/execution/ExecutionLogic.cpp): all
 of them are in the compiled schema, in the order asked for, whatever other columns filters and sorts have requested.
 */
module ChosenColumns {
  import opened Values
  import opened Wrappers
  import opened Batches
  import opened Names
  import opened Plans
  import opened PlanShapes
  import Sequences

  /** What the query asks for; "*" stands for all fields of the table. */
  function Chosen(plan: Plan): seq<Name> {
    match plan
    case Scan(table, columns) => if columns == [[42]] then NamesOf(table.fields) else columns
    case Filter(child, _) => Chosen(child)
    case Limit(child, _) => Chosen(child)
    case OrderBy(child, _, _, _) => Chosen(child)
    case Project(child, es) => Chosen(child) + Outputs(es)
    case Drop(child, names) => Without(Chosen(child), names)
    case Reorder(_, names) => names
    case Aggregate(_, groupBy, es) => groupBy + AggOutputs(es)
  }

  /** The names of `few` stand in `all`, in their order. */
  ghost predicate StandIn(few: seq<Name>, all: seq<Name>) {
    exists at: seq<nat> ::
      StrictlyIncreasing(at) && |at| == |few| && forall k :: 0 <= k < |at| ==> at[k] < |all| && all[at[k]] == few[k]
  }

  // ----- the same, from the last name on -----

  predicate Inside(few: seq<Name>, all: seq<Name>) {
    few == [] ||
    (all != [] &&
     var m, n := |few| - 1, |all| - 1;
     (few[m] == all[n] && Inside(few[..m], all[..n])) || Inside(few, all[..n]))
  }

  lemma {:induction false} InsideStands(few: seq<Name>, all: seq<Name>) returns (at: seq<nat>)
    requires Inside(few, all)
    ensures StrictlyIncreasing(at) && |at| == |few| && forall k :: 0 <= k < |at| ==> at[k] < |all| && all[at[k]] == few[k]
    decreases |all|
  {
    if few == [] {
      return [];
    }
    var m, n := |few| - 1, |all| - 1;
    if few[m] == all[n] && Inside(few[..m], all[..n]) {
      at := InsideStands(few[..m], all[..n]);
      at := at + [n];
    } else {
      at := InsideStands(few, all[..n]);
    }
  }

  lemma {:induction false} InsideSelf(names: seq<Name>)
    ensures Inside(names, names)
    decreases |names|
  {
    if names != [] {
      InsideSelf(names[..|names| - 1]);
    }
  }

  lemma {:induction false} InsidePrefix(few: seq<Name>, all: seq<Name>)
    requires few <= all
    ensures Inside(few, all)
    decreases |all|
  {
    if |few| == |all| {
      assert few == all;
      InsideSelf(few);
    } else {
      assert few <= all[..|all| - 1];
      InsidePrefix(few, all[..|all| - 1]);
    }
  }

  lemma {:induction false} InsideLonger(few: seq<Name>, all: seq<Name>, more: seq<Name>)
    requires Inside(few, all)
    ensures Inside(few + more, all + more)
    decreases |more|
  {
    if more == [] {
      assert few + more == few && all + more == all;
    } else {
      var n := |more| - 1;
      InsideLonger(few, all, more[..n]);
      assert (few + more)[..|few + more| - 1] == few + more[..n] && (all + more)[..|all + more| - 1] == all + more[..n];
    }
  }

  /** Taking the same names out of both. */
  lemma {:induction false} InsideWithout(few: seq<Name>, all: seq<Name>, gone: seq<Name>)
    requires Inside(few, all)
    ensures Inside(Without(few, gone), Without(all, gone))
    decreases |all|
  {
    if few != [] {
      var m, n := |few| - 1, |all| - 1;
      if few[m] == all[n] && Inside(few[..m], all[..n]) {
        InsideWithout(few[..m], all[..n], gone);
        InsideLonger(Without(few[..m], gone), Without(all[..n], gone), [few[m]]);
        assert Without(few[..m], gone) + [] == Without(few[..m], gone) && Without(all[..n], gone) + [] == Without(all[..n], gone);
      } else {
        InsideWithout(few, all[..n], gone);
        InsideMore(Without(few, gone), Without(all[..n], gone), all[n]);
        assert Without(all[..n], gone) + [] == Without(all[..n], gone);
      }
    }
  }

  lemma InsideMore(few: seq<Name>, all: seq<Name>, x: Name)
    requires Inside(few, all)
    ensures Inside(few, all + [x])
  {
    assert (all + [x])[..|all|] == all;
  }

  // ----- the compiled schema -----

  lemma NamesConcat(a: seq<Field>, b: seq<Field>)
    ensures NamesOf(a + b) == NamesOf(a) + NamesOf(b)
  {
  }

  lemma NamesOfOneMore(schema: seq<Field>, ix: seq<nat>, i: nat)
    requires i < |schema| && forall j :: 0 <= j < |ix| ==> ix[j] < |schema|
    ensures NamesOf(FieldsAt(schema, ix + [i])) == NamesOf(FieldsAt(schema, ix)) + [schema[i].name]
  {
  }

  lemma NamesOfFront(schema: seq<Field>, n: nat, ix: seq<nat>)
    requires n <= |schema| && forall j :: 0 <= j < |ix| ==> ix[j] < n
    ensures NamesOf(FieldsAt(schema, ix)) == NamesOf(FieldsAt(schema[..n], ix))
  {
  }

  lemma WithoutLast(names: seq<Name>, x: Name, gone: seq<Name>)
    ensures Without(names + [x], gone) == if x in gone then Without(names, gone) else Without(names, gone) + [x]
  {
    assert (names + [x])[..|names|] == names;
  }

  /** DROP leaves the other names, in their order. */
  lemma {:induction false} StayNames(schema: seq<Field>, gone: seq<Name>)
    ensures NamesOf(FieldsAt(schema, StayIndices(schema, gone))) == Without(NamesOf(schema), gone)
    decreases |schema|
  {
    if schema == [] {
      assert NamesOf(schema) == [];
    } else {
      var n := |schema| - 1;
      var before := StayIndices(schema[..n], gone);
      StayNames(schema[..n], gone);
      NamesOfFront(schema, n, before);
      NamesOfOneMore(schema, before, n);
      assert NamesOf(schema) == NamesOf(schema[..n]) + [schema[n].name];
      WithoutLast(NamesOf(schema[..n]), schema[n].name, gone);
    }
  }

  lemma PickedNames(schema: seq<Field>, names: seq<Name>)
    requires IndicesOf(schema, names).Ok?
    ensures var ix := IndicesOf(schema, names).value;
            (forall j :: 0 <= j < |ix| ==> ix[j] < |schema|) && NamesOf(FieldsAt(schema, ix)) == names
  {
    var ix := IndicesOf(schema, names).value;
    forall j | 0 <= j < |ix| ensures ix[j] < |schema| && schema[ix[j]].name == names[j] {
      assert IndexOf(schema, names[j]) == Some(ix[j]);
    }
  }

  lemma ProjectNames(plan: Plan, b: Built)
    requires plan.Project? && CompileNode(plan, b).Ok?
    ensures NamesOf(CompileNode(plan, b).value.schema) == NamesOf(b.schema) + Outputs(plan.scalars)
  {
    ScalarNames(plan.scalars, b.schema);
    NamesConcat(b.schema, CompileScalars(plan.scalars, b.schema).value.1);
  }

  lemma AggregateNames(plan: Plan, b: Built)
    requires plan.Aggregate? && CompileNode(plan, b).Ok?
    ensures NamesOf(CompileNode(plan, b).value.schema) == plan.groupBy + AggOutputs(plan.exprs)
  {
    PickedNames(b.schema, plan.groupBy);
    var ix, fs := IndicesOf(b.schema, plan.groupBy).value, CompileAggs(plan.exprs, b.schema).value;
    NamesConcat(FieldsAt(b.schema, ix), AggFields(plan.exprs, fs));
    assert NamesOf(AggFields(plan.exprs, fs)) == AggOutputs(plan.exprs);
  }

  lemma NodeChosen(plan: Plan, b: Built)
    requires !plan.Scan? && Inside(Chosen(plan.child), NamesOf(b.schema)) && CompileNode(plan, b).Ok?
    ensures Inside(Chosen(plan), NamesOf(CompileNode(plan, b).value.schema))
  {
    match plan
    case Filter(_, _) =>
    case Limit(_, _) =>
    case OrderBy(_, _, _, _) =>
    case Project(child, es) =>
      ProjectNames(plan, b);
      InsideLonger(Chosen(child), NamesOf(b.schema), Outputs(es));
    case Drop(child, names) =>
      StayNames(b.schema, names);
      InsideWithout(Chosen(child), NamesOf(b.schema), names);
    case Reorder(_, names) =>
      PickedNames(b.schema, names);
      InsideSelf(names);
    case Aggregate(_, groupBy, es) =>
      AggregateNames(plan, b);
      InsideSelf(groupBy + AggOutputs(es));
  }

  lemma {:induction false} ChosenInside(plan: Plan, required: Option<seq<Name>>, done: seq<Pipe>)
    requires Compile(plan, required, done).Ok?
    ensures Inside(Chosen(plan), NamesOf(Compile(plan, required, done).value.schema))
    decreases plan
  {
    if plan.Scan? {
      var names := ScanNames(plan.table, plan.columns, required);
      ScanReads(plan.table, plan.columns, required);
      PickedNames(plan.table.fields, names);
      InsidePrefix(Chosen(plan), names);
    } else {
      ChosenInside(plan.child, ChildNeeds(plan, required), done);
      NodeChosen(plan, Compile(plan.child, ChildNeeds(plan, required), done).value);
    }
  }

  /** Every column asked for is in the compiled schema, and they stand there in the order asked for. */
  lemma ChosenAreDelivered(plan: Plan, required: Option<seq<Name>>, done: seq<Pipe>)
    requires Compile(plan, required, done).Ok?
    ensures var names := NamesOf(Compile(plan, required, done).value.schema);
            StandIn(Chosen(plan), names) && forall x: Name :: x in Chosen(plan) ==> x in names
  {
    ChosenInside(plan, required, done);
    var names := NamesOf(Compile(plan, required, done).value.schema);
    var at := InsideStands(Chosen(plan), names);
    assert StandIn(Chosen(plan), names);
    forall x: Name | x in Chosen(plan) ensures x in names {
      var k :| 0 <= k < |at| && Chosen(plan)[k] == x;
      assert names[at[k]] == x;
    }
  }
}
