/** The finished plan of a question that groups: how its SELECT and GROUP BY, which the last
    passes treat apart, still match. */
module GroupByPlan {
  import opened Graph
  import opened Names
  import opened GroupBy
  import opened GroupByRepair
  import opened PlanRepair
  import J = JoinPlan
  import F = PlanFinish
  import R = ColumnRepair

  function MeasureEntry(m: Measure): J.Item {
    J.Item(m.table, m.column)
  }

  function SelectEntries(select: seq<SelectItem>): (r: seq<J.Item>)
    ensures |r| == |select| && forall i :: 0 <= i < |select| ==> r[i] == J.Item(select[i].table, select[i].column)
  {
    seq(|select|, i requires 0 <= i < |select| => J.Item(select[i].table, select[i].column))
  }

  function GroupEntries(cols: seq<GroupColumn>): (r: seq<J.Item>)
    ensures |r| == |cols| && forall i :: 0 <= i < |cols| ==> r[i] == J.Item(cols[i].table, cols[i].column)
  {
    seq(|cols|, i requires 0 <= i < |cols| => J.Item(cols[i].table, cols[i].column))
  }

  /** The entries of a GROUP BY that stand where it has a visible column. */
  function VisibleOf(groupBy: seq<GroupColumn>, items: seq<J.Item>): seq<J.Item>
    requires |items| == |groupBy|
  {
    if groupBy == [] then []
    else
      var n := |groupBy| - 1;
      var init := VisibleOf(groupBy[..n], items[..n]);
      if groupBy[n].hidden then init else init + [items[n]]
  }

  /** The plan's clauses hold the decision's two lists. */
  ghost predicate Holds(cs: J.Clauses, select: seq<SelectItem>, groupBy: seq<GroupColumn>) {
    cs.select == J.Many(SelectEntries(select)) && cs.groupBy == J.Many(GroupEntries(groupBy))
  }

  lemma {:induction false} RepairedVisible(schema: R.Schema, groupBy: seq<GroupColumn>)
    ensures VisibleOf(groupBy, RepairedItems(schema, GroupEntries(groupBy))) ==
            RepairedItems(schema, GroupEntries(Visible(groupBy)))
  {
    if groupBy != [] {
      var n := |groupBy| - 1;
      RepairedVisible(schema, groupBy[..n]);
      assert RepairedItems(schema, GroupEntries(groupBy))[..n] == RepairedItems(schema, GroupEntries(groupBy[..n]));
    }
  }

  lemma SelectedEntries(visible: seq<GroupColumn>, m: Measure)
    ensures SelectEntries(Projection(visible) + [MeasureItem(m)]) == GroupEntries(visible) + [MeasureEntry(m)]
  {
  }

  lemma RepairedOneMore(schema: R.Schema, items: seq<J.Item>, last: J.Item)
    ensures RepairedItems(schema, items + [last]) == RepairedItems(schema, items) + [RepairedItem(schema, last)]
    ensures MissingIn(schema, items + [last]) == MissingIn(schema, items) + MissingIn(schema, [last])
  {
    assert (items + [last])[..|items|] == items;
    assert [last][..0] == [];
  }

  function EntryRef(item: J.Item): R.Reference
    requires item.Item?
  {
    R.Reference(item.table, item.column)
  }

  /** After repair each entry that could be repaired names what it was meant to. */
  ghost predicate NamesAlike(schema: R.Schema, given: seq<J.Item>, items: seq<J.Item>) {
    |items| == |given| &&
    forall i :: 0 <= i < |given| && given[i].Item? && R.Repaired(schema, EntryRef(given[i])).Some? ==>
      items[i].Item? && R.NamesColumn(schema, EntryRef(given[i]), EntryRef(items[i]))
  }

  lemma RepairNamesAlike(schema: R.Schema, given: seq<J.Item>)
    ensures NamesAlike(schema, given, RepairedItems(schema, given))
  {
    forall i | 0 <= i < |given| && given[i].Item? && R.Repaired(schema, EntryRef(given[i])).Some?
      ensures R.NamesColumn(schema, EntryRef(given[i]), EntryRef(RepairedItems(schema, given)[i]))
    {
      R.RepairNames(schema, EntryRef(given[i]));
    }
  }

  /** The plan that leaves the passes selects what its own GROUP BY has in the open, in order,
      and then the measure as its aggregation names it, each named as the decision meant it;
      and SELECT is refused for exactly the references that those are refused for. */
  lemma RepairKeepsMatch(q: Question, cat: Catalog, select: seq<SelectItem>, groupBy: seq<GroupColumn>, g: JoinGraph,
                         schema: R.Schema, base: Table, joins: seq<J.Join>, cs: J.Clauses)
    requires Decision(q, cat, select, groupBy) && Holds(cs, select, groupBy)
    ensures var cs' := F.Finished(g, schema, base, joins, cs).2;
            && |J.Items(cs'.groupBy)| == |groupBy|
            && J.Items(cs'.select) ==
               VisibleOf(groupBy, J.Items(cs'.groupBy)) + [RepairedItem(schema, MeasureEntry(q.measure))]
            && NamesAlike(schema, SelectEntries(select), J.Items(cs'.select))
    ensures MissingIn(schema, J.Items(cs.select)) ==
            MissingIn(schema, GroupEntries(Visible(groupBy))) + MissingIn(schema, [MeasureEntry(q.measure)])
  {
    F.OutputStays(g, schema, base, joins, cs, J.Select);
    F.OutputStays(g, schema, base, joins, cs, J.ClauseKey.GroupBy);
    RepairNamesAlike(schema, SelectEntries(select));
    MatchIs(schema, groupBy, q.measure);
  }

  lemma MatchIs(schema: R.Schema, groupBy: seq<GroupColumn>, m: Measure)
    ensures var entries := SelectEntries(Projection(Visible(groupBy)) + [MeasureItem(m)]);
            && RepairedItems(schema, entries) ==
               VisibleOf(groupBy, RepairedItems(schema, GroupEntries(groupBy))) +
               [RepairedItem(schema, MeasureEntry(m))]
            && MissingIn(schema, entries) ==
               MissingIn(schema, GroupEntries(Visible(groupBy))) + MissingIn(schema, [MeasureEntry(m)])
  {
    SelectedEntries(Visible(groupBy), m);
    RepairedOneMore(schema, GroupEntries(Visible(groupBy)), MeasureEntry(m));
    RepairedVisible(schema, groupBy);
  }

  /** The entry is what repair makes of a column. */
  predicate Stands(schema: R.Schema, item: J.Item, c: GroupColumn) {
    item.Item? && EntryRef(item) == R.RepairedOrKept(schema, GroupRef(c))
  }

  ghost predicate AllStand(schema: R.Schema, items: seq<J.Item>, cols: seq<GroupColumn>) {
    |items| == |cols| + 1 && forall i :: 0 <= i < |cols| ==> Stands(schema, items[i], cols[i])
  }

  lemma AllStandAfter(schema: R.Schema, cols: seq<GroupColumn>, m: Measure, select: seq<SelectItem>)
    requires select == Projection(cols) + [MeasureItem(m)]
    ensures AllStand(schema, RepairedItems(schema, SelectEntries(select)), cols)
  {
    forall i | 0 <= i < |cols|
      ensures Stands(schema, RepairedItems(schema, SelectEntries(select))[i], cols[i])
    {
      assert select[i] == Projected(cols[i]);
    }
  }

  lemma FinishedSelect(select: seq<SelectItem>, groupBy: seq<GroupColumn>, g: JoinGraph, schema: R.Schema, base: Table,
                       joins: seq<J.Join>, cs: J.Clauses)
    requires Holds(cs, select, groupBy)
    ensures J.Items(F.Finished(g, schema, base, joins, cs).2.select) == RepairedItems(schema, SelectEntries(select))
  {
    F.OutputStays(g, schema, base, joins, cs, J.Select);
  }

  /** They are one column of the schema once repaired: they mean one table and come to one
      column of it, each to its own when its table has it, else to the nearest. */
  predicate ComeToOne(schema: R.Schema, c: GroupColumn, d: GroupColumn) {
    && Lower(R.Meant(GroupRef(c)).table) == Lower(R.Meant(GroupRef(d)).table)
    && Lower(R.ComesTo(schema, GroupRef(c))) == Lower(R.ComesTo(schema, GroupRef(d)))
  }

  lemma StandIff(schema: R.Schema, x: J.Item, c: GroupColumn, y: J.Item, d: GroupColumn)
    requires R.PlainColumns(schema) && R.ParseCall(c.column).None? && R.ParseCall(d.column).None?
    requires Stands(schema, x, c) && Stands(schema, y, d)
    ensures R.SameColumn(EntryRef(x), EntryRef(y)) <==> ComeToOne(schema, c, d)
  {
    R.MeetIff(schema, GroupRef(c), GroupRef(d));
  }

  /** Two columns the question groups by are one column in the SELECT of the finished plan
      exactly when they come to one. */
  lemma ColumnsMergeIff(q: Question, cat: Catalog, select: seq<SelectItem>, groupBy: seq<GroupColumn>, g: JoinGraph,
                        schema: R.Schema, base: Table, joins: seq<J.Join>, cs: J.Clauses, i: nat, j: nat)
    requires Decision(q, cat, select, groupBy) && Holds(cs, select, groupBy) && Grouped(q) && R.PlainColumns(schema)
    requires i < |Cleaned(Chosen(q, cat))| && R.ParseCall(Cleaned(Chosen(q, cat))[i].column).None?
    requires j < |Cleaned(Chosen(q, cat))| && R.ParseCall(Cleaned(Chosen(q, cat))[j].column).None?
    ensures var cols, items := Cleaned(Chosen(q, cat)), J.Items(F.Finished(g, schema, base, joins, cs).2.select);
            && |items| == |cols| + 1 && items[i].Item? && items[j].Item?
            && (R.SameColumn(EntryRef(items[i]), EntryRef(items[j])) <==> ComeToOne(schema, cols[i], cols[j]))
  {
    var cols, items := Cleaned(Chosen(q, cat)), RepairedItems(schema, SelectEntries(select));
    DecisionIsBuilt(q, cat, select, groupBy);
    AllStandAfter(schema, cols, q.measure, select);
    FinishedSelect(select, groupBy, g, schema, base, joins, cs);
    StandIff(schema, items[i], cols[i], items[j], cols[j]);
  }

  lemma MissMerges(schema: R.Schema, c: GroupColumn, d: GroupColumn)
    requires R.PlainColumns(schema) && IsOrMissesKey(schema, GroupRef(c), GroupRef(d))
    requires R.Entry(schema, d.table).Some? && d.column in R.Entry(schema, d.table).value.1
    ensures ComeToOne(schema, c, d)
  {
    R.PlainColumn(schema, d.table, d.column);
    R.BecomesIff(schema, GroupRef(c), GroupRef(d));
    R.MeetIff(schema, GroupRef(c), GroupRef(d));
  }

  /** A column and a near miss of it come to one. */
  lemma StaffColumnsMerge()
    ensures ComeToOne(STAFF_SCHEMA, GroupColumn("employees", "emp no", false),
                      GroupColumn("employees", "emp_no", false))
  {
    StaffMissed();
    StaffKeys();
    StaffEntry();
    assert STAFF[1] == "emp_no";
    MissMerges(STAFF_SCHEMA, GroupColumn("employees", "emp no", false), GroupColumn("employees", "emp_no", false));
  }
}
