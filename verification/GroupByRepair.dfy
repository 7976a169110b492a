/** The keys a grouping adds so as not to be seen, and what the column repair makes of that. */
module GroupByRepair {
  import opened Names
  import opened GroupBy
  import JoinPlan
  import R = ColumnRepair

  /** The schema repair works on is the one the keys were taken from. */
  ghost predicate Agrees(cat: Catalog, schema: R.Schema) {
    forall t :: t in cat.columns ==> R.Entry(schema, t).Some? && R.Entry(schema, t).value.1 == cat.columns[t]
  }

  /** Of the repaired plan: the item, which is no aggregate, means the key's column. */
  predicate Shows(schema: R.Schema, item: SelectItem, key: GroupColumn) {
    && R.ParseCall(item.column).None?
    && R.SameColumn(R.RepairedOrKept(schema, SelectRef(item)), R.RepairedOrKept(schema, GroupRef(key)))
  }

  /** Of the repaired plan: a column of SELECT, other than the measure, is a hidden key's. */
  ghost predicate ShowsKey(schema: R.Schema, select: seq<SelectItem>, groupBy: seq<GroupColumn>) {
    exists i, k :: 0 <= i < |select| - 1 && k in groupBy && k.hidden && Shows(schema, select[i], k)
  }

  /** It names the key's column, or names none of that table and is mended to the key. */
  predicate IsOrMissesKey(schema: R.Schema, r: R.Reference, key: R.Reference) {
    || NamesKey(r, key)
    || (R.ParseCall(r.column).None? && Lower(R.Meant(r).table) == Lower(key.table) &&
        R.MendedTo(schema, r, key.column))
  }

  /** Of the question: a column it groups by is, or is mended to, the key added for `t`. */
  ghost predicate NearKey(schema: R.Schema, cat: Catalog, cols: seq<GroupColumn>, c: GroupColumn, t: string) {
    && c in cols && AddedKey(cat, cols, t).Some?
    && IsOrMissesKey(schema, GroupRef(c), R.Reference(t, AddedKey(cat, cols, t).value))
  }

  /** A column shows the key added for a table exactly when it names that key, in whatever case
      and qualified or not, or is no column of that table and the key is what it most likely
      means. */
  lemma NearKeyIff(schema: R.Schema, cat: Catalog, cols: seq<GroupColumn>, c: GroupColumn, t: string)
    requires Agrees(cat, schema) && R.PlainColumns(schema) && c in cols && AddedKey(cat, cols, t).Some?
    ensures Shows(schema, Projected(c), GroupColumn(t, AddedKey(cat, cols, t).value, true)) <==>
            NearKey(schema, cat, cols, c, t)
  {
    var key := AddedKey(cat, cols, t).value;
    assert key in ColumnsOf(cat, t);
    assert SelectRef(Projected(c)) == GroupRef(c);
    if R.ParseCall(c.column).None? { R.BecomesIff(schema, GroupRef(c), R.Reference(t, key)); }
  }

  lemma ShownIsNear(schema: R.Schema, cat: Catalog, cols: seq<GroupColumn>, m: Measure, select: seq<SelectItem>,
                    groupBy: seq<GroupColumn>)
    requires Agrees(cat, schema) && R.PlainColumns(schema)
    requires Built(cat, cols, m, select, groupBy) && ShowsKey(schema, select, groupBy)
    ensures exists c, t :: NearKey(schema, cat, cols, c, t)
  {
    var i, k :| 0 <= i < |select| - 1 && k in groupBy && k.hidden && Shows(schema, select[i], k);
    AddedKeyIsHidden(cat, cols, groupBy, k);
    assert select[i] == Projected(cols[i]);
    NearKeyIff(schema, cat, cols, cols[i], k.table);
  }

  lemma NearIsShown(schema: R.Schema, cat: Catalog, cols: seq<GroupColumn>, m: Measure, select: seq<SelectItem>,
                    groupBy: seq<GroupColumn>, c: GroupColumn, t: string)
    requires Agrees(cat, schema) && R.PlainColumns(schema)
    requires Built(cat, cols, m, select, groupBy) && NearKey(schema, cat, cols, c, t)
    ensures ShowsKey(schema, select, groupBy)
  {
    var i, k := WhereTheyAre(cat, cols, m, select, groupBy, c, t);
    NearKeyIff(schema, cat, cols, c, t);
    assert Shows(schema, select[i], k);
  }

  /** The repaired plan shows a hidden key exactly when a column the question groups by names
      the key that is added, or is no column of its table and is mended to that key. */
  lemma ShowsKeyIff(q: Question, cat: Catalog, schema: R.Schema, select: seq<SelectItem>, groupBy: seq<GroupColumn>)
    requires Decision(q, cat, select, groupBy) && Agrees(cat, schema) && R.PlainColumns(schema)
    ensures ShowsKey(schema, select, groupBy) <==>
            Grouped(q) && exists c, t :: NearKey(schema, cat, Cleaned(Chosen(q, cat)), c, t)
  {
    var cols := Cleaned(Chosen(q, cat));
    DecisionIsBuilt(q, cat, select, groupBy);
    if ShowsKey(schema, select, groupBy) { ShownIsNear(schema, cat, cols, q.measure, select, groupBy); }
    if Grouped(q) {
      if c, t :| NearKey(schema, cat, cols, c, t) {
        NearIsShown(schema, cat, cols, q.measure, select, groupBy, c, t);
      }
    }
  }

  // --- A key that is shown ---

  const STAFF := ["full_name", "emp_no"]
  const STAFF_CATALOG :=
    Catalog(map["employees" := STAFF], map["employees" := ["emp_no"]], {("employees", "full_name")})
  const STAFF_SCHEMA: R.Schema := [("employees", STAFF)]

  lemma StaffLower()
    ensures Lower("full_name") == "full_name" && Lower("emp_no") == "emp_no" && Lower("emp no") == "emp no"
    ensures Lower("employees") == "employees"
  {
  }

  lemma StaffSquash()
    ensures R.Squash("emp no") == R.Squash("emp_no")
  {
    R.SquashBetween("emp", ' ', "no");
    R.SquashBetween("emp", '_', "no");
    assert "emp" + [' '] + "no" == "emp no" && "emp" + ['_'] + "no" == "emp_no";
  }

  lemma StaffRepair()
    ensures R.RepairColumn("emp no", STAFF) == Some("emp_no")
  {
    StaffLower();
    StaffSquash();
    assert STAFF[..1] == ["full_name"];
    assert R.LastWith(STAFF, Lower, "emp no").None?;
    assert R.LastWith(STAFF, R.SquashLower, R.Squash("emp no")) == Some("emp_no");
  }

  lemma CleanedTwo(a: GroupColumn, b: GroupColumn)
    requires a.table == b.table != ""
    ensures Cleaned([a, b]) == [a, b]
  {
    assert [a, b][..1] == [a] && [a][..0] == [];
    assert OfTable([a], a.table) == [a];
  }

  lemma KeyAdded(cat: Catalog, a: GroupColumn, b: GroupColumn, key: string)
    requires (a.table, a.column) in cat.people && a.table == b.table && KeyColumn(cat, a.table) == Some(key)
    requires key != a.column && key != b.column
    ensures AddedKey(cat, [a, b], a.table) == Some(key)
  {
    assert a in [a, b];
    assert a.table in PeopleTables(cat, [a, b]);
    assert !Groups([a, b], a.table, key);
  }

  /** Two columns of one table, one of them a person's name, the other the table's key or a
      near miss of it: the key added so as not to be seen is seen. */
  lemma KeyShown(q: Question, cat: Catalog, schema: R.Schema, name: Column, near: Column, key: string,
                 select: seq<SelectItem>, groupBy: seq<GroupColumn>)
    requires Decision(q, cat, select, groupBy) && q.signal && q.dimensions == [name, near]
    requires Agrees(cat, schema) && R.PlainColumns(schema)
    requires IsDimension(name) && IsDimension(near) && name.table == near.table != ""
    requires (name.table, name.column) in cat.people && KeyColumn(cat, name.table) == Some(key)
    requires key != name.column && key != near.column
    requires IsOrMissesKey(schema, R.Reference(near.table, near.column), R.Reference(near.table, key))
    ensures ShowsKey(schema, select, groupBy) && GroupColumn(name.table, key, true) in groupBy
    ensures |select| == 3 && select[1] == Projected(GroupColumn(near.table, near.column, false))
    ensures NamesKey(R.Reference(near.table, near.column), R.Reference(near.table, key)) ==>
              ProjectsKey(select, groupBy)
  {
    var a, b := GroupColumn(name.table, name.column, false), GroupColumn(near.table, near.column, false);
    TwoChosen(q, cat, name, near);
    CleanedTwo(a, b);
    KeyAdded(cat, a, b, key);
    DecisionIsBuilt(q, cat, select, groupBy);
    KeyShownBy(schema, cat, a, b, key, q.measure, select, groupBy);
    assert SelectRef(select[1]) == R.Reference(near.table, near.column);
    assert GroupRef(GroupColumn(name.table, key, true)) == R.Reference(near.table, key);
  }

  lemma KeyShownBy(schema: R.Schema, cat: Catalog, a: GroupColumn, b: GroupColumn, key: string, m: Measure,
                   select: seq<SelectItem>, groupBy: seq<GroupColumn>)
    requires Agrees(cat, schema) && R.PlainColumns(schema)
    requires Built(cat, [a, b], m, select, groupBy) && a.table == b.table && AddedKey(cat, [a, b], a.table) == Some(key)
    requires IsOrMissesKey(schema, GroupRef(b), R.Reference(b.table, key))
    ensures ShowsKey(schema, select, groupBy) && GroupColumn(a.table, key, true) in groupBy
  {
    assert b in [a, b];
    NearIsShown(schema, cat, [a, b], m, select, groupBy, b, b.table);
    AddedKeyIsHidden(cat, [a, b], groupBy, GroupColumn(a.table, key, true));
  }

  lemma StaffKeys()
    ensures KeyColumn(STAFF_CATALOG, "employees") == Some("emp_no")
    ensures Agrees(STAFF_CATALOG, STAFF_SCHEMA) && R.PlainColumns(STAFF_SCHEMA)
  {
  }

  lemma MissesKey(schema: R.Schema, table: string, columns: seq<string>, name: string, key: string)
    requires table != "" && name != "" && name != "*" && '(' !in name && '.' !in name
    requires R.Entry(schema, table).Some? && R.Entry(schema, table).value.1 == columns && !R.HasColumn(columns, name)
    requires R.RepairColumn(name, columns) == Some(key)
    ensures IsOrMissesKey(schema, R.Reference(table, name), R.Reference(table, key))
  {
    R.PlainText(name);
  }

  lemma InAnotherCase(table: string, name: string, key: string)
    requires '(' !in name && '.' !in name && '(' !in key && '.' !in key && Lower(name) == Lower(key)
    ensures NamesKey(R.Reference(table, name), R.Reference(table, key))
  {
    R.PlainText(name);
    R.PlainText(key);
  }

  lemma ByQualifiedName(given: string, table: string, key: string)
    requires JoinPlan.IsIdentifier(table) && '.' !in table && '(' !in key && '.' !in key
    ensures NamesKey(R.Reference(given, table + "." + key), R.Reference(table, key))
  {
    R.QualifiedIsNoCall(table, key);
    R.UnqualifiedIs(given, table, key);
    R.PlainText(key);
  }

  function StaffRef(column: string): R.Reference {
    R.Reference("employees", column)
  }

  lemma StaffPlain()
    ensures '(' !in "emp no" && '.' !in "emp no" && !R.HasColumn(STAFF, "emp no")
  {
    StaffLower();
  }

  lemma StaffEntry()
    ensures R.Entry(STAFF_SCHEMA, "employees") == Some(("employees", STAFF))
  {
  }

  lemma StaffMissed()
    ensures IsOrMissesKey(STAFF_SCHEMA, StaffRef("emp no"), StaffRef("emp_no"))
  {
    StaffPlain();
    StaffEntry();
    StaffRepair();
    MissesKey(STAFF_SCHEMA, "employees", STAFF, "emp no", "emp_no");
  }

  lemma StaffInCapitals()
    ensures NamesKey(StaffRef("EMP_NO"), StaffRef("emp_no"))
  {
    StaffCapitals();
    InAnotherCase("employees", "EMP_NO", "emp_no");
  }

  lemma StaffCapitals()
    ensures Lower("EMP_NO") == Lower("emp_no")
  {
  }

  lemma StaffQualified()
    ensures NamesKey(StaffRef("employees.emp_no"), StaffRef("emp_no"))
  {
    assert "employees" + "." + "emp_no" == "employees.emp_no";
    ByQualifiedName("employees", "employees", "emp_no");
  }

  lemma StaffName()
    ensures IsDimension(Column("employees", "full_name", "")) && "emp_no" != "full_name"
    ensures ("employees", "full_name") in STAFF_CATALOG.people
  {
  }

  /** The question groups by `full_name` and another column of `employees`. */
  ghost predicate StaffBy(q: Question, column: string, select: seq<SelectItem>, groupBy: seq<GroupColumn>) {
    && q.signal && q.dimensions == [Column("employees", "full_name", ""), Column("employees", column, "")]
    && Decision(q, STAFF_CATALOG, select, groupBy)
  }

  ghost predicate StaffShown(column: string, select: seq<SelectItem>, groupBy: seq<GroupColumn>) {
    && ShowsKey(STAFF_SCHEMA, select, groupBy) && GroupColumn("employees", "emp_no", true) in groupBy
    && |select| == 3 && select[1].column == column
  }

  lemma StaffShows(q: Question, column: string, select: seq<SelectItem>, groupBy: seq<GroupColumn>)
    requires StaffBy(q, column, select, groupBy)
    requires IsDimension(Column("employees", column, "")) && "emp_no" != column
    requires IsOrMissesKey(STAFF_SCHEMA, StaffRef(column), StaffRef("emp_no"))
    ensures StaffShown(column, select, groupBy)
    ensures NamesKey(StaffRef(column), StaffRef("emp_no")) ==> ProjectsKey(select, groupBy)
  {
    StaffKeys();
    StaffName();
    KeyShown(q, STAFF_CATALOG, STAFF_SCHEMA, q.dimensions[0], q.dimensions[1], "emp_no", select, groupBy);
  }

  lemma StaffDimensions()
    ensures IsDimension(Column("employees", "emp no", "")) && IsDimension(Column("employees", "EMP_NO", ""))
    ensures IsDimension(Column("employees", "employees.emp_no", ""))
    ensures "emp_no" != "emp no" && "emp_no" != "EMP_NO" && "emp_no" != "employees.emp_no"
  {
  }

  /** Grouping such a table by `full_name` and a near miss of its key shows the key that is
      added so as not to be seen. */
  lemma StaffKeyIsShown(q: Question, select: seq<SelectItem>, groupBy: seq<GroupColumn>)
    requires StaffBy(q, "emp no", select, groupBy)
    ensures StaffShown("emp no", select, groupBy)
  {
    StaffMissed();
    StaffDimensions();
    StaffShows(q, "emp no", select, groupBy);
  }

  /** So does the key's own name in capitals, which needs no repair. */
  lemma StaffKeyInCapitals(q: Question, select: seq<SelectItem>, groupBy: seq<GroupColumn>)
    requires StaffBy(q, "EMP_NO", select, groupBy)
    ensures StaffShown("EMP_NO", select, groupBy) && ProjectsKey(select, groupBy)
  {
    StaffInCapitals();
    StaffDimensions();
    StaffShows(q, "EMP_NO", select, groupBy);
  }

  /** And its qualified name. */
  lemma StaffKeyQualified(q: Question, select: seq<SelectItem>, groupBy: seq<GroupColumn>)
    requires StaffBy(q, "employees.emp_no", select, groupBy)
    ensures StaffShown("employees.emp_no", select, groupBy) && ProjectsKey(select, groupBy)
  {
    StaffQualified();
    StaffDimensions();
    StaffShows(q, "employees.emp_no", select, groupBy);
  }
}
