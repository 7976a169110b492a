/** The GROUP BY decision of a plan that has an aggregation, for intents that name no group
    entity of their own. */
module GroupBy {
  import opened Names
  import R = ColumnRepair

  /** A selected column; `aggregation` is "" for none. */
  datatype Column = Column(table: string, column: string, aggregation: string)

  datatype Measure = Measure(fn: string, table: string, column: string)

  datatype GroupColumn = GroupColumn(table: string, column: string, hidden: bool)

  datatype SelectItem = SelectItem(table: string, column: string, alias: string, aggregation: string)

  /** What the decision depends on: the columns left once the measure is split out, the
      measure, the base table ("" for none), and what the question asks for. */
  datatype Question = Question(
    dimensions: seq<Column>, measure: Measure, base: string, signal: bool, having: bool, ranking: bool)

  /** `people` holds the columns whose role is a person's name. */
  datatype Catalog = Catalog(
    columns: map<string, seq<string>>, keys: map<string, seq<string>>, people: set<(string, string)>)

  const MEASURE_NAMES := ["amount", "price", "value", "total", "count", "sum", "avg"]
  const DISPLAY_NAMES := ["name", "title", "description"]

  predicate IsDimension(c: Column) {
    c.column !in MEASURE_NAMES && c.column != "id"
  }

  function ColumnsOf(cat: Catalog, table: string): seq<string> {
    if table in cat.columns then cat.columns[table] else []
  }

  /** The column that stands for a table's identity. */
  function KeyColumn(cat: Catalog, table: string): Option<string> {
    var cols := ColumnsOf(cat, table);
    if table in cat.keys && cat.keys[table] != [] && cat.keys[table][0] in cols then Some(cat.keys[table][0])
    else R.LastWith(cols, Lower, "id")
  }

  function FirstIn(names: seq<string>, cols: seq<string>): Option<string> {
    if names == [] then None else if names[0] in cols then Some(names[0]) else FirstIn(names[1..], cols)
  }

  /** The base table's own name-like column. */
  function DisplayColumn(q: Question, cat: Catalog): Option<string> {
    if q.base == "" then None else FirstIn(DISPLAY_NAMES, ColumnsOf(cat, q.base))
  }

  function Dimensions(cols: seq<Column>): (r: seq<Column>)
    ensures forall c :: c in r <==> c in cols && IsDimension(c)
  {
    if cols == [] then []
    else
      var init, c := Dimensions(cols[..|cols| - 1]), cols[|cols| - 1];
      if IsDimension(c) then init + [c] else init
  }

  function Plain(cols: seq<Column>): seq<Column> {
    if cols == [] then []
    else
      var init, c := Plain(cols[..|cols| - 1]), cols[|cols| - 1];
      if c.aggregation == "" then init + [c] else init
  }

  function Shown(cols: seq<Column>): (r: seq<GroupColumn>)
    ensures |r| == |cols|
    ensures forall i :: 0 <= i < |cols| ==> r[i] == GroupColumn(cols[i].table, cols[i].column, false)
  {
    seq(|cols|, i requires 0 <= i < |cols| => GroupColumn(cols[i].table, cols[i].column, false))
  }

  predicate NeedsGrouping(q: Question) {
    q.signal || q.having || q.ranking || Dimensions(q.dimensions) != []
  }

  /** A ranking with no dimension ranks the base table's display column. */
  function RankedDimensions(q: Question, cat: Catalog): seq<Column> {
    if q.ranking && Dimensions(q.dimensions) == [] && DisplayColumn(q, cat).Some?
    then [Column(q.base, DisplayColumn(q, cat).value, "")] else q.dimensions
  }

  /** The columns to group by, before keys are added and other tables left out. */
  function Chosen(q: Question, cat: Catalog): seq<GroupColumn> {
    var dims := RankedDimensions(q, cat);
    if !q.signal then Shown(Dimensions(Plain(dims)))
    else if Dimensions(dims) != [] then Shown(Dimensions(dims))
    else if DisplayColumn(q, cat).Some? then [GroupColumn(q.base, DisplayColumn(q, cat).value, false)]
    else []
  }

  predicate Groups(cols: seq<GroupColumn>, table: string, column: string) {
    exists c :: c in cols && c.table == table && c.column == column
  }

  /** Tables grouped by a person's name. */
  function PeopleTables(cat: Catalog, cols: seq<GroupColumn>): set<string> {
    set c | c in cols && (c.table, c.column) in cat.people :: c.table
  }

  function OfTable(cols: seq<GroupColumn>, table: string): (r: seq<GroupColumn>)
    ensures forall c :: c in r <==> c in cols && c.table == table
  {
    if cols == [] then []
    else
      var init, c := OfTable(cols[..|cols| - 1], table), cols[|cols| - 1];
      if c.table == table then init + [c] else init
  }

  /** Only the columns of the first one's table, when that has a name. */
  function Cleaned(cols: seq<GroupColumn>): seq<GroupColumn> {
    if cols == [] || cols[0].table == "" then cols else OfTable(cols, cols[0].table)
  }

  function Visible(cols: seq<GroupColumn>): (r: seq<GroupColumn>)
    ensures forall c :: c in r <==> c in cols && !c.hidden
  {
    if cols == [] then []
    else
      var init, c := Visible(cols[..|cols| - 1]), cols[|cols| - 1];
      if c.hidden then init else init + [c]
  }

  function Projected(c: GroupColumn): SelectItem {
    SelectItem(c.table, c.column, c.column, "")
  }

  function Projection(cols: seq<GroupColumn>): (r: seq<SelectItem>)
    ensures |r| == |cols| && forall i :: 0 <= i < |cols| ==> r[i] == Projected(cols[i])
  {
    seq(|cols|, i requires 0 <= i < |cols| => Projected(cols[i]))
  }

  function MeasureItem(m: Measure): SelectItem {
    SelectItem(m.table, m.column, Lower(m.fn) + "_" + m.column, m.fn)
  }

  // --- What is chosen ---

  lemma {:induction false} DimensionsConcat(a: seq<Column>, b: seq<Column>)
    ensures Dimensions(a + b) == Dimensions(a) + Dimensions(b)
  {
    if b == [] {
      assert a + b == a;
    } else {
      assert (a + b)[..|a + b| - 1] == a + b[..|b| - 1];
      DimensionsConcat(a, b[..|b| - 1]);
    }
  }

  lemma {:induction false} PlainConcat(a: seq<Column>, b: seq<Column>)
    ensures Plain(a + b) == Plain(a) + Plain(b)
  {
    if b == [] {
      assert a + b == a;
    } else {
      assert (a + b)[..|a + b| - 1] == a + b[..|b| - 1];
      PlainConcat(a, b[..|b| - 1]);
    }
  }

  /** A column the question names is grouped by: it is a dimension, and it is not aggregated
      unless the question has a grouping word. */
  predicate Asks(q: Question, d: Column) {
    IsDimension(d) && (q.signal || d.aggregation == "")
  }

  /** The columns of `cols` the question groups by, in its order. */
  function AskedOf(q: Question, cols: seq<Column>): seq<GroupColumn> {
    if cols == [] then []
    else (if Asks(q, cols[0]) then [GroupColumn(cols[0].table, cols[0].column, false)] else []) + AskedOf(q, cols[1..])
  }

  lemma DimensionIff(c: Column)
    ensures IsDimension(c) <==> c.column !in ["amount", "price", "value", "total", "count", "sum", "avg", "id"]
  {
  }

  function GroupedOnly(q: Question, cols: seq<Column>): seq<Column> {
    Dimensions(if q.signal then cols else Plain(cols))
  }

  lemma GroupedOnlyConcat(q: Question, a: seq<Column>, b: seq<Column>)
    ensures GroupedOnly(q, a + b) == GroupedOnly(q, a) + GroupedOnly(q, b)
  {
    PlainConcat(a, b);
    DimensionsConcat(a, b);
    DimensionsConcat(Plain(a), Plain(b));
  }

  lemma OneAsked(q: Question, d: Column)
    ensures GroupedOnly(q, [d]) == if Asks(q, d) then [d] else []
  {
    assert [d][..0] == [];
    assert Plain([]) == [] && Dimensions([]) == [];
  }

  lemma ShownConcat(a: seq<Column>, b: seq<Column>)
    ensures Shown(a + b) == Shown(a) + Shown(b)
  {
  }

  lemma AskedNext(q: Question, d: Column, rest: seq<Column>)
    ensures Shown(GroupedOnly(q, [d] + rest)) ==
            (if Asks(q, d) then [GroupColumn(d.table, d.column, false)] else []) + Shown(GroupedOnly(q, rest))
  {
    GroupedOnlyConcat(q, [d], rest);
    OneAsked(q, d);
    ShownConcat(GroupedOnly(q, [d]), GroupedOnly(q, rest));
    ShownOne(d);
    assert Shown([]) == [];
  }

  lemma {:induction false} AskedIs(q: Question, cols: seq<Column>)
    ensures AskedOf(q, cols) == Shown(GroupedOnly(q, cols))
  {
    if cols != [] {
      assert cols == [cols[0]] + cols[1..];
      AskedIs(q, cols[1..]);
      AskedNext(q, cols[0], cols[1..]);
    }
  }

  ghost predicate HasDimension(q: Question) {
    exists d :: d in q.dimensions && IsDimension(d)
  }

  lemma ChosenOfDimensions(q: Question, cat: Catalog)
    requires Dimensions(q.dimensions) != []
    ensures Chosen(q, cat) == Shown(GroupedOnly(q, q.dimensions))
  {
  }

  lemma ChosenWithout(q: Question, cat: Catalog)
    requires Dimensions(q.dimensions) == [] == Dimensions(Plain(q.dimensions)) && DisplayColumn(q, cat).None?
    ensures Chosen(q, cat) == []
  {
  }

  lemma ShownOne(d: Column)
    ensures Shown([d]) == [GroupColumn(d.table, d.column, false)]
  {
  }

  /** What is chosen of the dimensions a ranking leaves, and of the name-like column. */
  lemma ChosenBy(q: Question, cat: Catalog, dims: seq<Column>, display: Option<string>)
    requires dims == RankedDimensions(q, cat) && display == DisplayColumn(q, cat)
    ensures Dimensions(dims) != [] ==> Chosen(q, cat) == Shown(GroupedOnly(q, dims))
    ensures Dimensions(dims) == [] == Dimensions(Plain(dims)) ==>
              Chosen(q, cat) ==
              if q.signal && display.Some? then [GroupColumn(q.base, display.value, false)] else []
  {
  }

  lemma ChosenRanked(q: Question, cat: Catalog, d: Column)
    requires RankedDimensions(q, cat) == [d] && Dimensions([d]) == [d] == Plain([d])
    ensures Chosen(q, cat) == [GroupColumn(d.table, d.column, false)]
  {
    ChosenBy(q, cat, [d], DisplayColumn(q, cat));
    ShownOne(d);
  }

  lemma RankedIs(q: Question, cat: Catalog, display: Option<string>)
    requires display == DisplayColumn(q, cat) && display.Some? && Dimensions(q.dimensions) == []
    ensures RankedDimensions(q, cat) == if q.ranking then [Column(q.base, display.value, "")] else q.dimensions
  {
  }

  lemma ChosenDisplay(q: Question, cat: Catalog, display: Option<string>)
    requires Dimensions(q.dimensions) == [] == Dimensions(Plain(q.dimensions))
    requires display == DisplayColumn(q, cat) && display.Some?
    ensures Chosen(q, cat) == if q.signal || q.ranking then [GroupColumn(q.base, display.value, false)] else []
  {
    RankedIs(q, cat, display);
    if q.ranking {
      OneDisplay(q, cat);
      ChosenRanked(q, cat, Column(q.base, display.value, ""));
    } else {
      ChosenBy(q, cat, q.dimensions, display);
    }
  }

  /** A question with dimensions of its own is grouped by those of them it asks for; one without
      is grouped by the name-like column of its base table, when it has a grouping word or ranks. */
  lemma ChosenIs(q: Question, cat: Catalog)
    ensures HasDimension(q) ==> Chosen(q, cat) == AskedOf(q, q.dimensions)
    ensures !HasDimension(q) ==>
              Chosen(q, cat) == if (q.signal || q.ranking) && DisplayColumn(q, cat).Some?
                                then [GroupColumn(q.base, DisplayColumn(q, cat).value, false)] else []
  {
    AskedIs(q, q.dimensions);
    if HasDimension(q) {
      var d :| d in q.dimensions && IsDimension(d);
      assert d in Dimensions(q.dimensions);
      ChosenOfDimensions(q, cat);
    } else {
      NoDimensions(q.dimensions);
      if DisplayColumn(q, cat).Some? { ChosenDisplay(q, cat, DisplayColumn(q, cat)); } else { ChosenWithout(q, cat); }
    }
  }

  lemma {:induction false} NoDimensions(cols: seq<Column>)
    requires forall d :: d in cols ==> !IsDimension(d)
    ensures Dimensions(cols) == [] && Dimensions(Plain(cols)) == []
  {
    if cols != [] {
      var init, last := cols[..|cols| - 1], cols[|cols| - 1];
      assert last in cols;
      NoDimensions(init);
      assert (Plain(init) + [last])[..|Plain(init)|] == Plain(init);
    }
  }

  lemma OneDisplay(q: Question, cat: Catalog)
    requires DisplayColumn(q, cat).Some?
    ensures var d := Column(q.base, DisplayColumn(q, cat).value, "");
            Dimensions([d]) == [d] && Plain([d]) == [d]
  {
    DisplayColumnIs(q, cat);
    var d := Column(q.base, DisplayColumn(q, cat).value, "");
    assert [d][..0] == [];
    DisplaysAreDimensions(d);
  }

  lemma DisplaysAreDimensions(d: Column)
    requires d.column in ["name", "title", "description"]
    ensures IsDimension(d)
  {
  }

  lemma FirstOfThree(a: string, b: string, c: string, cols: seq<string>)
    ensures FirstIn([a, b, c], cols) ==
            if a in cols then Some(a) else if b in cols then Some(b) else if c in cols then Some(c) else None
  {
    assert [a, b, c][1..] == [b, c] && [b, c][1..] == [c] && [c][1..] == [];
    assert FirstIn([], cols) == None;
    assert FirstIn([c], cols) == if c in cols then Some(c) else None;
    assert FirstIn([b, c], cols) == if b in cols then Some(b) else FirstIn([c], cols);
  }

  /** The name-like column is the first of "name", "title" and "description" that the base table
      has. */
  lemma DisplayColumnIs(q: Question, cat: Catalog)
    ensures var cols := if q.base == "" then [] else ColumnsOf(cat, q.base);
            DisplayColumn(q, cat) ==
            if "name" in cols then Some("name") else if "title" in cols then Some("title")
            else if "description" in cols then Some("description") else None
  {
    FirstOfThree("name", "title", "description", ColumnsOf(cat, q.base));
  }

  /** The declared key's first column, when the table has that column. */
  function DeclaredKey(cat: Catalog, table: string): Option<string> {
    if table in cat.keys && cat.keys[table] != [] && cat.keys[table][0] in ColumnsOf(cat, table)
    then Some(cat.keys[table][0]) else None
  }

  ghost predicate LastId(cols: seq<string>, i: nat) {
    i < |cols| && Lower(cols[i]) == "id" && forall k :: i < k < |cols| ==> Lower(cols[k]) != "id"
  }

  /** A table's declared key stands for it; else its last column called "id", in whatever case;
      and there is none exactly when it has neither. */
  lemma KeyColumnIs(cat: Catalog, table: string, i: nat)
    ensures var cols := ColumnsOf(cat, table);
            && (DeclaredKey(cat, table).Some? ==> KeyColumn(cat, table) == DeclaredKey(cat, table))
            && (KeyColumn(cat, table).None? <==>
                DeclaredKey(cat, table).None? && forall c :: c in cols ==> Lower(c) != "id")
            && (DeclaredKey(cat, table).None? && LastId(cols, i) ==> KeyColumn(cat, table) == Some(cols[i]))
  {
    var cols := ColumnsOf(cat, table);
    if LastId(cols, i) {
      R.LastWithIs(cols, Lower, "id", i);
    }
  }

  // --- Building the two lists ---

  ghost predicate AddsKeys(cat: Catalog, cols: seq<GroupColumn>, tables: set<string>, keys: seq<GroupColumn>) {
    && (forall i, j :: 0 <= i < j < |keys| ==> keys[i].table != keys[j].table)
    && (forall k :: k in keys ==>
          k.hidden && k.table in tables && KeyColumn(cat, k.table) == Some(k.column) &&
          !Groups(cols, k.table, k.column))
    && (forall t :: t in tables && KeyColumn(cat, t).Some? && !Groups(cols, t, KeyColumn(cat, t).value) ==>
          GroupColumn(t, KeyColumn(cat, t).value, true) in keys)
  }

  /** The key of every table grouped by a person's name is added, hidden, unless it is grouped
      by already; the tables are taken in no particular order. */
  method AddHiddenKeys(cat: Catalog, cols: seq<GroupColumn>) returns (keys: seq<GroupColumn>)
    ensures AddsKeys(cat, cols, PeopleTables(cat, cols), keys)
  {
    keys := [];
    var todo := PeopleTables(cat, cols);
    while todo != {}
      invariant todo <= PeopleTables(cat, cols)
      invariant AddsKeys(cat, cols, PeopleTables(cat, cols) - todo, keys)
      decreases |todo|
    {
      var t :| t in todo;
      todo := todo - {t};
      var key := KeyColumn(cat, t);
      if key.Some? && !Groups(cols, t, key.value) {
        keys := keys + [GroupColumn(t, key.value, true)];
      }
    }
  }

  method BuildSelect(groupBy: seq<GroupColumn>, measure: Measure) returns (select: seq<SelectItem>)
    ensures select == Projection(Visible(groupBy)) + [MeasureItem(measure)]
  {
    select := [];
    var n := 0;
    while n < |groupBy|
      invariant 0 <= n <= |groupBy|
      invariant select == Projection(Visible(groupBy[..n]))
    {
      assert groupBy[..n + 1][..n] == groupBy[..n];
      if !groupBy[n].hidden { select := select + [Projected(groupBy[n])]; }
      n := n + 1;
    }
    assert groupBy[..n] == groupBy;
    select := select + [MeasureItem(measure)];
  }

  // --- The decision ---

  /** A question that only aggregates is answered by the one number. */
  predicate Grouped(q: Question) {
    q.signal || q.having || q.ranking
  }

  ghost predicate WithKeys(cat: Catalog, cols: seq<GroupColumn>, groupBy: seq<GroupColumn>) {
    exists keys :: groupBy == cols + keys && AddsKeys(cat, cols, PeopleTables(cat, cols), keys)
  }

  ghost predicate Decision(q: Question, cat: Catalog, select: seq<SelectItem>, groupBy: seq<GroupColumn>) {
    && select == Projection(Visible(groupBy)) + [MeasureItem(q.measure)]
    && if Grouped(q) then WithKeys(cat, Cleaned(Chosen(q, cat)), groupBy) else groupBy == []
  }

  method DecideGrouping(q: Question, cat: Catalog) returns (select: seq<SelectItem>, groupBy: seq<GroupColumn>)
    ensures Decision(q, cat, select, groupBy)
  {
    select, groupBy := [MeasureItem(q.measure)], [];
    if NeedsGrouping(q) {
      var chosen := Chosen(q, cat);
      if chosen == [] {
        assert AddsKeys(cat, chosen, PeopleTables(cat, chosen), []);
      } else {
        var keys := AddHiddenKeys(cat, chosen);
        groupBy := Cleaned(chosen + keys);
        CleanedKeys(cat, chosen, keys);
      }
      select := BuildSelect(groupBy, q.measure);
    }
    if !q.signal && !q.having && !q.ranking {
      groupBy := [];
      select := [MeasureItem(q.measure)];
    }
  }

  lemma {:induction false} OfTableConcat(a: seq<GroupColumn>, b: seq<GroupColumn>, table: string)
    ensures OfTable(a + b, table) == OfTable(a, table) + OfTable(b, table)
  {
    if b == [] {
      assert a + b == a;
    } else {
      var n := |b| - 1;
      assert (a + b)[..|a + b| - 1] == a + b[..n];
      OfTableConcat(a, b[..n], table);
    }
  }

  lemma {:induction false} NoneOfTable(keys: seq<GroupColumn>, table: string)
    requires forall i :: 0 <= i < |keys| ==> keys[i].table != table
    ensures OfTable(keys, table) == []
  {
    if keys != [] { NoneOfTable(keys[..|keys| - 1], table); }
  }

  lemma {:induction false} OneOfTable(keys: seq<GroupColumn>, table: string)
    requires forall i, j :: 0 <= i < j < |keys| ==> keys[i].table != keys[j].table
    ensures |OfTable(keys, table)| <= 1
  {
    if keys != [] {
      var n := |keys| - 1;
      if keys[n].table == table { NoneOfTable(keys[..n], table); } else { OneOfTable(keys[..n], table); }
    }
  }

  lemma PeopleOfTable(cat: Catalog, cols: seq<GroupColumn>, t: string, x: string)
    ensures x in PeopleTables(cat, OfTable(cols, t)) <==> x in PeopleTables(cat, cols) && x == t
  {
    if x in PeopleTables(cat, cols) && x == t {
      var c :| c in cols && (c.table, c.column) in cat.people && c.table == x;
      assert c in OfTable(cols, t);
    }
  }

  lemma OwnKeys(cat: Catalog, cols: seq<GroupColumn>, keys: seq<GroupColumn>, t: string)
    requires AddsKeys(cat, cols, PeopleTables(cat, cols), keys)
    ensures AddsKeys(cat, OfTable(cols, t), PeopleTables(cat, OfTable(cols, t)), OfTable(keys, t))
  {
    var own, mine := OfTable(cols, t), OfTable(keys, t);
    OneOfTable(keys, t);
    forall k | k in mine
      ensures k.hidden && k.table in PeopleTables(cat, own) && KeyColumn(cat, k.table) == Some(k.column) &&
              !Groups(own, k.table, k.column)
    {
      assert k in keys;
      PeopleOfTable(cat, cols, t, k.table);
    }
    forall x | x in PeopleTables(cat, own) && KeyColumn(cat, x).Some? && !Groups(own, x, KeyColumn(cat, x).value)
      ensures GroupColumn(x, KeyColumn(cat, x).value, true) in mine
    {
      PeopleOfTable(cat, cols, t, x);
      assert !Groups(cols, x, KeyColumn(cat, x).value) by { GroupsOfTable(cols, t, KeyColumn(cat, x).value); }
    }
  }

  lemma GroupsOfTable(cols: seq<GroupColumn>, t: string, column: string)
    ensures Groups(OfTable(cols, t), t, column) <==> Groups(cols, t, column)
  {
    if Groups(cols, t, column) {
      var c :| c in cols && c.table == t && c.column == column;
      assert c in OfTable(cols, t);
    }
  }

  /** Leaving out the other tables' columns leaves out their keys and no others. */
  lemma CleanedKeys(cat: Catalog, chosen: seq<GroupColumn>, keys: seq<GroupColumn>)
    requires chosen != [] && AddsKeys(cat, chosen, PeopleTables(cat, chosen), keys)
    ensures WithKeys(cat, Cleaned(chosen), Cleaned(chosen + keys))
  {
    if chosen[0].table != "" {
      OfTableConcat(chosen, keys, chosen[0].table);
      OwnKeys(cat, chosen, keys, chosen[0].table);
    }
  }

  // --- What follows from it ---

  lemma {:induction false} AllVisible(cols: seq<GroupColumn>)
    requires forall c :: c in cols ==> !c.hidden
    ensures Visible(cols) == cols
  {
    if cols != [] {
      var n := |cols| - 1;
      assert cols[n] in cols && cols == cols[..n] + [cols[n]];
      AllVisible(cols[..n]);
    }
  }

  lemma {:induction false} VisibleBeforeKeys(cols: seq<GroupColumn>, keys: seq<GroupColumn>)
    requires forall k :: k in keys ==> k.hidden
    ensures Visible(cols + keys) == Visible(cols)
  {
    if keys == [] {
      assert cols + keys == cols;
    } else {
      var n := |keys| - 1;
      assert keys[n] in keys;
      assert (cols + keys)[..|cols + keys| - 1] == cols + keys[..n];
      VisibleBeforeKeys(cols, keys[..n]);
    }
  }

  /** What a grouped decision gives. */
  ghost predicate Built(cat: Catalog, cols: seq<GroupColumn>, m: Measure, select: seq<SelectItem>,
                        groupBy: seq<GroupColumn>) {
    select == Projection(cols) + [MeasureItem(m)] && WithKeys(cat, cols, groupBy) && forall d :: d in cols ==> !d.hidden
  }

  lemma DecisionIsBuilt(q: Question, cat: Catalog, select: seq<SelectItem>, groupBy: seq<GroupColumn>)
    requires Decision(q, cat, select, groupBy)
    ensures if Grouped(q) then Built(cat, Cleaned(Chosen(q, cat)), q.measure, select, groupBy)
            else select == [MeasureItem(q.measure)] && groupBy == []
  {
    if Grouped(q) {
      var cols := Cleaned(Chosen(q, cat));
      var keys :| groupBy == cols + keys && AddsKeys(cat, cols, PeopleTables(cat, cols), keys);
      assert forall d :: d in cols ==> d in Chosen(q, cat);
      AllVisible(cols);
      VisibleBeforeKeys(cols, keys);
    }
  }

  /** The key that is added, hidden, for a table grouped by these columns. */
  function AddedKey(cat: Catalog, cols: seq<GroupColumn>, table: string): Option<string> {
    var key := KeyColumn(cat, table);
    if table in PeopleTables(cat, cols) && key.Some? && !Groups(cols, table, key.value) then key else None
  }

  lemma AddedKeyIsHidden(cat: Catalog, cols: seq<GroupColumn>, groupBy: seq<GroupColumn>, c: GroupColumn)
    requires WithKeys(cat, cols, groupBy) && forall d :: d in cols ==> !d.hidden
    ensures c.hidden && c in groupBy <==> c.hidden && AddedKey(cat, cols, c.table) == Some(c.column)
  {
    var keys :| groupBy == cols + keys && AddsKeys(cat, cols, PeopleTables(cat, cols), keys);
    if c.hidden && AddedKey(cat, cols, c.table) == Some(c.column) {
      assert c == GroupColumn(c.table, KeyColumn(cat, c.table).value, true);
    }
  }

  /** Some column grouped by is a person's name of the table. */
  ghost predicate GroupsPerson(cat: Catalog, cols: seq<GroupColumn>, t: string) {
    exists c :: c in cols && c.table == t && (c.table, c.column) in cat.people
  }

  /** What is hidden is exactly the key of every table that is grouped by a person's name and not
      by that key, and it comes after what is chosen. */
  lemma HiddenKeyIff(q: Question, cat: Catalog, select: seq<SelectItem>, groupBy: seq<GroupColumn>, k: GroupColumn)
    requires Decision(q, cat, select, groupBy) && k.hidden
    ensures k in groupBy <==>
            && Grouped(q) && GroupsPerson(cat, Cleaned(Chosen(q, cat)), k.table)
            && KeyColumn(cat, k.table) == Some(k.column)
            && forall c :: c in Cleaned(Chosen(q, cat)) ==> c.table != k.table || c.column != k.column
    ensures Grouped(q) ==> Cleaned(Chosen(q, cat)) <= groupBy
  {
    DecisionIsBuilt(q, cat, select, groupBy);
    if Grouped(q) { AddedKeyIsHidden(cat, Cleaned(Chosen(q, cat)), groupBy, k); }
  }

  /** A question with no grouping word, no HAVING and no ranking is answered by its measure alone. */
  lemma PureAggregation(q: Question, cat: Catalog, select: seq<SelectItem>, groupBy: seq<GroupColumn>)
    requires Decision(q, cat, select, groupBy)
    ensures !q.signal && !q.having && !q.ranking ==> groupBy == [] && |select| == 1
    ensures select != []
    ensures select[|select| - 1] ==
            SelectItem(q.measure.table, q.measure.column, Lower(q.measure.fn) + "_" + q.measure.column, q.measure.fn)
    ensures forall i :: 0 <= i < |select| - 1 ==> select[i].alias == select[i].column && select[i].aggregation == ""
  {
    DecisionIsBuilt(q, cat, select, groupBy);
  }

  function GroupRef(c: GroupColumn): R.Reference {
    R.Reference(c.table, c.column)
  }

  function SelectRef(s: SelectItem): R.Reference {
    R.Reference(s.table, s.column)
  }

  /** It names the key's column, however it is spelled or qualified, and no aggregate of it. */
  predicate NamesKey(r: R.Reference, key: R.Reference) {
    R.ParseCall(r.column).None? && R.SameColumn(r, key)
  }

  /** Of the plan: a column of SELECT, other than the measure, is a hidden key's. */
  ghost predicate ProjectsKey(select: seq<SelectItem>, groupBy: seq<GroupColumn>) {
    exists i, k :: 0 <= i < |select| - 1 && k in groupBy && k.hidden && NamesKey(SelectRef(select[i]), GroupRef(k))
  }

  /** Of the question: a column it groups by names the key added for `t`. */
  ghost predicate NamesAddedKey(cat: Catalog, cols: seq<GroupColumn>, c: GroupColumn, t: string) {
    && c in cols && AddedKey(cat, cols, t).Some?
    && NamesKey(GroupRef(c), R.Reference(t, AddedKey(cat, cols, t).value))
  }

  /** SELECT is the columns chosen to group by, in order, and then the measure; no column of it
      is written as a hidden key is. One is the key's all the same exactly when a chosen column
      names the key in another case or by a qualified name. */
  lemma HiddenKeysNotProjected(q: Question, cat: Catalog, select: seq<SelectItem>, groupBy: seq<GroupColumn>)
    requires Decision(q, cat, select, groupBy)
    ensures select == Projection(if Grouped(q) then Cleaned(Chosen(q, cat)) else []) + [MeasureItem(q.measure)]
    ensures forall k, i :: k in groupBy && k.hidden && 0 <= i < |select| - 1 ==>
              select[i].table != k.table || select[i].column != k.column
    ensures ProjectsKey(select, groupBy) <==>
            Grouped(q) && exists c, t :: NamesAddedKey(cat, Cleaned(Chosen(q, cat)), c, t)
  {
    DecisionIsBuilt(q, cat, select, groupBy);
    if Grouped(q) {
      var cols := Cleaned(Chosen(q, cat));
      KeysNotWritten(cat, cols, q.measure, select, groupBy);
      if ProjectsKey(select, groupBy) { ProjectedIsNamed(cat, cols, q.measure, select, groupBy); }
      if c, t :| NamesAddedKey(cat, cols, c, t) { NamedIsProjected(cat, cols, q.measure, select, groupBy, c, t); }
    }
  }

  lemma KeysNotWritten(cat: Catalog, cols: seq<GroupColumn>, m: Measure, select: seq<SelectItem>,
                       groupBy: seq<GroupColumn>)
    requires Built(cat, cols, m, select, groupBy)
    ensures forall k, i :: k in groupBy && k.hidden && 0 <= i < |select| - 1 ==>
              select[i].table != k.table || select[i].column != k.column
  {
    forall k, i | k in groupBy && k.hidden && 0 <= i < |select| - 1
      ensures select[i].table != k.table || select[i].column != k.column
    {
      AddedKeyIsHidden(cat, cols, groupBy, k);
      assert select[i] == Projected(cols[i]) && cols[i] in cols;
    }
  }

  lemma ProjectedIsNamed(cat: Catalog, cols: seq<GroupColumn>, m: Measure, select: seq<SelectItem>,
                         groupBy: seq<GroupColumn>)
    requires Built(cat, cols, m, select, groupBy) && ProjectsKey(select, groupBy)
    ensures exists c, t :: NamesAddedKey(cat, cols, c, t)
  {
    var i, k :| 0 <= i < |select| - 1 && k in groupBy && k.hidden && NamesKey(SelectRef(select[i]), GroupRef(k));
    AddedKeyIsHidden(cat, cols, groupBy, k);
    assert select[i] == Projected(cols[i]);
    assert NamesAddedKey(cat, cols, cols[i], k.table);
  }

  /** Where a chosen column stands in SELECT, and the added key in GROUP BY. */
  lemma WhereTheyAre(cat: Catalog, cols: seq<GroupColumn>, m: Measure, select: seq<SelectItem>,
                     groupBy: seq<GroupColumn>, c: GroupColumn, t: string) returns (i: nat, k: GroupColumn)
    requires Built(cat, cols, m, select, groupBy) && c in cols && AddedKey(cat, cols, t).Some?
    ensures i < |select| - 1 && select[i] == Projected(c)
    ensures k == GroupColumn(t, AddedKey(cat, cols, t).value, true) && k in groupBy
  {
    i :| 0 <= i < |cols| && cols[i] == c;
    k := GroupColumn(t, AddedKey(cat, cols, t).value, true);
    AddedKeyIsHidden(cat, cols, groupBy, k);
  }

  lemma NamedIsProjected(cat: Catalog, cols: seq<GroupColumn>, m: Measure, select: seq<SelectItem>,
                         groupBy: seq<GroupColumn>, c: GroupColumn, t: string)
    requires Built(cat, cols, m, select, groupBy) && NamesAddedKey(cat, cols, c, t)
    ensures ProjectsKey(select, groupBy)
  {
    var i, k := WhereTheyAre(cat, cols, m, select, groupBy, c, t);
    assert SelectRef(select[i]) == GroupRef(c) && GroupRef(k) == R.Reference(t, AddedKey(cat, cols, t).value);
  }

  ghost predicate OneTable(groupBy: seq<GroupColumn>) {
    forall c, d :: c in groupBy && d in groupBy ==> c.table == d.table
  }

  ghost predicate NoneNamed(cols: seq<GroupColumn>) {
    forall c :: c in cols ==> c.table == ""
  }

  /** The grouping columns are all of one table exactly when the question does not group, or
      the first column it chooses is of a named table, or none is. */
  lemma OneTableIff(q: Question, cat: Catalog, select: seq<SelectItem>, groupBy: seq<GroupColumn>)
    requires Decision(q, cat, select, groupBy)
    ensures OneTable(groupBy) <==> !Grouped(q) || NoneNamed(Chosen(q, cat)) || Chosen(q, cat)[0].table != ""
  {
    var chosen := Chosen(q, cat);
    if Grouped(q) && chosen == [] {
      var keys :| groupBy == [] + keys && AddsKeys(cat, [], PeopleTables(cat, []), keys);
      assert PeopleTables(cat, []) == {};
    } else if Grouped(q) {
      var cols := Cleaned(chosen);
      var keys :| groupBy == cols + keys && AddsKeys(cat, cols, PeopleTables(cat, cols), keys);
      assert chosen[0] in chosen;
      if chosen[0].table == "" { Uncleaned(cat, chosen, keys, groupBy); }
    }
  }

  lemma Uncleaned(cat: Catalog, chosen: seq<GroupColumn>, keys: seq<GroupColumn>, groupBy: seq<GroupColumn>)
    requires chosen != [] && chosen[0].table == "" && groupBy == chosen + keys
    requires AddsKeys(cat, chosen, PeopleTables(cat, chosen), keys)
    ensures OneTable(groupBy) <==> NoneNamed(chosen)
  {
    assert groupBy[0] == chosen[0] && groupBy[0] in groupBy;
    if OneTable(groupBy) {
      forall c | c in chosen
        ensures c.table == ""
      {
        assert c in groupBy;
      }
    }
  }

  lemma TwoChosen(q: Question, cat: Catalog, a: Column, b: Column)
    requires q.dimensions == [a, b] && q.signal && IsDimension(a) && IsDimension(b)
    ensures Chosen(q, cat) == [GroupColumn(a.table, a.column, false), GroupColumn(b.table, b.column, false)]
  {
    assert [a, b][..1] == [a] && [a][..0] == [];
    assert Dimensions([a]) == [a];
    assert Dimensions([a, b]) == [a, b];
  }

  lemma Distinguish()
    ensures IsDimension(Column("", "city", "")) && IsDimension(Column("orders", "status", ""))
  {
  }

  /** A first column of no named table: the columns of two tables stay. */
  lemma UnnamedTableMixes(q: Question, cat: Catalog, select: seq<SelectItem>, groupBy: seq<GroupColumn>)
    requires q.dimensions == [Column("", "city", ""), Column("orders", "status", "")] && q.signal
    requires Decision(q, cat, select, groupBy)
    ensures !OneTable(groupBy)
  {
    Distinguish();
    TwoChosen(q, cat, Column("", "city", ""), Column("orders", "status", ""));
    assert Chosen(q, cat)[1] in Chosen(q, cat);
    OneTableIff(q, cat, select, groupBy);
  }

  lemma {:induction false} PlainAre(cols: seq<Column>)
    ensures forall c :: c in Plain(cols) <==> c in cols && c.aggregation == ""
  {
    if cols != [] {
      var n := |cols| - 1;
      assert cols == cols[..n] + [cols[n]];
      PlainAre(cols[..n]);
    }
  }

  lemma FirstInIs(names: seq<string>, cols: seq<string>)
    ensures FirstIn(names, cols).Some? ==> FirstIn(names, cols).value in names && FirstIn(names, cols).value in cols
  {
  }

  /** The base table's display column, when it has one. */
  predicate IsDisplay(q: Question, cat: Catalog, c: GroupColumn) {
    c.table == q.base && c.column in DISPLAY_NAMES && c.column in ColumnsOf(cat, q.base)
  }

  ghost predicate IsChosen(q: Question, cat: Catalog, c: GroupColumn) {
    && !c.hidden && c.column !in MEASURE_NAMES && c.column != "id"
    && ((exists d :: d in q.dimensions && d.table == c.table && d.column == c.column) || IsDisplay(q, cat, c))
  }

  lemma DisplayIs(q: Question, cat: Catalog)
    requires DisplayColumn(q, cat).Some?
    ensures IsChosen(q, cat, GroupColumn(q.base, DisplayColumn(q, cat).value, false))
  {
    FirstInIs(DISPLAY_NAMES, ColumnsOf(cat, q.base));
  }

  lemma ShownAre(q: Question, cat: Catalog, dims: seq<Column>, c: GroupColumn)
    requires c in Shown(dims)
    requires forall d :: d in dims ==>
               IsDimension(d) && (d in q.dimensions || IsDisplay(q, cat, GroupColumn(d.table, d.column, false)))
    ensures IsChosen(q, cat, c)
  {
    var i :| 0 <= i < |dims| && Shown(dims)[i] == c;
    assert dims[i] in dims;
  }

  lemma ChosenAre(q: Question, cat: Catalog, c: GroupColumn)
    requires c in Chosen(q, cat)
    ensures IsChosen(q, cat, c)
  {
    var dims := RankedDimensions(q, cat);
    if DisplayColumn(q, cat).Some? { DisplayIs(q, cat); }
    PlainAre(dims);
    if !q.signal {
      ShownAre(q, cat, Dimensions(Plain(dims)), c);
    } else if Dimensions(dims) != [] {
      ShownAre(q, cat, Dimensions(dims), c);
    }
  }

  /** A plan never groups by a measure or, in the open, by a raw id: its visible columns are
      dimensions the question names or the base table's display column. */
  lemma GroupsDimensionsOnly(q: Question, cat: Catalog, select: seq<SelectItem>, groupBy: seq<GroupColumn>,
                             c: GroupColumn)
    requires Decision(q, cat, select, groupBy) && c in groupBy && !c.hidden
    ensures IsChosen(q, cat, c)
  {
    assert c in Cleaned(Chosen(q, cat));
    assert c in Chosen(q, cat);
    ChosenAre(q, cat, c);
  }

  /** And it leaves out no dimension of the table it groups. */
  lemma GroupsEveryDimension(q: Question, cat: Catalog, select: seq<SelectItem>, groupBy: seq<GroupColumn>, d: Column)
    requires Decision(q, cat, select, groupBy) && (q.signal || q.having || q.ranking)
    requires d in q.dimensions && IsDimension(d) && (q.signal || d.aggregation == "")
    ensures groupBy != [] && (groupBy[0].table == d.table ==> GroupColumn(d.table, d.column, false) in groupBy)
  {
    var chosen := Chosen(q, cat);
    assert d in Dimensions(q.dimensions) && RankedDimensions(q, cat) == q.dimensions;
    PlainAre(q.dimensions);
    var dims := if q.signal then Dimensions(q.dimensions) else Dimensions(Plain(q.dimensions));
    assert chosen == Shown(dims) && d in dims;
    var i :| 0 <= i < |dims| && dims[i] == d;
    assert chosen[i] == GroupColumn(d.table, d.column, false) && chosen[i] in chosen;
    assert chosen[0] in Cleaned(chosen);
    FirstStays(chosen);
  }

  lemma {:induction false} FirstOfTable(cols: seq<GroupColumn>)
    requires cols != []
    ensures OfTable(cols, cols[0].table) != [] && OfTable(cols, cols[0].table)[0] == cols[0]
  {
    var n := |cols| - 1;
    if n > 0 { FirstOfTable(cols[..n]); }
  }

  lemma FirstStays(cols: seq<GroupColumn>)
    requires cols != []
    ensures Cleaned(cols) != [] && Cleaned(cols)[0] == cols[0]
  {
    FirstOfTable(cols);
  }
}
