/** The column repair over every place of a plan that a column can hide in. */
module PlanRepair {
  import opened Names
  import opened JoinPlan
  import opened ColumnRepair

  function RepairedItem(schema: Schema, item: Item): (r: Item)
    ensures r.Opaque? <==> item.Opaque?
    ensures item.Item? ==> r.table == item.table
  {
    match item
    case Opaque => Opaque
    case Item(t, c) => Item(t, RepairedOrKept(schema, Reference(t, c)).column)
  }

  function RepairedItems(schema: Schema, items: seq<Item>): (r: seq<Item>)
    ensures |r| == |items| && forall i :: 0 <= i < |items| ==> r[i] == RepairedItem(schema, items[i])
  {
    seq(|items|, i requires 0 <= i < |items| => RepairedItem(schema, items[i]))
  }

  function RepairedClause(schema: Schema, c: Clause): Clause {
    match c
    case Absent => Absent
    case One(item) => One(RepairedItem(schema, item))
    case Many(items) => Many(RepairedItems(schema, items))
  }

  function RepairedClauses(schema: Schema, cs: Clauses): Clauses {
    Clauses(RepairedClause(schema, cs.select), RepairedClause(schema, cs.columns), RepairedClause(schema, cs.where_),
            RepairedClause(schema, cs.groupBy), RepairedClause(schema, cs.orderBy), RepairedClause(schema, cs.having))
  }

  lemma RepairedKey(schema: Schema, cs: Clauses, key: ClauseKey)
    ensures RepairedClauses(schema, cs).Get(key) == RepairedClause(schema, cs.Get(key))
    ensures Items(RepairedClauses(schema, cs).Get(key)) == RepairedItems(schema, Items(cs.Get(key)))
  {
  }

  // --- What cannot be repaired ---

  function MissingIn(schema: Schema, items: seq<Item>): seq<Reference> {
    if items == [] then []
    else
      var init, last := MissingIn(schema, items[..|items| - 1]), items[|items| - 1];
      if last.Item? && Repaired(schema, Reference(last.table, last.column)).None?
      then init + [Meant(Reference(last.table, last.column))] else init
  }

  const REPAIR_ORDER: seq<ClauseKey> := [Select, Columns, GroupBy, Where, OrderBy, Having]

  function MissingUnder(schema: Schema, cs: Clauses, keys: seq<ClauseKey>): seq<Reference> {
    if keys == [] then []
    else MissingUnder(schema, cs, keys[..|keys| - 1]) + MissingIn(schema, Items(cs.Get(keys[|keys| - 1])))
  }

  /** The references a plan is refused for; `measure` is the column its aggregation nests. */
  function MissingFrom(schema: Schema, cs: Clauses, measure: Item): seq<Reference> {
    MissingUnder(schema, cs, REPAIR_ORDER) + MissingIn(schema, [measure])
  }

  lemma {:induction false} MissingItem(schema: Schema, items: seq<Item>, item: Item)
    requires item in items && item.Item? && Repaired(schema, Reference(item.table, item.column)).None?
    ensures MissingIn(schema, items) != []
  {
    var init, last := items[..|items| - 1], items[|items| - 1];
    assert items == init + [last];
    if item != last { MissingItem(schema, init, item); }
  }

  lemma EitherLost(a: seq<Reference>, b: seq<Reference>)
    requires a != [] || b != []
    ensures a + b != []
  {
    assert |a + b| == |a| + |b|;
  }

  lemma {:induction false} MissingKey(schema: Schema, cs: Clauses, keys: seq<ClauseKey>, key: ClauseKey)
    requires key in keys && MissingIn(schema, Items(cs.Get(key))) != []
    ensures MissingUnder(schema, cs, keys) != []
  {
    var init, last := keys[..|keys| - 1], keys[|keys| - 1];
    assert key != last ==> key in init;
    if key != last { MissingKey(schema, cs, init, key); }
    EitherLost(MissingUnder(schema, cs, init), MissingIn(schema, Items(cs.Get(last))));
  }

  predicate CanRepair(schema: Schema, item: Item) {
    item.Item? ==> Repaired(schema, Reference(item.table, item.column)).Some?
  }

  lemma {:induction false} NoneMissingIn(schema: Schema, items: seq<Item>)
    requires forall item :: item in items ==> CanRepair(schema, item)
    ensures MissingIn(schema, items) == []
  {
    if items != [] {
      assert items[|items| - 1] in items;
      NoneMissingIn(schema, items[..|items| - 1]);
    }
  }

  lemma {:induction false} NoneMissingUnder(schema: Schema, cs: Clauses, keys: seq<ClauseKey>)
    requires forall key, item :: key in keys && item in Items(cs.Get(key)) ==> CanRepair(schema, item)
    ensures MissingUnder(schema, cs, keys) == []
  {
    if keys != [] {
      var n := |keys| - 1;
      assert keys[n] in keys;
      NoneMissingIn(schema, Items(cs.Get(keys[n])));
      NoneMissingUnder(schema, cs, keys[..n]);
    }
  }

  lemma ItemNotMissed(schema: Schema, cs: Clauses, key: ClauseKey, item: Item)
    requires MissingUnder(schema, cs, REPAIR_ORDER) == [] && item in Items(cs.Get(key))
    ensures CanRepair(schema, item)
  {
    if !CanRepair(schema, item) {
      MissingItem(schema, Items(cs.Get(key)), item);
      assert key == REPAIR_ORDER[0] || key == REPAIR_ORDER[1] || key == REPAIR_ORDER[2] ||
             key == REPAIR_ORDER[3] || key == REPAIR_ORDER[4] || key == REPAIR_ORDER[5];
      MissingKey(schema, cs, REPAIR_ORDER, key);
    }
  }

  /** A plan is let through exactly when every reference of its clauses, and the measure that
      its aggregation nests, needs no repair or has one. */
  lemma NothingMissed(schema: Schema, cs: Clauses, measure: Item)
    ensures MissingFrom(schema, cs, measure) == [] <==>
            CanRepair(schema, measure) &&
            forall key: ClauseKey, item :: item in Items(cs.Get(key)) ==> CanRepair(schema, item)
  {
    MeasureMissed(schema, measure);
    if MissingFrom(schema, cs, measure) == [] {
      forall key: ClauseKey, item | item in Items(cs.Get(key))
        ensures CanRepair(schema, item)
      {
        ItemNotMissed(schema, cs, key, item);
      }
    }
    if forall key: ClauseKey, item :: item in Items(cs.Get(key)) ==> CanRepair(schema, item) {
      NoneMissingUnder(schema, cs, REPAIR_ORDER);
    }
  }

  lemma {:induction false} MissingInAre(schema: Schema, items: seq<Item>, r: Reference)
    ensures r in MissingIn(schema, items) <==>
            exists item: Item :: item in items && !CanRepair(schema, item) &&
                                 r == Meant(Reference(item.table, item.column))
  {
    if items != [] {
      var init, last := items[..|items| - 1], items[|items| - 1];
      assert items == init + [last];
      MissingInAre(schema, init, r);
      if !CanRepair(schema, last) && r == Meant(Reference(last.table, last.column)) { assert last in items; }
    }
  }

  lemma MeasureMissed(schema: Schema, measure: Item)
    ensures MissingIn(schema, [measure]) == [] <==> CanRepair(schema, measure)
  {
    assert [measure][..0] == [];
  }

  lemma ItemsWithoutSchema(items: seq<Item>)
    ensures RepairedItems([], items) == items
  {
    assert forall i :: 0 <= i < |items| ==> RepairedItem([], items[i]) == items[i];
  }

  lemma ClauseWithoutSchema(c: Clause)
    ensures RepairedClause([], c) == c
  {
    if c.Many? { ItemsWithoutSchema(c.items); }
  }

  /** Where no schema is known, repair refuses no plan and changes none. */
  lemma NoSchemaNoRepair(cs: Clauses, measure: Item)
    ensures MissingFrom([], cs, measure) == []
    ensures RepairedClauses([], cs) == cs && RepairedItem([], measure) == measure
  {
    NothingMissed([], cs, measure);
    ClauseWithoutSchema(cs.select);
    ClauseWithoutSchema(cs.columns);
    ClauseWithoutSchema(cs.where_);
    ClauseWithoutSchema(cs.groupBy);
    ClauseWithoutSchema(cs.orderBy);
    ClauseWithoutSchema(cs.having);
  }

  lemma MissingNext(schema: Schema, items: seq<Item>, n: nat)
    requires n < |items|
    ensures MissingIn(schema, items[..n + 1]) ==
            MissingIn(schema, items[..n]) + MissingIn(schema, [items[n]])
  {
    assert items[..n + 1][..n] == items[..n];
    assert [items[n]][..0] == [];
  }

  lemma RepairedNext(schema: Schema, items: seq<Item>, n: nat)
    requires n < |items|
    ensures RepairedItems(schema, items[..n + 1]) ==
            RepairedItems(schema, items[..n]) + [RepairedItem(schema, items[n])]
  {
  }

  method RepairOne(schema: Schema, item: Item) returns (repaired: Item, missing: seq<Reference>)
    ensures repaired == RepairedItem(schema, item) && missing == MissingIn(schema, [item])
  {
    assert [item][..0] == [];
    if item.Opaque? { return Opaque, []; }
    var r := Reference(item.table, item.column);
    match Repaired(schema, r)
    case None => return item, [Meant(r)];
    case Some(s) => return Item(s.table, s.column), [];
  }

  /** One clause, item by item. */
  method RepairItems(schema: Schema, items: seq<Item>) returns (repaired: seq<Item>, missing: seq<Reference>)
    ensures repaired == RepairedItems(schema, items) && missing == MissingIn(schema, items)
  {
    repaired, missing := [], [];
    for i := 0 to |items|
      invariant repaired == RepairedItems(schema, items[..i])
      invariant missing == MissingIn(schema, items[..i])
    {
      MissingNext(schema, items, i);
      RepairedNext(schema, items, i);
      var item, lost := RepairOne(schema, items[i]);
      repaired, missing := repaired + [item], missing + lost;
    }
    assert items[..|items|] == items;
  }

  // --- The tables a plan names survive repair ---

  lemma {:induction false} StripKeeps(s: string, c: char)
    requires c in s && !IsBlank(c)
    ensures c in Strip(s)
    decreases |s|
  {
    if IsBlank(s[0]) {
      assert s == [s[0]] + s[1..];
      StripKeeps(s[1..], c);
    } else if IsBlank(s[|s| - 1]) {
      assert s == s[..|s| - 1] + [s[|s| - 1]];
      StripKeeps(s[..|s| - 1], c);
    }
  }

  lemma StripWord(s: string)
    requires IsIdentifier(s)
    ensures Strip(s) == s
  {
    assert IsNameStart(s[0]);
    var last := s[|s| - 1];
    assert IsNameStart(last) || '0' <= last <= '9';
  }

  /** A parenthesis before the dot leaves no qualifier. */
  lemma ParenthesisFirst(pre: string, rest: string)
    requires '.' !in pre && rest != "" && rest[0] == '('
    ensures Qualifier(pre + rest) == ""
  {
    var s := pre + rest;
    var n := DotAt(s);
    if n < |s| {
      assert s[|pre|] == '(' && forall k :: 0 <= k < |pre| ==> s[k] == pre[k];
      assert s[..n][|pre|] == '(';
      StripKeeps(s[..n], '(');
    }
  }

  lemma NoDotIn(s: string, kind: Kind)
    requires kind != WordOrDot
    ensures '.' !in TakeWhile(s, kind)
  {
    TakeAndDrop(s, kind);
  }

  lemma CallOpens(column: string)
    requires ParseCall(column).Some?
    ensures var open := DropWhile(DropWhile(DropWhile(column, Blank), Word), Blank); open != "" && open[0] == '('
  {
  }

  lemma InThree(s: string, a: string, b: string, c: string, t1: string, t2: string, t3: string)
    requires s == a + t1 && t1 == b + t2 && t2 == c + t3
    ensures s == a + b + c + t3
  {
  }

  lemma CallHasNoQualifier(column: string)
    requires ParseCall(column).Some?
    ensures Qualifier(column) == ""
  {
    var head := DropWhile(column, Blank);
    var tail := DropWhile(head, Word);
    var open := DropWhile(tail, Blank);
    var a, b, c := TakeWhile(column, Blank), TakeWhile(head, Word), TakeWhile(tail, Blank);
    CallOpens(column);
    TakeAndDrop(column, Blank);
    TakeAndDrop(head, Word);
    TakeAndDrop(tail, Blank);
    NoDotIn(column, Blank);
    NoDotIn(head, Word);
    NoDotIn(tail, Blank);
    InThree(column, a, b, c, head, tail, open);
    ParenthesisFirst(a + b + c, open);
  }

  lemma WrittenCall(fn: string, table: string, c: string)
    requires AllAre(fn, Word)
    ensures Qualifier(fn + "(" + table + "." + c + ")") == ""
  {
    var rest := "(" + table + "." + c + ")";
    assert fn + "(" + table + "." + c + ")" == fn + rest;
    assert rest[0] == '(';
    ParenthesisFirst(fn, rest);
  }

  lemma CallKeepsQualifier(column: string, table: string, c: string)
    requires ParseCall(column).Some?
    ensures Qualifier(Rewritten(column, table, c)) == Qualifier(column) == ""
  {
    CallHasNoQualifier(column);
    CallFunctionIsWord(column);
    WrittenCall(ParseCall(column).value.fn, table, c);
  }

  lemma QualifierOfQualified(table: string, c: string)
    requires IsIdentifier(table) && '.' !in table
    ensures Qualifier(table + "." + c) == table
  {
    DotAfter(table, c);
    var s := table + "." + c;
    assert s[..|table|] == table;
    StripWord(table);
  }

  lemma QualifiedKeepsQualifier(column: string, table: string, c: string)
    requires ParseCall(column).None? && Qualified(column) && Lower(table) == Lower(column[..DotAt(column)])
    ensures Lower(Qualifier(Rewritten(column, table, c))) == Lower(Qualifier(column))
  {
    var prefix := column[..DotAt(column)];
    StripWord(prefix);
    SameButCase(prefix, table);
    QualifierOfQualified(table, c);
  }

  lemma {:induction false} SquashKeepsDots(s: string)
    ensures '.' in s <==> '.' in Squash(s)
  {
    if s != "" {
      assert s == [s[0]] + s[1..];
      SquashKeepsDots(s[1..]);
    }
  }

  lemma LowerKeepsDots(s: string)
    ensures '.' in s <==> '.' in Lower(s)
  {
    if '.' in s {
      var i :| 0 <= i < |s| && s[i] == '.';
      assert Lower(s)[i] == '.';
    }
    if '.' in Lower(s) {
      var i :| 0 <= i < |s| && Lower(s)[i] == '.';
      assert LowerChar(s[i]) == '.';
    }
  }

  lemma PartHasDots(target: string, lower: string)
    requires IsPart(target, lower) && '.' in target
    ensures '.' in lower
  {
    var i :| 0 <= i < |target| && target[i] == '.';
    if EndsWith(lower, "_" + target) {
      assert lower[|lower| - |"_" + target|..][i + 1] == '.';
    } else {
      assert lower[i] == (target + "_")[i];
    }
  }

  /** A name is near a column with no dot only if it has none itself. */
  lemma NearHasDots(name: string, c: string)
    requires Distance(name, c) < 3 && '.' in name
    ensures '.' in c
  {
    LowerKeepsDots(name);
    LowerKeepsDots(c);
    SquashKeepsDots(Lower(name));
    SquashKeepsDots(Lower(c));
    if Distance(name, c) == 2 { PartHasDots(Lower(name), Lower(c)); }
  }

  lemma NoDotNoQualifier(s: string)
    requires '.' !in s
    ensures Qualifier(s) == ""
  {
  }

  lemma BareKeepsQualifier(name: string, c: string)
    requires Distance(name, c) < 3 && '.' !in c
    ensures Qualifier(name) == Qualifier(c) == ""
  {
    if '.' in name { NearHasDots(name, c); }
    NoDotNoQualifier(name);
    NoDotNoQualifier(c);
  }

  /** The table an item names by a qualifier is the same one after repair, up to case; an item
      that names its table apart could only gain one from a column with a dot in its name. */
  lemma RepairKeepsTable(schema: Schema, r: Reference)
    requires r.table == "" || PlainColumns(schema)
    ensures Lower(Qualifier(RepairedOrKept(schema, r).column)) == Lower(Qualifier(r.column))
  {
    if Repaired(schema, r).Some? && !Settled(schema, r) {
      var (table, columns) := Entry(schema, Meant(r).table).value;
      var c := RepairColumn(Meant(r).column, columns).value;
      if ParseCall(r.column).Some? {
        CallKeepsQualifier(r.column, table, c);
      } else if Qualified(r.column) {
        QualifiedKeepsQualifier(r.column, table, c);
      } else {
        RepairIsNearest(r.column, columns);
        BareKeepsQualifier(r.column, c);
      }
    }
  }
}
