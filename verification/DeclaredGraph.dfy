/** What the join graph holds, told by the catalog it was built from. */
module DeclaredGraph {
  import opened Graph
  import opened Names
  import opened RelationshipGraph

  // --- Declared keys ---

  /** The `i`-th table declares this key among its own. */
  ghost predicate DeclaredAt(fks: ForeignKeyMap, i: int, fk: ForeignKey) {
    0 <= i < |fks| && fk in fks[i].1
  }

  /** The key, declared by `t`, joins `a` to `b`; `p` are the columns as `a` and `b` see them. */
  predicate JoinsOn(t: Table, fk: ForeignKey, a: Table, b: Table, p: KeyPair) {
    || (t == a && fk.refTable == b && p == KeyPair(fk.column, fk.refColumn))
    || (t == b && fk.refTable == a && p == KeyPair(fk.refColumn, fk.column))
  }

  ghost predicate DeclaredPair(fks: ForeignKeyMap, a: Table, b: Table, p: KeyPair) {
    exists i, fk :: DeclaredAt(fks, i, fk) && JoinsOn(fks[i].0, fk, a, b, p)
  }

  lemma {:induction false} AllRefsAre(fks: ForeignKeyMap, ref: Ref)
    ensures ref in AllRefs(fks) <==> exists i :: DeclaredAt(fks, i, ref.fk) && fks[i].0 == ref.table
  {
    if fks != [] {
      var n := |fks| - 1;
      AllRefsAre(fks[..n], ref);
      RefsOfAre(fks[n].0, fks[n].1, ref);
      if i :| DeclaredAt(fks[..n], i, ref.fk) && fks[..n][i].0 == ref.table {
        assert DeclaredAt(fks, i, ref.fk) && fks[i].0 == ref.table;
      }
      if i :| DeclaredAt(fks, i, ref.fk) && fks[i].0 == ref.table {
        if i < n { assert DeclaredAt(fks[..n], i, ref.fk) && fks[..n][i].0 == ref.table; }
      }
      if ref.table == fks[n].0 && ref.fk in fks[n].1 { assert DeclaredAt(fks, n, ref.fk); }
    }
  }

  lemma RefsOfAre(table: Table, declared: seq<ForeignKey>, ref: Ref)
    ensures ref in RefsOf(table, declared) <==> ref.table == table && ref.fk in declared
  {
    if ref.table == table && ref.fk in declared {
      var i :| 0 <= i < |declared| && declared[i] == ref.fk;
      assert RefsOf(table, declared)[i] == ref;
    }
  }

  lemma {:induction false} PairsBetweenAre(refs: seq<Ref>, a: Table, b: Table, p: KeyPair)
    ensures p in PairsBetween(refs, a, b) <==> exists ref :: ref in refs && JoinsOn(ref.table, ref.fk, a, b, p)
  {
    if refs != [] {
      var init, last := refs[..|refs| - 1], refs[|refs| - 1];
      assert refs == init + [last];
      PairsBetweenAre(init, a, b, p);
      assert p in PairsOf(last, a, b) <==> JoinsOn(last.table, last.fk, a, b, p);
      if ref :| ref in refs && JoinsOn(ref.table, ref.fk, a, b, p) { assert ref in init || ref == last; }
      if ref :| ref in init && JoinsOn(ref.table, ref.fk, a, b, p) { assert ref in refs; }
    }
  }

  lemma PairsAreDeclared(fks: ForeignKeyMap, a: Table, b: Table, p: KeyPair)
    ensures p in PairsBetween(AllRefs(fks), a, b) <==> DeclaredPair(fks, a, b, p)
  {
    PairsBetweenAre(AllRefs(fks), a, b, p);
    if ref :| ref in AllRefs(fks) && JoinsOn(ref.table, ref.fk, a, b, p) { AllRefsAre(fks, ref); }
    if i, fk :| DeclaredAt(fks, i, fk) && JoinsOn(fks[i].0, fk, a, b, p) { AllRefsAre(fks, Ref(fks[i].0, fk)); }
  }

  /** Between two known tables that any declared key joins, the graph holds exactly the declared
      pairs, from whichever side each was declared. */
  lemma EdgeIsDeclared(schema: Catalog, fks: ForeignKeyMap, pks: Catalog, naming: Naming, a: Table, b: Table,
                       p: KeyPair)
    requires a in Tables(schema) && b in Tables(schema) && exists q :: DeclaredPair(fks, a, b, q)
    ensures a in Built(schema, fks, pks, naming)
    ensures p in AllPairs(Find(Built(schema, fks, pks, naming)[a], b)) <==> DeclaredPair(fks, a, b, p)
  {
    var q :| DeclaredPair(fks, a, b, q);
    PairsAreDeclared(fks, a, b, q);
    PairsAreDeclared(fks, a, b, p);
    BuiltKeepsDeclared(schema, fks, pks, naming, a, b);
    FirstOccurrencesAre(PairsBetween(AllRefs(fks), a, b));
  }

  /** No declared key between known tables is lost, and each can be followed both ways. */
  lemma DeclaredKeyIsLinked(schema: Catalog, fks: ForeignKeyMap, pks: Catalog, naming: Naming, i: nat, j: nat)
    requires i < |fks| && j < |fks[i].1|
    requires fks[i].0 in Tables(schema) && fks[i].1[j].refTable in Tables(schema)
    ensures var g, t, fk := Built(schema, fks, pks, naming), fks[i].0, fks[i].1[j];
            && t in g && KeyPair(fk.column, fk.refColumn) in AllPairs(Find(g[t], fk.refTable))
            && fk.refTable in g && KeyPair(fk.refColumn, fk.column) in AllPairs(Find(g[fk.refTable], t))
  {
    var t, fk := fks[i].0, fks[i].1[j];
    assert DeclaredAt(fks, i, fk);
    assert JoinsOn(fks[i].0, fk, t, fk.refTable, KeyPair(fk.column, fk.refColumn));
    assert JoinsOn(fks[i].0, fk, fk.refTable, t, KeyPair(fk.refColumn, fk.column));
    assert DeclaredPair(fks, t, fk.refTable, KeyPair(fk.column, fk.refColumn));
    assert DeclaredPair(fks, fk.refTable, t, KeyPair(fk.refColumn, fk.column));
    EdgeIsDeclared(schema, fks, pks, naming, t, fk.refTable, KeyPair(fk.column, fk.refColumn));
    EdgeIsDeclared(schema, fks, pks, naming, fk.refTable, t, KeyPair(fk.refColumn, fk.column));
  }

  // --- Which of them is the default ---

  lemma {:induction false} PairsBetweenConcat(x: seq<Ref>, y: seq<Ref>, a: Table, b: Table)
    ensures PairsBetween(x + y, a, b) == PairsBetween(x, a, b) + PairsBetween(y, a, b)
  {
    if y == [] {
      assert x + y == x;
    } else {
      assert (x + y)[..|x + y| - 1] == x + y[..|y| - 1];
      PairsBetweenConcat(x, y[..|y| - 1], a, b);
    }
  }

  lemma {:induction false} AllRefsConcat(x: ForeignKeyMap, y: ForeignKeyMap)
    ensures AllRefs(x + y) == AllRefs(x) + AllRefs(y)
  {
    if y == [] {
      assert x + y == x;
    } else {
      assert (x + y)[..|x + y| - 1] == x + y[..|y| - 1];
      AllRefsConcat(x, y[..|y| - 1]);
    }
  }

  lemma {:induction false} FirstOccurrencesStart(ps: seq<KeyPair>)
    requires ps != []
    ensures FirstOccurrences(ps) != [] && FirstOccurrences(ps)[0] == ps[0]
  {
    if |ps| > 1 { FirstOccurrencesStart(ps[..|ps| - 1]); }
  }

  predicate Between(ref: Ref, a: Table, b: Table) {
    (ref.table == a && ref.fk.refTable == b) || (ref.table == b && ref.fk.refTable == a)
  }

  /** No key before the `j`-th of the `i`-th table joins `a` and `b`. */
  ghost predicate NoneBefore(fks: ForeignKeyMap, i: nat, j: nat, a: Table, b: Table)
    requires i < |fks| && j < |fks[i].1|
  {
    && (forall n, fk :: n < i && DeclaredAt(fks, n, fk) ==> !Between(Ref(fks[n].0, fk), a, b))
    && (forall k :: 0 <= k < j ==> !Between(Ref(fks[i].0, fks[i].1[k]), a, b))
  }

  lemma {:induction false} NoPairs(refs: seq<Ref>, a: Table, b: Table)
    requires forall ref :: ref in refs ==> !Between(ref, a, b)
    ensures PairsBetween(refs, a, b) == []
  {
    if refs != [] {
      assert refs[|refs| - 1] in refs;
      NoPairs(refs[..|refs| - 1], a, b);
    }
  }

  lemma NoPairsBefore(fks: ForeignKeyMap, i: nat, j: nat, a: Table, b: Table)
    requires i < |fks| && j < |fks[i].1| && NoneBefore(fks, i, j, a, b)
    ensures PairsBetween(AllRefs(fks[..i]) + RefsOf(fks[i].0, fks[i].1[..j]), a, b) == []
  {
    var before, own := AllRefs(fks[..i]), RefsOf(fks[i].0, fks[i].1[..j]);
    forall ref | ref in before
      ensures !Between(ref, a, b)
    {
      AllRefsAre(fks[..i], ref);
      var n :| DeclaredAt(fks[..i], n, ref.fk) && fks[..i][n].0 == ref.table;
      assert DeclaredAt(fks, n, ref.fk) && fks[n].0 == ref.table;
    }
    NoPairs(before + own, a, b);
  }

  lemma SplitRefs(t: Table, ds: seq<ForeignKey>, j: nat)
    requires j < |ds|
    ensures RefsOf(t, ds) == RefsOf(t, ds[..j]) + [Ref(t, ds[j])] + RefsOf(t, ds[j + 1..])
  {
  }

  lemma SplitMap(fks: ForeignKeyMap, i: nat)
    requires i < |fks|
    ensures AllRefs(fks) == AllRefs(fks[..i]) + RefsOf(fks[i].0, fks[i].1) + AllRefs(fks[i + 1..])
  {
    assert fks == fks[..i + 1] + fks[i + 1..] && fks[..i + 1][..i] == fks[..i];
    AllRefsConcat(fks[..i + 1], fks[i + 1..]);
  }

  lemma Regroup<T>(a: seq<T>, b: seq<T>, c: seq<T>, d: seq<T>, e: seq<T>)
    ensures a + (b + c + d) + e == (a + b) + c + (d + e)
  {
  }

  lemma SplitAt(fks: ForeignKeyMap, i: nat, j: nat) returns (rest: seq<Ref>)
    requires i < |fks| && j < |fks[i].1|
    ensures AllRefs(fks) ==
            (AllRefs(fks[..i]) + RefsOf(fks[i].0, fks[i].1[..j])) + [Ref(fks[i].0, fks[i].1[j])] + rest
  {
    var (t, ds) := fks[i];
    SplitMap(fks, i);
    SplitRefs(t, ds, j);
    rest := RefsOf(t, ds[j + 1..]) + AllRefs(fks[i + 1..]);
    Regroup(AllRefs(fks[..i]), RefsOf(t, ds[..j]), [Ref(t, ds[j])], RefsOf(t, ds[j + 1..]), AllRefs(fks[i + 1..]));
  }

  /** The key's columns as `a` and `b` see them; of a table joined to itself, as declared. */
  function SeenFrom(t: Table, fk: ForeignKey, a: Table, b: Table): KeyPair {
    if t == a && fk.refTable == b then KeyPair(fk.column, fk.refColumn) else KeyPair(fk.refColumn, fk.column)
  }

  /** Of several keys between two tables the first that is declared is the one joined by
      default. */
  lemma FirstDeclaredIsDefault(schema: Catalog, fks: ForeignKeyMap, pks: Catalog, naming: Naming, i: nat, j: nat,
                               a: Table, b: Table)
    requires a in Tables(schema) && b in Tables(schema)
    requires i < |fks| && j < |fks[i].1| && NoneBefore(fks, i, j, a, b) && Between(Ref(fks[i].0, fks[i].1[j]), a, b)
    ensures a in Built(schema, fks, pks, naming)
    ensures var k := Find(Built(schema, fks, pks, naming)[a], b);
            k.Some? && k.value.pair == SeenFrom(fks[i].0, fks[i].1[j], a, b)
  {
    var before, ref := AllRefs(fks[..i]) + RefsOf(fks[i].0, fks[i].1[..j]), Ref(fks[i].0, fks[i].1[j]);
    var rest := SplitAt(fks, i, j);
    NoPairsBefore(fks, i, j, a, b);
    PairsStart(before, ref, rest, a, b);
    var ps := PairsBetween(AllRefs(fks), a, b);
    BuiltKeepsDeclared(schema, fks, pks, naming, a, b);
    FirstOccurrencesStart(ps);
  }

  lemma PairsStart(before: seq<Ref>, ref: Ref, rest: seq<Ref>, a: Table, b: Table)
    requires PairsBetween(before, a, b) == [] && Between(ref, a, b)
    ensures var ps := PairsBetween(before + [ref] + rest, a, b);
            ps != [] && ps[0] == SeenFrom(ref.table, ref.fk, a, b)
  {
    PairsBetweenConcat(before + [ref], rest, a, b);
    PairsBetweenConcat(before, [ref], a, b);
    assert [ref][..0] == [];
    assert PairsBetween([], a, b) == [];
  }
}
