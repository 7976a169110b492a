/** Building the join graph from a catalog: declared foreign keys first, then columns that
    repeat another table's only key. */
module RelationshipGraph {
  import opened Graph
  import opened JoinSearch
  import opened Names

  datatype ForeignKey = ForeignKey(column: Column, refTable: Table, refColumn: Column)

  /** Dictionaries in insertion order. */
  type Catalog = seq<(Table, seq<Column>)>
  type ForeignKeyMap = seq<(Table, seq<ForeignKey>)>

  // --- Rows as dictionaries ---

  function Find(row: Row, t: Table): Option<JoinKeys> {
    if row == [] then None
    else if row[0].neighbor == t then Some(row[0].keys)
    else Find(row[1..], t)
  }

  /** `row[t] = keys`: an existing item keeps its place. */
  function Put(row: Row, t: Table, keys: JoinKeys): Row {
    if row == [] then [Edge(t, keys)]
    else if row[0].neighbor == t then [Edge(t, keys)] + row[1..]
    else [row[0]] + Put(row[1..], t, keys)
  }

  lemma {:induction false} FindPut(row: Row, t: Table, keys: JoinKeys, u: Table)
    ensures Find(Put(row, t, keys), u) == if u == t then Some(keys) else Find(row, u)
  {
    if row != [] && row[0].neighbor != t { FindPut(row[1..], t, keys, u); }
  }

  ghost predicate Distinct(row: Row) {
    forall i, j :: 0 <= i < j < |row| ==> row[i].neighbor != row[j].neighbor
  }

  lemma {:induction false} PutDistinct(row: Row, t: Table, keys: JoinKeys)
    requires Distinct(row)
    ensures Distinct(Put(row, t, keys))
    ensures forall e :: e in Put(row, t, keys) ==> e == Edge(t, keys) || e in row
  {
    if row != [] && row[0].neighbor != t {
      var rest := Put(row[1..], t, keys);
      PutDistinct(row[1..], t, keys);
      forall j | 0 <= j < |rest|
        ensures rest[j].neighbor != row[0].neighbor
      {
        assert rest[j] in rest;
      }
    }
  }

  lemma {:induction false} FindIsEdge(row: Row, t: Table, keys: JoinKeys)
    ensures Find(row, t) == Some(keys) ==> Edge(t, keys) in row
    ensures Distinct(row) && Edge(t, keys) in row ==> Find(row, t) == Some(keys)
  {
    if row != [] {
      FindIsEdge(row[1..], t, keys);
      if Edge(t, keys) in row { assert row == [row[0]] + row[1..]; }
    }
  }

  function NeighborsOf(row: Row): seq<Table> {
    seq(|row|, i requires 0 <= i < |row| => row[i].neighbor)
  }

  /** A neighbour that is there keeps its place; a new one comes last. */
  lemma {:induction false} PutKeepsOrder(row: Row, t: Table, keys: JoinKeys)
    ensures NeighborsOf(Put(row, t, keys)) == NeighborsOf(row) + if Find(row, t).None? then [t] else []
  {
    if row != [] && row[0].neighbor != t {
      PutKeepsOrder(row[1..], t, keys);
      assert NeighborsOf(row) == [row[0].neighbor] + NeighborsOf(row[1..]);
      assert NeighborsOf(Put(row, t, keys)) == [row[0].neighbor] + NeighborsOf(Put(row[1..], t, keys));
    } else if row != [] {
      assert NeighborsOf(Put(row, t, keys)) == NeighborsOf(row);
    }
  }

  function Swap(p: KeyPair): KeyPair {
    KeyPair(p.to, p.from)
  }

  function SwapAll(ps: seq<KeyPair>): (r: seq<KeyPair>)
    ensures |r| == |ps| && forall i :: 0 <= i < |ps| ==> r[i] == Swap(ps[i])
  {
    seq(|ps|, i requires 0 <= i < |ps| => Swap(ps[i]))
  }

  function SwapKeys(k: JoinKeys): JoinKeys {
    match k
    case Plain(p) => Plain(Swap(p))
    case Keys(p, others) => Keys(Swap(p), SwapAll(others))
  }

  // --- One edge ---

  /** What `_add_edge` leaves under a neighbour that had `existing`. */
  function Joined(existing: Option<JoinKeys>, pair: KeyPair): JoinKeys {
    match existing
    case None => Keys(pair, [])
    case Some(k) =>
      if k.pair == pair || pair in k.Alternates() then k
      else Keys(k.pair, k.Alternates() + [pair])
  }

  function Added(g: JoinGraph, t: Table, r: Table, pair: KeyPair): JoinGraph
    requires t in g
  {
    g[t := Put(g[t], r, Joined(Find(g[t], r), pair))]
  }

  /** `graph[t].setdefault(r, keys)`. */
  function Defaulted(g: JoinGraph, t: Table, r: Table, keys: JoinKeys): JoinGraph
    requires t in g
  {
    if Find(g[t], r).Some? then g else g[t := Put(g[t], r, keys)]
  }

  lemma FindAdded(g: JoinGraph, t: Table, r: Table, pair: KeyPair, a: Table, b: Table)
    requires t in g && a in g
    ensures Find(Added(g, t, r, pair)[a], b) ==
            if (a, b) == (t, r) then Some(Joined(Find(g[t], r), pair)) else Find(g[a], b)
  {
    FindPut(g[t], r, Joined(Find(g[t], r), pair), b);
  }

  lemma FindDefaulted(g: JoinGraph, t: Table, r: Table, keys: JoinKeys, a: Table, b: Table)
    requires t in g && a in g
    ensures Find(Defaulted(g, t, r, keys)[a], b) ==
            if (a, b) == (t, r) && Find(g[t], r).None? then Some(keys) else Find(g[a], b)
  {
    FindPut(g[t], r, keys, b);
  }

  // --- Well-formed and mirrored graphs ---

  /** Rows are dictionaries and only name known tables. */
  ghost predicate WellFormed(g: JoinGraph) {
    forall a :: a in g ==> Distinct(g[a]) && forall e :: e in g[a] ==> e.neighbor in g
  }

  /** Between distinct tables, what is written at a for b is what is written at b for a,
      with the columns of every pair swapped and in the same order. */
  ghost predicate Mirrored(g: JoinGraph) {
    forall a, b :: a in g && b in g && a != b ==> MirroredAt(g, a, b)
  }

  ghost predicate MirroredAt(g: JoinGraph, a: Table, b: Table)
    requires a in g && b in g
  {
    match Find(g[a], b)
    case None => Find(g[b], a) == None
    case Some(k) => Find(g[b], a) == Some(SwapKeys(k))
  }

  function Link(g: JoinGraph, t: Table, r: Table, pair: KeyPair): JoinGraph
    requires t in g && r in g
  {
    Added(Added(g, t, r, pair), r, t, Swap(pair))
  }

  function LinkDefault(g: JoinGraph, t: Table, r: Table, pair: KeyPair): JoinGraph
    requires t in g && r in g
  {
    Defaulted(Defaulted(g, t, r, Plain(pair)), r, t, Plain(Swap(pair)))
  }

  lemma SwapJoined(existing: Option<JoinKeys>, pair: KeyPair)
    ensures match existing
            case None => Joined(None, Swap(pair)) == SwapKeys(Joined(None, pair))
            case Some(k) => Joined(Some(SwapKeys(k)), Swap(pair)) == SwapKeys(Joined(existing, pair))
  {
    if existing.Some? {
      var k := existing.value;
      assert SwapKeys(k).Alternates() == SwapAll(k.Alternates());
      assert Swap(pair) in SwapAll(k.Alternates()) <==> pair in k.Alternates() by {
        if i :| 0 <= i < |k.Alternates()| && k.Alternates()[i] == pair {
          assert SwapAll(k.Alternates())[i] == Swap(pair);
        }
        if i :| 0 <= i < |k.Alternates()| && SwapAll(k.Alternates())[i] == Swap(pair) {
          assert Swap(SwapAll(k.Alternates())[i]) == k.Alternates()[i];
        }
      }
      assert SwapAll(k.Alternates() + [pair]) == SwapAll(k.Alternates()) + [Swap(pair)];
    } else {
      assert SwapAll([]) == [];
    }
  }

  lemma LinkMirrors(g: JoinGraph, t: Table, r: Table, pair: KeyPair)
    requires t in g && r in g && Mirrored(g)
    ensures Mirrored(Link(g, t, r, pair))
  {
    var g1, g2 := Added(g, t, r, pair), Link(g, t, r, pair);
    forall a, b | a in g2 && b in g2 && a != b
      ensures MirroredAt(g2, a, b)
    {
      assert MirroredAt(g, a, b);
      FindAdded(g, t, r, pair, a, b);
      FindAdded(g, t, r, pair, b, a);
      FindAdded(g, t, r, pair, r, t);
      FindAdded(g1, r, t, Swap(pair), a, b);
      FindAdded(g1, r, t, Swap(pair), b, a);
      SwapJoined(Find(g[a], b), pair);
      SwapJoined(Find(g[a], b), Swap(pair));
    }
  }

  lemma LinkDefaultMirrors(g: JoinGraph, t: Table, r: Table, pair: KeyPair)
    requires t in g && r in g && Mirrored(g)
    ensures Mirrored(LinkDefault(g, t, r, pair))
  {
    var g1, g2 := Defaulted(g, t, r, Plain(pair)), LinkDefault(g, t, r, pair);
    forall a, b | a in g2 && b in g2 && a != b
      ensures MirroredAt(g2, a, b)
    {
      assert MirroredAt(g, a, b);
      FindDefaulted(g, t, r, Plain(pair), a, b);
      FindDefaulted(g, t, r, Plain(pair), b, a);
      FindDefaulted(g, t, r, Plain(pair), r, t);
      FindDefaulted(g1, r, t, Plain(Swap(pair)), a, b);
      FindDefaulted(g1, r, t, Plain(Swap(pair)), b, a);
    }
  }

  lemma PutWellFormed(g: JoinGraph, t: Table, r: Table, keys: JoinKeys)
    requires WellFormed(g) && t in g && r in g
    ensures WellFormed(g[t := Put(g[t], r, keys)])
  {
    PutDistinct(g[t], r, keys);
  }

  lemma LinkWellFormed(g: JoinGraph, t: Table, r: Table, pair: KeyPair)
    requires WellFormed(g) && t in g && r in g
    ensures WellFormed(Link(g, t, r, pair)) && Link(g, t, r, pair).Keys == g.Keys
    ensures WellFormed(LinkDefault(g, t, r, pair)) && LinkDefault(g, t, r, pair).Keys == g.Keys
  {
    PutWellFormed(g, t, r, Joined(Find(g[t], r), pair));
    var g1 := Added(g, t, r, pair);
    PutWellFormed(g1, r, t, Joined(Find(g1[r], t), Swap(pair)));
    PutWellFormed(g, t, r, Plain(pair));
    var g2 := Defaulted(g, t, r, Plain(pair));
    PutWellFormed(g2, r, t, Plain(Swap(pair)));
  }

  // --- Declared foreign keys ---

  datatype Ref = Ref(table: Table, fk: ForeignKey)

  function RefsOf(table: Table, fks: seq<ForeignKey>): seq<Ref> {
    seq(|fks|, i requires 0 <= i < |fks| => Ref(table, fks[i]))
  }

  function AllRefs(fks: ForeignKeyMap): seq<Ref> {
    if fks == [] then []
    else AllRefs(fks[..|fks| - 1]) + RefsOf(fks[|fks| - 1].0, fks[|fks| - 1].1)
  }

  function LinkRef(g: JoinGraph, ref: Ref): JoinGraph {
    if ref.table in g && ref.fk.refTable in g
    then Link(g, ref.table, ref.fk.refTable, KeyPair(ref.fk.column, ref.fk.refColumn))
    else g
  }

  function LinkRefs(g: JoinGraph, refs: seq<Ref>): JoinGraph {
    if refs == [] then g else LinkRef(LinkRefs(g, refs[..|refs| - 1]), refs[|refs| - 1])
  }

  /** The reference reading of the catalog: every way it declares to join `a` to `b`, in
      declaration order, written from `a`'s side. */
  function PairsOf(ref: Ref, a: Table, b: Table): seq<KeyPair> {
    var pair := KeyPair(ref.fk.column, ref.fk.refColumn);
    (if (ref.table, ref.fk.refTable) == (a, b) then [pair] else []) +
    (if (ref.fk.refTable, ref.table) == (a, b) then [Swap(pair)] else [])
  }

  function PairsBetween(refs: seq<Ref>, a: Table, b: Table): seq<KeyPair> {
    if refs == [] then []
    else PairsBetween(refs[..|refs| - 1], a, b) + PairsOf(refs[|refs| - 1], a, b)
  }

  function FirstOccurrences(ps: seq<KeyPair>): seq<KeyPair> {
    if ps == [] then []
    else
      var init, p := FirstOccurrences(ps[..|ps| - 1]), ps[|ps| - 1];
      if p in init then init else init + [p]
  }

  lemma {:induction false} FirstOccurrencesAre(ps: seq<KeyPair>)
    ensures forall p :: p in FirstOccurrences(ps) <==> p in ps
    ensures forall i, j :: 0 <= i < j < |FirstOccurrences(ps)| ==> FirstOccurrences(ps)[i] != FirstOccurrences(ps)[j]
  {
    if ps != [] {
      FirstOccurrencesAre(ps[..|ps| - 1]);
      assert ps == ps[..|ps| - 1] + [ps[|ps| - 1]];
    }
  }

  /** The default pair followed by its alternates. */
  function AllPairs(k: Option<JoinKeys>): seq<KeyPair> {
    match k
    case None => []
    case Some(keys) => [keys.pair] + keys.Alternates()
  }

  lemma JoinedPairs(existing: Option<JoinKeys>, pair: KeyPair, ps: seq<KeyPair>)
    requires AllPairs(existing) == FirstOccurrences(ps)
    ensures AllPairs(Some(Joined(existing, pair))) == FirstOccurrences(ps + [pair])
  {
    assert (ps + [pair])[..|ps|] == ps;
    JoinedAll(existing, pair);
  }

  lemma JoinedAll(existing: Option<JoinKeys>, pair: KeyPair)
    ensures AllPairs(Some(Joined(existing, pair))) ==
            if pair in AllPairs(existing) then AllPairs(existing) else AllPairs(existing) + [pair]
  {
    if existing.Some? {
      var k := existing.value;
      assert pair in AllPairs(existing) <==> pair == k.pair || pair in k.Alternates();
      assert ([k.pair] + k.Alternates()) + [pair] == [k.pair] + (k.Alternates() + [pair]);
    }
  }

  lemma AddedPairs(g: JoinGraph, t: Table, r: Table, pair: KeyPair, a: Table, b: Table, ps: seq<KeyPair>)
    requires t in g && a in g && AllPairs(Find(g[a], b)) == FirstOccurrences(ps)
    ensures AllPairs(Find(Added(g, t, r, pair)[a], b)) ==
            FirstOccurrences(ps + if (t, r) == (a, b) then [pair] else [])
  {
    FindAdded(g, t, r, pair, a, b);
    if (t, r) == (a, b) {
      JoinedPairs(Find(g[a], b), pair, ps);
    } else {
      assert ps + [] == ps;
    }
  }

  lemma LinkedPairs(g: JoinGraph, ref: Ref, a: Table, b: Table, ps: seq<KeyPair>)
    requires a in g && b in g
    requires AllPairs(Find(g[a], b)) == FirstOccurrences(ps)
    ensures AllPairs(Find(LinkRef(g, ref)[a], b)) == FirstOccurrences(ps + PairsOf(ref, a, b))
  {
    var t, r := ref.table, ref.fk.refTable;
    var pair := KeyPair(ref.fk.column, ref.fk.refColumn);
    if t in g && r in g {
      var there := if (t, r) == (a, b) then [pair] else [];
      var back := if (r, t) == (a, b) then [Swap(pair)] else [];
      AddedPairs(g, t, r, pair, a, b, ps);
      AddedPairs(Added(g, t, r, pair), r, t, Swap(pair), a, b, ps + there);
      assert ps + there + back == ps + (there + back);
    } else {
      assert PairsOf(ref, a, b) == [] && ps + [] == ps;
    }
  }

  /** No table of the catalog can be lost on the way to the graph: between two tables it
      holds every declared pair once, the first declared one as the default and the others
      in declaration order, and nothing else. */
  lemma {:induction false} DeclaredPairs(g: JoinGraph, refs: seq<Ref>, a: Table, b: Table)
    requires a in g && b in g && AllPairs(Find(g[a], b)) == []
    ensures a in LinkRefs(g, refs) && b in LinkRefs(g, refs)
    ensures AllPairs(Find(LinkRefs(g, refs)[a], b)) == FirstOccurrences(PairsBetween(refs, a, b))
  {
    if refs != [] {
      DeclaredPairs(g, refs[..|refs| - 1], a, b);
      LinkedPairs(LinkRefs(g, refs[..|refs| - 1]), refs[|refs| - 1], a, b, PairsBetween(refs[..|refs| - 1], a, b));
    }
  }

  lemma {:induction false} LinkRefsMirrored(g: JoinGraph, refs: seq<Ref>)
    requires WellFormed(g) && Mirrored(g)
    ensures WellFormed(LinkRefs(g, refs)) && Mirrored(LinkRefs(g, refs)) && LinkRefs(g, refs).Keys == g.Keys
  {
    if refs != [] {
      var init, ref := LinkRefs(g, refs[..|refs| - 1]), refs[|refs| - 1];
      LinkRefsMirrored(g, refs[..|refs| - 1]);
      if ref.table in init && ref.fk.refTable in init {
        var pair := KeyPair(ref.fk.column, ref.fk.refColumn);
        LinkMirrors(init, ref.table, ref.fk.refTable, pair);
        LinkWellFormed(init, ref.table, ref.fk.refTable, pair);
      }
    }
  }

  // --- Columns that name another table's key ---

  /** An undeclared relation some rule found, as the rule would link it. */
  datatype Guess = Guess(table: Table, refTable: Table, pair: KeyPair)

  function LinkGuess(g: JoinGraph, guess: Option<Guess>): JoinGraph {
    match guess
    case None => g
    case Some(c) =>
      if c.table in g && c.refTable in g then LinkDefault(g, c.table, c.refTable, c.pair) else g
  }

  function LinkGuesses(g: JoinGraph, guesses: seq<Option<Guess>>): JoinGraph {
    if guesses == [] then g else LinkGuess(LinkGuesses(g, guesses[..|guesses| - 1]), guesses[|guesses| - 1])
  }

  /** Guesses only ever fill blanks: a relation already in the graph keeps its keys. */
  lemma {:induction false} GuessesNeverOverwrite(g: JoinGraph, guesses: seq<Option<Guess>>, a: Table, b: Table)
    requires a in g && Find(g[a], b).Some?
    ensures a in LinkGuesses(g, guesses) && Find(LinkGuesses(g, guesses)[a], b) == Find(g[a], b)
  {
    if guesses != [] {
      var init, last := LinkGuesses(g, guesses[..|guesses| - 1]), guesses[|guesses| - 1];
      GuessesNeverOverwrite(g, guesses[..|guesses| - 1], a, b);
      if last.Some? && last.value.table in init && last.value.refTable in init {
        var c := last.value;
        FindDefaulted(init, c.table, c.refTable, Plain(c.pair), a, b);
        var there := Defaulted(init, c.table, c.refTable, Plain(c.pair));
        FindDefaulted(there, c.refTable, c.table, Plain(Swap(c.pair)), a, b);
      }
    }
  }

  lemma {:induction false} LinkGuessesMirrored(g: JoinGraph, guesses: seq<Option<Guess>>)
    requires WellFormed(g) && Mirrored(g)
    ensures WellFormed(LinkGuesses(g, guesses)) && Mirrored(LinkGuesses(g, guesses))
    ensures LinkGuesses(g, guesses).Keys == g.Keys
  {
    if guesses != [] {
      var init, last := LinkGuesses(g, guesses[..|guesses| - 1]), guesses[|guesses| - 1];
      LinkGuessesMirrored(g, guesses[..|guesses| - 1]);
      if last.Some? && last.value.table in init && last.value.refTable in init {
        LinkDefaultMirrors(init, last.value.table, last.value.refTable, last.value.pair);
        LinkWellFormed(init, last.value.table, last.value.refTable, last.value.pair);
      }
    }
  }

  /** `primary_keys.get(t)`: the declared key columns of `t`. */
  function KeysOf(pks: Catalog, t: Table): seq<Column> {
    if pks == [] then []
    else if pks[|pks| - 1].0 == t then pks[|pks| - 1].1
    else KeysOf(pks[..|pks| - 1], t)
  }

  /** The known tables whose whole key is one column of this name. */
  function Owners(known: set<Table>, pks: Catalog, name: string): seq<Table> {
    if pks == [] then []
    else
      var (t, keys) := pks[|pks| - 1];
      Owners(known, pks[..|pks| - 1], name) + (if t in known && |keys| == 1 && Lower(keys[0]) == name then [t] else [])
  }

  function KeyGuess(known: set<Table>, pks: Catalog, t: Table, c: Column): Option<Guess> {
    var owners := Owners(known, pks, Lower(c));
    if |owners| != 1 || owners[0] == t || Lower(c) in LowerSet(KeysOf(pks, t)) || KeysOf(pks, owners[0]) == [] then None
    else Some(Guess(t, owners[0], KeyPair(c, KeysOf(pks, owners[0])[0])))
  }

  function KeyGuessesOf(known: set<Table>, pks: Catalog, t: Table, columns: seq<Column>): seq<Option<Guess>> {
    seq(|columns|, i requires 0 <= i < |columns| => KeyGuess(known, pks, t, columns[i]))
  }

  function KeyGuesses(known: set<Table>, pks: Catalog, schema: Catalog): seq<Option<Guess>> {
    if schema == [] then []
    else
      var (t, columns) := schema[|schema| - 1];
      KeyGuesses(known, pks, schema[..|schema| - 1]) + KeyGuessesOf(known, pks, t, columns)
  }

  /** The naming convention's answer for one column: the table it refers to, and the column
      it would join on there. */
  type Naming = (Table, Column) -> Option<(Table, Column)>

  function NameGuess(naming: Naming, t: Table, c: Column): Option<Guess> {
    match naming(t, c)
    case None => None
    case Some((r, rc)) => Some(Guess(t, r, KeyPair(c, rc)))
  }

  function NameGuessesOf(naming: Naming, t: Table, columns: seq<Column>): seq<Option<Guess>> {
    seq(|columns|, i requires 0 <= i < |columns| => NameGuess(naming, t, columns[i]))
  }

  function NameGuesses(naming: Naming, schema: Catalog): seq<Option<Guess>> {
    if schema == [] then []
    else
      var (t, columns) := schema[|schema| - 1];
      NameGuesses(naming, schema[..|schema| - 1]) + NameGuessesOf(naming, t, columns)
  }

  // --- The whole construction ---

  function Unlinked(schema: Catalog): JoinGraph {
    map t | t in Tables(schema) :: []
  }

  function Tables(schema: Catalog): set<Table> {
    set entry | entry in schema :: entry.0
  }

  function Built(schema: Catalog, fks: ForeignKeyMap, pks: Catalog, naming: Naming): JoinGraph {
    var linked :=
      if fks != [] then LinkRefs(Unlinked(schema), AllRefs(fks))
      else LinkGuesses(Unlinked(schema), NameGuesses(naming, schema));
    LinkGuesses(linked, KeyGuesses(Tables(schema), pks, schema))
  }

  lemma BuiltIsMirrored(schema: Catalog, fks: ForeignKeyMap, pks: Catalog, naming: Naming)
    ensures WellFormed(Built(schema, fks, pks, naming)) && Mirrored(Built(schema, fks, pks, naming))
    ensures Built(schema, fks, pks, naming).Keys == Tables(schema)
  {
    var g := Unlinked(schema);
    LinkRefsMirrored(g, AllRefs(fks));
    LinkGuessesMirrored(g, NameGuesses(naming, schema));
    var linked := if fks != [] then LinkRefs(g, AllRefs(fks)) else LinkGuesses(g, NameGuesses(naming, schema));
    LinkGuessesMirrored(linked, KeyGuesses(Tables(schema), pks, schema));
  }

  /** Every relation the catalog declares between two known tables reaches the graph as it
      was declared, whatever the key-name edges add elsewhere. */
  lemma BuiltKeepsDeclared(schema: Catalog, fks: ForeignKeyMap, pks: Catalog, naming: Naming, a: Table, b: Table)
    requires a in Tables(schema) && b in Tables(schema)
    requires PairsBetween(AllRefs(fks), a, b) != []
    ensures a in Built(schema, fks, pks, naming)
    ensures AllPairs(Find(Built(schema, fks, pks, naming)[a], b)) == FirstOccurrences(PairsBetween(AllRefs(fks), a, b))
  {
    var linked := LinkRefs(Unlinked(schema), AllRefs(fks));
    DeclaredPairs(Unlinked(schema), AllRefs(fks), a, b);
    FirstOccurrencesAre(PairsBetween(AllRefs(fks), a, b));
    assert PairsBetween(AllRefs(fks), a, b)[0] in FirstOccurrences(PairsBetween(AllRefs(fks), a, b));
    GuessesNeverOverwrite(linked, KeyGuesses(Tables(schema), pks, schema), a, b);
  }

  // --- Symmetry of reachability and distance ---

  function Flip(h: Hop): Hop {
    Hop(h.right, h.left, SwapKeys(h.keys))
  }

  function Backwards(w: Path): Path {
    if w == [] then [] else [Flip(w[|w| - 1])] + Backwards(w[..|w| - 1])
  }

  lemma {:induction false} WalkFrom(g: JoinGraph, h: Hop, w: Path, b: Table)
    requires IsHop(g, h) && IsWalk(g, h.right, w, b)
    ensures IsWalk(g, h.left, [h] + w, b)
    decreases |w|
  {
    var whole := [h] + w;
    if w == [] {
      assert whole[..0] == [];
    } else {
      WalkFrom(g, h, w[..|w| - 1], w[|w| - 1].left);
      assert whole[..|whole| - 1] == [h] + w[..|w| - 1];
    }
  }

  lemma FlipIsHop(g: JoinGraph, h: Hop)
    requires WellFormed(g) && Mirrored(g) && IsHop(g, h) && h.left != h.right
    ensures IsHop(g, Flip(h))
  {
    FindIsEdge(g[h.left], h.right, h.keys);
    assert MirroredAt(g, h.left, h.right);
    FindIsEdge(g[h.right], h.left, SwapKeys(h.keys));
  }

  lemma {:induction false} BackwardsWalk(g: JoinGraph, a: Table, w: Path, b: Table)
    requires WellFormed(g) && Mirrored(g) && IsWalk(g, a, w, b) && IsSimple(w)
    ensures IsWalk(g, b, Backwards(w), a) && |Backwards(w)| == |w|
    decreases |w|
  {
    if w != [] {
      var h := w[|w| - 1];
      BackwardsWalk(g, a, w[..|w| - 1], h.left);
      FlipIsHop(g, h);
      WalkFrom(g, Flip(h), Backwards(w[..|w| - 1]), a);
    }
  }

  lemma NoFartherBack(g: JoinGraph, a: Table, b: Table)
    requires WellFormed(g) && Mirrored(g) && BfsPath(g, a, b) != []
    ensures BfsPath(g, b, a) != [] && |BfsPath(g, b, a)| <= |BfsPath(g, a, b)|
  {
    ShortestJoinPath(g, a, b);
    var back := Backwards(BfsPath(g, a, b));
    BackwardsWalk(g, a, BfsPath(g, a, b), b);
    assert IsWalk(g, b, back, a);
    EmptyJoinPath(g, b, a);
    ShortestJoinPath(g, b, a);
  }

  /** In a mirrored graph a join path and the path back have the same length, and one
      exists exactly when the other does. */
  lemma DistanceIsSymmetric(g: JoinGraph, a: Table, b: Table)
    requires WellFormed(g) && Mirrored(g)
    ensures |BfsPath(g, a, b)| == |BfsPath(g, b, a)|
  {
    if BfsPath(g, a, b) != [] { NoFartherBack(g, a, b); }
    if BfsPath(g, b, a) != [] { NoFartherBack(g, b, a); }
  }

  // --- relationship_graph.py ---

  class GraphBuilder {
    var graph: JoinGraph

    constructor (schema: Catalog)
      ensures graph == Unlinked(schema)
    {
      graph := Unlinked(schema);
    }

    method AddEdge(t: Table, r: Table, column: Column, refColumn: Column)
      requires t in graph
      modifies this
      ensures graph == Added(old(graph), t, r, KeyPair(column, refColumn))
    {
      var pair := KeyPair(column, refColumn);
      var existing := Find(graph[t], r);
      if existing.None? {
        graph := graph[t := Put(graph[t], r, Keys(pair, []))];
        return;
      }
      var keys := existing.value;
      if keys.pair == pair {
        PutSame(graph[t], r);
        assert graph[t := graph[t]] == graph;
        return;
      }
      if keys.Keys? {
        if pair !in keys.others {
          graph := graph[t := Put(graph[t], r, keys.(others := keys.others + [pair]))];
        } else {
          PutSame(graph[t], r);
          assert graph[t := graph[t]] == graph;
        }
      } else {
        assert [] + [pair] == [pair];
        graph := graph[t := Put(graph[t], r, Keys(keys.pair, [pair]))];
      }
    }

    method SetDefault(t: Table, r: Table, pair: KeyPair)
      requires t in graph
      modifies this
      ensures graph == Defaulted(old(graph), t, r, Plain(pair))
    {
      if Find(graph[t], r).None? {
        graph := graph[t := Put(graph[t], r, Plain(pair))];
      }
    }

    /** The declared keys of one known table. */
    method DeclareKeysOf(t: Table, declared: seq<ForeignKey>)
      requires t in graph
      modifies this
      ensures graph == LinkRefs(old(graph), RefsOf(t, declared)) && graph.Keys == old(graph.Keys)
    {
      for j := 0 to |declared|
        invariant graph == LinkRefs(old(graph), RefsOf(t, declared[..j])) && graph.Keys == old(graph.Keys)
      {
        var fk := declared[j];
        assert RefsOf(t, declared[..j + 1])[..j] == RefsOf(t, declared[..j]);
        if fk.refTable in graph {
          AddEdge(t, fk.refTable, fk.column, fk.refColumn);
          AddEdge(fk.refTable, t, fk.refColumn, fk.column);
        }
      }
      assert declared[..|declared|] == declared;
    }

    method DeclareForeignKeys(fks: ForeignKeyMap)
      modifies this
      ensures graph == LinkRefs(old(graph), AllRefs(fks)) && graph.Keys == old(graph.Keys)
    {
      for i := 0 to |fks|
        invariant graph == LinkRefs(old(graph), AllRefs(fks[..i])) && graph.Keys == old(graph.Keys)
      {
        var (t, declared) := fks[i];
        assert fks[..i + 1][..i] == fks[..i];
        LinkRefsConcat(old(graph), AllRefs(fks[..i]), RefsOf(t, declared));
        if t in graph {
          DeclareKeysOf(t, declared);
        } else {
          SkipUnknown(graph, t, declared);
        }
      }
      assert fks[..|fks|] == fks;
    }

    method LinkIfKnown(guess: Option<Guess>)
      modifies this
      ensures graph == LinkGuess(old(graph), guess) && graph.Keys == old(graph.Keys)
    {
      if guess.Some? && guess.value.table in graph && guess.value.refTable in graph {
        var c := guess.value;
        SetDefault(c.table, c.refTable, c.pair);
        SetDefault(c.refTable, c.table, Swap(c.pair));
      }
    }

    method FollowNames(schema: Catalog, naming: Naming)
      modifies this
      ensures graph == LinkGuesses(old(graph), NameGuesses(naming, schema)) && graph.Keys == old(graph.Keys)
    {
      for i := 0 to |schema|
        invariant graph == LinkGuesses(old(graph), NameGuesses(naming, schema[..i])) && graph.Keys == old(graph.Keys)
      {
        var (t, columns) := schema[i];
        assert schema[..i + 1][..i] == schema[..i];
        ghost var before := NameGuesses(naming, schema[..i]);
        ghost var mine := NameGuessesOf(naming, t, columns);
        assert before + mine[..0] == before;
        for j := 0 to |columns|
          invariant graph == LinkGuesses(old(graph), before + mine[..j]) && graph.Keys == old(graph.Keys)
        {
          LinkIfKnown(NameGuess(naming, t, columns[j]));
          GrowGuesses(before, mine, j);
        }
        assert mine[..|columns|] == mine;
      }
      assert schema[..|schema|] == schema;
    }

    /** The columns of one table that repeat the key of exactly one other table. */
    method AddKeyColumns(t: Table, columns: seq<Column>, pks: Catalog, owners: map<string, seq<Table>>)
      requires OwnersAre(owners, graph.Keys, pks)
      modifies this
      ensures graph == LinkGuesses(old(graph), KeyGuessesOf(old(graph.Keys), pks, t, columns))
      ensures graph.Keys == old(graph.Keys)
    {
      ghost var known := graph.Keys;
      ghost var mine := KeyGuessesOf(known, pks, t, columns);
      var own := LowerSet(KeysOf(pks, t));
      for j := 0 to |columns|
        invariant graph == LinkGuesses(old(graph), mine[..j]) && graph.Keys == known
      {
        var guess := GuessKey(known, pks, t, own, columns[j], owners);
        assert guess == mine[j];
        LinkIfKnown(guess);
        assert mine[..j + 1][..j] == mine[..j];
      }
      assert mine[..|columns|] == mine;
    }

    method AddPrimaryKeyEdges(schema: Catalog, pks: Catalog)
      modifies this
      ensures graph == LinkGuesses(old(graph), KeyGuesses(old(graph.Keys), pks, schema))
      ensures graph.Keys == old(graph.Keys)
    {
      ghost var known := graph.Keys;
      var owners := KeyOwners(graph.Keys, pks);
      for i := 0 to |schema|
        invariant graph == LinkGuesses(old(graph), KeyGuesses(known, pks, schema[..i])) && graph.Keys == known
      {
        assert schema[..i + 1][..i] == schema[..i];
        AddKeyColumns(schema[i].0, schema[i].1, pks, owners);
        LinkGuessesConcat(old(graph), KeyGuesses(known, pks, schema[..i]),
                          KeyGuessesOf(known, pks, schema[i].0, schema[i].1));
      }
      assert schema[..|schema|] == schema;
    }
  }

  method GuessKey(ghost known: set<Table>, pks: Catalog, t: Table, own: set<string>, c: Column,
                  owners: map<string, seq<Table>>)
    returns (guess: Option<Guess>)
    requires OwnersAre(owners, known, pks) && own == LowerSet(KeysOf(pks, t))
    ensures guess == KeyGuess(known, pks, t, c)
  {
    var found := OwnersIn(owners, Lower(c));
    assert found == Owners(known, pks, Lower(c));
    if |found| != 1 { return None; }
    var parent := found[0];
    if parent == t || Lower(c) in own || KeysOf(pks, parent) == [] { return None; }
    return Some(Guess(t, parent, KeyPair(c, KeysOf(pks, parent)[0])));
  }

  function OwnersIn(owners: map<string, seq<Table>>, name: string): seq<Table> {
    if name in owners then owners[name] else []
  }

  ghost predicate OwnersAre(owners: map<string, seq<Table>>, known: set<Table>, pks: Catalog) {
    forall name :: OwnersIn(owners, name) == Owners(known, pks, name)
  }

  lemma OwnersGrow(owners: map<string, seq<Table>>, known: set<Table>, pks: Catalog, i: nat)
    requires i < |pks| && OwnersAre(owners, known, pks[..i])
    ensures var (t, keys) := pks[i];
            OwnersAre(if t in known && |keys| == 1
                      then owners[Lower(keys[0]) := OwnersIn(owners, Lower(keys[0])) + [t]] else owners,
                      known, pks[..i + 1])
  {
    var (t, keys) := pks[i];
    assert pks[..i + 1][..i] == pks[..i];
    var owners' := if t in known && |keys| == 1
      then owners[Lower(keys[0]) := OwnersIn(owners, Lower(keys[0])) + [t]] else owners;
    forall name
      ensures OwnersIn(owners', name) == Owners(known, pks[..i + 1], name)
    {
      assert OwnersIn(owners, name) == Owners(known, pks[..i], name);
    }
  }

  /** Which tables each single-column key name belongs to. */
  method KeyOwners(known: set<Table>, pks: Catalog) returns (owners: map<string, seq<Table>>)
    ensures OwnersAre(owners, known, pks)
  {
    owners := map[];
    for i := 0 to |pks|
      invariant OwnersAre(owners, known, pks[..i])
    {
      var (t, keys) := pks[i];
      OwnersGrow(owners, known, pks, i);
      if t in known && |keys| == 1 {
        var name := Lower(keys[0]);
        owners := owners[name := OwnersIn(owners, name) + [t]];
      }
    }
    assert pks[..|pks|] == pks;
  }

  lemma {:induction false} LinkGuessesConcat(g: JoinGraph, a: seq<Option<Guess>>, b: seq<Option<Guess>>)
    ensures LinkGuesses(g, a + b) == LinkGuesses(LinkGuesses(g, a), b)
  {
    if b == [] {
      assert a + b == a;
    } else {
      assert (a + b)[..|a + b| - 1] == a + b[..|b| - 1];
      LinkGuessesConcat(g, a, b[..|b| - 1]);
    }
  }

  lemma {:induction false} PutSame(row: Row, t: Table)
    requires Find(row, t).Some?
    ensures Put(row, t, Find(row, t).value) == row
  {
    if row[0].neighbor != t {
      PutSame(row[1..], t);
      assert [row[0]] + row[1..] == row;
    } else {
      assert [Edge(t, row[0].keys)] + row[1..] == row;
    }
  }

  lemma GrowGuesses(before: seq<Option<Guess>>, mine: seq<Option<Guess>>, j: nat)
    requires j < |mine|
    ensures before + mine[..j + 1] == (before + mine[..j]) + [mine[j]]
    ensures (before + mine[..j + 1])[..|before| + j] == before + mine[..j]
  {
  }

  lemma {:induction false} LinkRefsConcat(g: JoinGraph, a: seq<Ref>, b: seq<Ref>)
    ensures LinkRefs(g, a + b) == LinkRefs(LinkRefs(g, a), b)
  {
    if b == [] {
      assert a + b == a;
    } else {
      assert (a + b)[..|a + b| - 1] == a + b[..|b| - 1];
      LinkRefsConcat(g, a, b[..|b| - 1]);
    }
  }

  lemma {:induction false} SkipUnknown(g: JoinGraph, t: Table, declared: seq<ForeignKey>)
    requires t !in g
    ensures LinkRefs(g, RefsOf(t, declared)) == g
  {
    var refs := RefsOf(t, declared);
    if refs != [] {
      assert refs[..|refs| - 1] == RefsOf(t, declared[..|declared| - 1]);
      SkipUnknown(g, t, declared[..|declared| - 1]);
    }
  }

  method BuildRelationshipGraph(schema: Catalog, fks: ForeignKeyMap, pks: Catalog, naming: Naming)
    returns (graph: JoinGraph)
    ensures graph == Built(schema, fks, pks, naming)
  {
    var builder := new GraphBuilder(schema);
    assert Unlinked(schema).Keys == Tables(schema);
    if fks != [] {
      builder.DeclareForeignKeys(fks);
    } else {
      builder.FollowNames(schema, naming);
    }
    builder.AddPrimaryKeyEdges(schema, pks);
    graph := builder.graph;
  }
}
