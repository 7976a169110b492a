/** The edges of the join graph that no declared key accounts for. */
module KeyEdges {
  import opened Graph
  import opened Names
  import opened RelationshipGraph
  import opened DeclaredGraph

  // --- Columns that repeat another table's only key ---

  /** Every table is declared once, as in a dictionary. */
  ghost predicate IsDictionary(pks: Catalog) {
    forall i, j :: 0 <= i < j < |pks| ==> pks[i].0 != pks[j].0
  }

  /** The declared key of `t` is the one column `k`. */
  predicate KeyIs(pks: Catalog, t: Table, k: Column) {
    (t, [k]) in pks
  }

  ghost predicate HasKeyNamed(pks: Catalog, t: Table, name: string) {
    exists k :: KeyIs(pks, t, k) && Lower(k) == name
  }

  /** It is the only known table whose one-column key has this name. */
  ghost predicate OnlyOwner(known: set<Table>, pks: Catalog, name: string, r: Table) {
    && r in known && HasKeyNamed(pks, r, name)
    && forall t :: t in known && HasKeyNamed(pks, t, name) ==> t == r
  }

  /** The column is part of the table's own key. */
  ghost predicate InOwnKey(pks: Catalog, t: Table, c: Column) {
    exists i, k :: 0 <= i < |pks| && pks[i].0 == t && k in pks[i].1 && Lower(k) == Lower(c)
  }

  lemma {:induction false} OwnersHave(known: set<Table>, pks: Catalog, name: string, t: Table)
    ensures t in Owners(known, pks, name) <==> t in known && HasKeyNamed(pks, t, name)
  {
    if pks != [] {
      var init, last := pks[..|pks| - 1], pks[|pks| - 1];
      assert pks == init + [last];
      OwnersHave(known, init, name, t);
      if k :| KeyIs(init, t, k) && Lower(k) == name { assert KeyIs(pks, t, k); }
      if k :| KeyIs(pks, t, k) && Lower(k) == name { assert KeyIs(init, t, k) || last == (t, [k]); }
      if last.0 == t && |last.1| == 1 {
        assert last.1 == [last.1[0]];
        assert KeyIs(pks, t, last.1[0]);
      }
    }
  }

  lemma {:induction false} OwnersOnce(known: set<Table>, pks: Catalog, name: string)
    requires IsDictionary(pks)
    ensures forall i, j :: 0 <= i < j < |Owners(known, pks, name)| ==>
              Owners(known, pks, name)[i] != Owners(known, pks, name)[j]
  {
    if pks != [] {
      var init, last := pks[..|pks| - 1], pks[|pks| - 1];
      OwnersOnce(known, init, name);
      var before := Owners(known, init, name);
      forall i | 0 <= i < |before|
        ensures before[i] != last.0
      {
        OwnersHave(known, init, name, before[i]);
        assert before[i] in before;
        var k :| KeyIs(init, before[i], k);
        var n :| 0 <= n < |init| && init[n] == (before[i], [k]);
        assert pks[n] == init[n];
      }
    }
  }

  lemma TwoOf<T>(xs: seq<T>)
    requires |xs| > 1 && forall i, j :: 0 <= i < j < |xs| ==> xs[i] != xs[j]
    ensures exists x, y :: x in xs && y in xs && x != y
  {
    assert xs[0] in xs && xs[1] in xs;
  }

  lemma Single<T>(xs: seq<T>, x: T)
    requires x in xs && (forall y :: y in xs ==> y == x)
    requires forall i, j :: 0 <= i < j < |xs| ==> xs[i] != xs[j]
    ensures xs == [x]
  {
    if |xs| > 1 { TwoOf(xs); }
  }

  lemma OneOwnerIff(known: set<Table>, pks: Catalog, name: string, r: Table)
    requires IsDictionary(pks)
    ensures Owners(known, pks, name) == [r] <==> OnlyOwner(known, pks, name, r)
  {
    var owners := Owners(known, pks, name);
    forall t
      ensures t in owners <==> t in known && HasKeyNamed(pks, t, name)
    {
      OwnersHave(known, pks, name, t);
    }
    OwnersOnce(known, pks, name);
    if OnlyOwner(known, pks, name, r) {
      assert r in owners;
      Single(owners, r);
    }
    if owners == [r] { assert r in owners; }
  }

  lemma {:induction false} KeysOfIs(pks: Catalog, t: Table, i: nat)
    requires IsDictionary(pks) && i < |pks| && pks[i].0 == t
    ensures KeysOf(pks, t) == pks[i].1
  {
    if i < |pks| - 1 { KeysOfIs(pks[..|pks| - 1], t, i); }
  }

  lemma {:induction false} KeysOfNone(pks: Catalog, t: Table)
    requires forall i :: 0 <= i < |pks| ==> pks[i].0 != t
    ensures KeysOf(pks, t) == []
  {
    if pks != [] { KeysOfNone(pks[..|pks| - 1], t); }
  }

  lemma OwnKeyIff(pks: Catalog, t: Table, c: Column)
    requires IsDictionary(pks)
    ensures Lower(c) in LowerSet(KeysOf(pks, t)) <==> InOwnKey(pks, t, c)
  {
    if i :| 0 <= i < |pks| && pks[i].0 == t {
      KeysOfIs(pks, t, i);
    } else {
      KeysOfNone(pks, t);
    }
  }

  /** A column is linked to a table exactly when it has the name of that table's one-column key,
      no other known table has such a key, the table is another one, and the column is no part of
      its own table's key; and it is linked to that key. */
  lemma KeyGuessIff(known: set<Table>, pks: Catalog, t: Table, c: Column, r: Table, k: Column)
    requires IsDictionary(pks)
    ensures KeyGuess(known, pks, t, c) == Some(Guess(t, r, KeyPair(c, k))) <==>
            OnlyOwner(known, pks, Lower(c), r) && KeyIs(pks, r, k) && r != t && !InOwnKey(pks, t, c)
  {
    var owners := Owners(known, pks, Lower(c));
    OneOwnerIff(known, pks, Lower(c), r);
    OwnKeyIff(pks, t, c);
    if OnlyOwner(known, pks, Lower(c), r) {
      var own :| KeyIs(pks, r, own) && Lower(own) == Lower(c);
      var i :| 0 <= i < |pks| && pks[i] == (r, [own]);
      KeysOfIs(pks, r, i);
      if KeyIs(pks, r, k) { OneKey(pks, r, k, own); }
    } else if |owners| == 1 {
      assert owners == [owners[0]];
    }
  }

  lemma OnePlace(pks: Catalog, i: nat, j: nat)
    requires IsDictionary(pks) && i < |pks| && j < |pks| && pks[i].0 == pks[j].0
    ensures i == j
  {
  }

  lemma OneKey(pks: Catalog, r: Table, k: Column, own: Column)
    requires IsDictionary(pks) && KeyIs(pks, r, k) && KeyIs(pks, r, own)
    ensures k == own
  {
    var i :| 0 <= i < |pks| && pks[i] == (r, [k]);
    var j :| 0 <= j < |pks| && pks[j] == (r, [own]);
    OnePlace(pks, i, j);
  }

  // --- The edges that come of guesses ---

  /** Some column of the schema is taken for a reference: by its name, where no key is declared
      at all, or because it repeats a key. */
  ghost predicate Guessed(schema: Catalog, fks: ForeignKeyMap, pks: Catalog, naming: Naming, g: Guess) {
    exists e, c :: e in schema && c in e.1 && GuessedOf(schema, fks, pks, naming, e.0, c, g)
  }

  predicate GuessedOf(schema: Catalog, fks: ForeignKeyMap, pks: Catalog, naming: Naming, t: Table, c: Column, g: Guess)
  {
    || (fks == [] && naming(t, c) == Some((g.refTable, g.pair.to)) && g.table == t && g.pair.from == c)
    || KeyGuess(Tables(schema), pks, t, c) == Some(g)
  }

  /** The guess joins `a` to `b` on these columns. */
  predicate GuessJoins(g: Guess, a: Table, b: Table, p: KeyPair) {
    || (g.table == a && g.refTable == b && p == g.pair)
    || (g.table == b && g.refTable == a && p == KeyPair(g.pair.to, g.pair.from))
  }

  ghost predicate AnyJoins(guesses: seq<Option<Guess>>, a: Table, b: Table, p: KeyPair) {
    exists g :: Some(g) in guesses && GuessJoins(g, a, b, p)
  }

  lemma LinkGuessEdge(g: JoinGraph, guess: Option<Guess>, a: Table, b: Table)
    requires a in g && b in g
    ensures a in LinkGuess(g, guess) && b in LinkGuess(g, guess)
    ensures var was, now := Find(g[a], b), Find(LinkGuess(g, guess)[a], b);
            if was.Some? then now == was
            else if guess.Some? && Between(Ref(guess.value.table, ForeignKey("", guess.value.refTable, "")), a, b)
            then now.Some? && now.value.Plain? && GuessJoins(guess.value, a, b, now.value.pair)
            else now == None
  {
    if guess.Some? && guess.value.table in g && guess.value.refTable in g {
      var c := guess.value;
      var there := Defaulted(g, c.table, c.refTable, Plain(c.pair));
      FindDefaulted(g, c.table, c.refTable, Plain(c.pair), a, b);
      FindDefaulted(g, c.table, c.refTable, Plain(c.pair), c.refTable, c.table);
      FindDefaulted(there, c.refTable, c.table, Plain(Swap(c.pair)), a, b);
    }
  }

  lemma {:induction false} GuessedEdge(g: JoinGraph, guesses: seq<Option<Guess>>, a: Table, b: Table)
    requires a in g && b in g && Find(g[a], b) == None
    ensures a in LinkGuesses(g, guesses) && b in LinkGuesses(g, guesses)
    ensures var k := Find(LinkGuesses(g, guesses)[a], b);
            && (k.Some? <==> exists p :: AnyJoins(guesses, a, b, p))
            && (k.Some? ==> k.value.Plain? && AnyJoins(guesses, a, b, k.value.pair))
  {
    if guesses != [] {
      var init, last := guesses[..|guesses| - 1], guesses[|guesses| - 1];
      assert guesses == init + [last];
      GuessedEdge(g, init, a, b);
      LinkGuessEdge(LinkGuesses(g, init), last, a, b);
      var k := Find(LinkGuesses(g, guesses)[a], b);
      if k.Some? { LastOrBefore(init, last, a, b, k.value.pair); }
      if p :| AnyJoins(guesses, a, b, p) { LastOrBefore(init, last, a, b, p); }
    }
  }

  lemma LastOrBefore(init: seq<Option<Guess>>, last: Option<Guess>, a: Table, b: Table, p: KeyPair)
    ensures AnyJoins(init + [last], a, b, p) <==>
            AnyJoins(init, a, b, p) || (last.Some? && GuessJoins(last.value, a, b, p))
  {
    if g :| Some(g) in init && GuessJoins(g, a, b, p) { assert Some(g) in init + [last]; }
    if last.Some? && GuessJoins(last.value, a, b, p) { assert last in init + [last]; }
  }

  lemma {:induction false} NameGuessesAre(naming: Naming, schema: Catalog, g: Guess)
    ensures Some(g) in NameGuesses(naming, schema) <==>
            exists e, c :: e in schema && c in e.1 && NameGuess(naming, e.0, c) == Some(g)
  {
    if schema != [] {
      var init, last := schema[..|schema| - 1], schema[|schema| - 1];
      assert schema == init + [last];
      NameGuessesAre(naming, init, g);
      var own := NameGuessesOf(naming, last.0, last.1);
      if c :| c in last.1 && NameGuess(naming, last.0, c) == Some(g) {
        var i :| 0 <= i < |last.1| && last.1[i] == c;
        assert own[i] == Some(g);
      }
      if Some(g) in own {
        var i :| 0 <= i < |own| && own[i] == Some(g);
        assert last.1[i] in last.1;
      }
    }
  }

  lemma {:induction false} KeyGuessesAre(known: set<Table>, pks: Catalog, schema: Catalog, g: Guess)
    ensures Some(g) in KeyGuesses(known, pks, schema) <==>
            exists e, c :: e in schema && c in e.1 && KeyGuess(known, pks, e.0, c) == Some(g)
  {
    if schema != [] {
      var init, last := schema[..|schema| - 1], schema[|schema| - 1];
      assert schema == init + [last];
      KeyGuessesAre(known, pks, init, g);
      var own := KeyGuessesOf(known, pks, last.0, last.1);
      if c :| c in last.1 && KeyGuess(known, pks, last.0, c) == Some(g) {
        var i :| 0 <= i < |last.1| && last.1[i] == c;
        assert own[i] == Some(g);
      }
      if Some(g) in own {
        var i :| 0 <= i < |own| && own[i] == Some(g);
        assert last.1[i] in last.1;
      }
    }
  }

  /** The guesses a graph is built with, in order. */
  function GuessesOf(schema: Catalog, fks: ForeignKeyMap, pks: Catalog, naming: Naming): seq<Option<Guess>> {
    (if fks == [] then NameGuesses(naming, schema) else []) + KeyGuesses(Tables(schema), pks, schema)
  }

  lemma GuessesAre(schema: Catalog, fks: ForeignKeyMap, pks: Catalog, naming: Naming, g: Guess)
    ensures Some(g) in GuessesOf(schema, fks, pks, naming) <==> Guessed(schema, fks, pks, naming, g)
  {
    NameGuessesAre(naming, schema, g);
    KeyGuessesAre(Tables(schema), pks, schema, g);
    if e, c :| e in schema && c in e.1 && NameGuess(naming, e.0, c) == Some(g) && fks == [] {
      assert GuessedOf(schema, fks, pks, naming, e.0, c, g);
    }
    if e, c :| e in schema && c in e.1 && KeyGuess(Tables(schema), pks, e.0, c) == Some(g) {
      assert GuessedOf(schema, fks, pks, naming, e.0, c, g);
    }
    if e, c :| e in schema && c in e.1 && GuessedOf(schema, fks, pks, naming, e.0, c, g) {
      assert (fks == [] && NameGuess(naming, e.0, c) == Some(g)) || KeyGuess(Tables(schema), pks, e.0, c) == Some(g);
    }
  }

  lemma BuiltOfGuesses(schema: Catalog, fks: ForeignKeyMap, pks: Catalog, naming: Naming)
    ensures Built(schema, fks, pks, naming) ==
            LinkGuesses(LinkRefs(Unlinked(schema), AllRefs(fks)), GuessesOf(schema, fks, pks, naming))
  {
    if fks == [] {
      LinkGuessesConcat(Unlinked(schema), NameGuesses(naming, schema), KeyGuesses(Tables(schema), pks, schema));
    } else {
      assert [] + KeyGuesses(Tables(schema), pks, schema) == KeyGuesses(Tables(schema), pks, schema);
    }
  }

  lemma NotLinkedYet(schema: Catalog, fks: ForeignKeyMap, a: Table, b: Table)
    requires a in Tables(schema) && b in Tables(schema) && forall p :: !DeclaredPair(fks, a, b, p)
    ensures var g := LinkRefs(Unlinked(schema), AllRefs(fks)); a in g && b in g && Find(g[a], b) == None
  {
    DeclaredPairs(Unlinked(schema), AllRefs(fks), a, b);
    var ps := PairsBetween(AllRefs(fks), a, b);
    if ps != [] { PairsAreDeclared(fks, a, b, ps[0]); }
  }

  lemma SameJoins(schema: Catalog, fks: ForeignKeyMap, pks: Catalog, naming: Naming, a: Table, b: Table, p: KeyPair)
    ensures AnyJoins(GuessesOf(schema, fks, pks, naming), a, b, p) <==>
            exists g :: Guessed(schema, fks, pks, naming, g) && GuessJoins(g, a, b, p)
  {
    if g :| Some(g) in GuessesOf(schema, fks, pks, naming) && GuessJoins(g, a, b, p) {
      GuessesAre(schema, fks, pks, naming, g);
    }
    if g :| Guessed(schema, fks, pks, naming, g) && GuessJoins(g, a, b, p) {
      GuessesAre(schema, fks, pks, naming, g);
    }
  }

  /** Two known tables that no declared key joins are linked exactly when some column of the one
      is taken for a reference to the other, and then by the columns of such a guess alone. */
  lemma UndeclaredEdgeIff(schema: Catalog, fks: ForeignKeyMap, pks: Catalog, naming: Naming, a: Table, b: Table)
    requires a in Tables(schema) && b in Tables(schema) && forall p :: !DeclaredPair(fks, a, b, p)
    ensures a in Built(schema, fks, pks, naming)
    ensures var k := Find(Built(schema, fks, pks, naming)[a], b);
            && (k.Some? <==> exists g, p :: Guessed(schema, fks, pks, naming, g) && GuessJoins(g, a, b, p))
            && (k.Some? ==> k.value.Plain? &&
                            exists g :: Guessed(schema, fks, pks, naming, g) && GuessJoins(g, a, b, k.value.pair))
  {
    BuiltOfGuesses(schema, fks, pks, naming);
    NotLinkedYet(schema, fks, a, b);
    var g0, guesses := LinkRefs(Unlinked(schema), AllRefs(fks)), GuessesOf(schema, fks, pks, naming);
    GuessedEdge(g0, guesses, a, b);
    var k := Find(LinkGuesses(g0, guesses)[a], b);
    if k.Some? { SameJoins(schema, fks, pks, naming, a, b, k.value.pair); }
    if g, p :| Guessed(schema, fks, pks, naming, g) && GuessJoins(g, a, b, p) {
      SameJoins(schema, fks, pks, naming, a, b, p);
    }
  }
}
