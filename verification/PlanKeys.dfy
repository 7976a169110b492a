/** From the catalog to the finished plan: which columns a plan's joins are made on. */
module PlanKeys {
  import opened Graph
  import opened JoinPlan
  import opened PlanFinish
  import opened RelationshipGraph
  import opened DeclaredGraph
  import ColumnRepair

  lemma EdgePair(schema: Catalog, fks: ForeignKeyMap, pks: Catalog, naming: Naming, j: Join)
    requires FollowsEdge(Built(schema, fks, pks, naming), j)
    ensures j.left in Tables(schema) && j.right in Tables(schema) && j.left in Built(schema, fks, pks, naming)
    ensures KeyPair(j.leftKey, j.rightKey) in AllPairs(Find(Built(schema, fks, pks, naming)[j.left], j.right))
  {
    var g := Built(schema, fks, pks, naming);
    BuiltIsMirrored(schema, fks, pks, naming);
    var e :| e in Neighbors(g, j.left) && e.neighbor == j.right && e.keys.pair == KeyPair(j.leftKey, j.rightKey);
    assert e == Edge(j.right, e.keys);
    FindIsEdge(g[j.left], j.right, e.keys);
  }

  /** Two tables that a declared key joins are joined in a finished plan on the columns of a
      declared key, each column in the table that it is declared of. */
  lemma JoinsOnDeclaredKeys(schema: Catalog, fks: ForeignKeyMap, pks: Catalog, naming: Naming, base: Table,
                            tables: seq<Table>, columns: ColumnRepair.Schema, cs: Clauses, j: Join)
    requires var g := Built(schema, fks, pks, naming); j in Finished(g, columns, base, Resolved(g, base, tables), cs).1
    requires exists p :: DeclaredPair(fks, j.left, j.right, p)
    ensures DeclaredPair(fks, j.left, j.right, KeyPair(j.leftKey, j.rightKey))
  {
    var g := Built(schema, fks, pks, naming);
    ResolvedFollows(g, base, tables);
    FinishedFollows(g, columns, base, Resolved(g, base, tables), cs, j);
    EdgePair(schema, fks, pks, naming, j);
    EdgeIsDeclared(schema, fks, pks, naming, j.left, j.right, KeyPair(j.leftKey, j.rightKey));
  }
}
