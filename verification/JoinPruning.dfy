/** Dropping repeated joins and joins no clause needs. */
module JoinPruning {
  import opened Graph
  import opened JoinSearch
  import opened JoinPlan
  import opened Names

  // --- _dedupe_joins ---

  function Deduped(joins: seq<Join>): seq<Join> {
    KeepFirst(joins, RightKey)
  }

  method DedupeJoins(joins: seq<Join>) returns (out: seq<Join>)
    ensures out == Deduped(joins)
  {
    var seen: set<string> := {};
    out := [];
    for i := 0 to |joins|
      invariant out == Deduped(joins[..i]) && seen == KeySet(out, RightKey)
    {
      var join := joins[i];
      assert joins[..i + 1][..i] == joins[..i];
      var right := Lower(join.right);
      if right == "" || right in seen {
        continue;
      }
      seen := seen + {right};
      out := out + [join];
    }
    assert joins[..|joins|] == joins;
  }

  lemma JoinKeyNotEmpty(g: JoinGraph, base: Table, j: Join)
    requires CleanNames(g) && IsTreeEdge(g, base, j)
    ensures RightKey(j) != "" && j.right != "" && j.left != "" && RightKey(j) != Lower(base)
  {
    TreeNodes(g, base, j);
  }

  lemma {:induction false} DedupedParents(g: JoinGraph, base: Table, joins: seq<Join>)
    requires CleanNames(g) && JoinTree(g, base, joins)
    ensures ParentsFirst(base, Deduped(joins))
  {
    if joins != [] {
      var rest, x := joins[..|joins| - 1], joins[|joins| - 1];
      TreePrefix(g, base, joins, |joins| - 1);
      DedupedParents(g, base, rest);
      KeepFirstKeys(rest, RightKey);
      assert LeftInScope(base, Deduped(rest), x.left) by {
        assert LeftInScope(base, rest, x.left);
        if j :| j in rest && RightKey(j) == Lower(x.left) {
          JoinKeyNotEmpty(g, base, j);
          assert RightKey(j) in KeySet(rest, RightKey);
          assert RightKey(j) in KeySet(Deduped(rest), RightKey);
        }
      }
      assert Deduped(rest) + [x][..0] == Deduped(rest);
      ParentsFirstAppend(base, Deduped(rest), [x]);
    }
  }

  lemma TreePrefix(g: JoinGraph, base: Table, joins: seq<Join>, n: nat)
    requires JoinTree(g, base, joins) && n <= |joins|
    ensures JoinTree(g, base, joins[..n])
  {
    assert forall j :: j in joins[..n] ==> j in joins;
    forall i | 0 <= i < n
      ensures LeftInScope(base, joins[..n][..i], joins[..n][i].left)
    {
      assert joins[..n][..i] == joins[..i];
    }
  }

  /** Dedupe of a join tree is the same tree with every table joined once. */
  lemma DedupedIsTree(g: JoinGraph, base: Table, joins: seq<Join>)
    requires CleanNames(g) && JoinTree(g, base, joins)
    ensures JoinTree(g, base, Deduped(joins)) && JoinedOnce(base, Deduped(joins))
    ensures forall j :: j in joins ==> exists k :: k in Deduped(joins) && RightKey(k) == RightKey(j)
    ensures forall j :: j in Deduped(joins) ==> j in joins
  {
    DedupedParents(g, base, joins);
    KeepFirstKeys(joins, RightKey);
    forall j | j in joins
      ensures RightKey(j) != Lower(base)
      ensures exists k :: k in Deduped(joins) && RightKey(k) == RightKey(j)
    {
      JoinKeyNotEmpty(g, base, j);
      assert RightKey(j) in KeySet(joins, RightKey);
      assert RightKey(j) in KeySet(Deduped(joins), RightKey);
    }
  }

  /** On resolved joins dedupe loses nothing: whatever it drops it has kept once already. */
  lemma DedupeDropsOnlyRepeats(g: JoinGraph, base: Table, tables: seq<Table>)
    requires CleanNames(g)
    ensures forall j :: j in Resolved(g, base, tables) <==> j in Deduped(Resolved(g, base, tables))
    ensures JoinTree(g, base, Deduped(Resolved(g, base, tables)))
    ensures JoinedOnce(base, Deduped(Resolved(g, base, tables)))
  {
    var joins := Resolved(g, base, tables);
    ResolvedIsTree(g, base, tables);
    DedupedIsTree(g, base, joins);
    forall j | j in joins
      ensures j in Deduped(joins)
    {
      var k :| k in Deduped(joins) && RightKey(k) == RightKey(j);
      TreeNodes(g, base, j);
      TreeNodes(g, base, k);
      EqualRepeats(joins, j, k);
    }
  }

  lemma EqualRepeats(joins: seq<Join>, j: Join, k: Join)
    requires RepeatsAreEqual(joins) && j in joins && k in joins && j.right == k.right
    ensures j == k
  {
    var a :| 0 <= a < |joins| && joins[a] == j;
    var b :| 0 <= b < |joins| && joins[b] == k;
    assert a < b ==> joins[a] == joins[b];
    assert b < a ==> joins[b] == joins[a];
  }

  // --- _prune_unused_joins ---

  function LeftKeys(j: Join): set<string> {
    if j.left == "" then {} else {Lower(j.left)}
  }

  /** The joins the backward walk keeps when it starts with `needed`. */
  function KeepNeeded(joins: seq<Join>, needed: set<string>): seq<Join> {
    if joins == [] then []
    else
      var init, last := joins[..|joins| - 1], joins[|joins| - 1];
      if RightKey(last) in needed then KeepNeeded(init, needed + LeftKeys(last)) + [last]
      else KeepNeeded(init, needed)
  }

  function Needed(cs: Clauses, base: Table): set<string> {
    LowerSet(Referenced(cs)) + {Lower(base)}
  }

  function Pruned(cs: Clauses, base: Table, joins: seq<Join>): seq<Join> {
    KeepNeeded(Deduped(joins), Needed(cs, base))
  }

  method WalkBack(joins: seq<Join>, referenced: set<string>) returns (kept: seq<Join>)
    ensures kept == KeepNeeded(joins, referenced)
  {
    var needed := referenced;
    kept := [];
    var i := |joins|;
    assert joins[..|joins|] == joins;
    assert KeepNeeded(joins, referenced) + [] == KeepNeeded(joins, referenced);
    while i > 0
      invariant 0 <= i <= |joins|
      invariant KeepNeeded(joins, referenced) == KeepNeeded(joins[..i], needed) + kept
    {
      i := i - 1;
      var join := joins[i];
      assert joins[..i + 1][..i] == joins[..i];
      if Lower(join.right) in needed {
        if join.left != "" {
          needed := needed + LeftKeys(join);
        } else {
          assert needed + LeftKeys(join) == needed;
        }
        kept := [join] + kept;
      }
    }
  }

  /** `a` lies on the join path from the base to `t`, or is `t` itself. */
  ghost predicate OnPathTo(g: JoinGraph, base: Table, a: Table, t: Table) {
    exists h :: h in BfsPath(g, base, t) && h.right == a
  }

  lemma OnPathStep(g: JoinGraph, base: Table, a: Table, j: Join)
    requires IsTreeEdge(g, base, j)
    ensures OnPathTo(g, base, a, j.right) <==> a == j.right || OnPathTo(g, base, a, j.left)
  {
    var p := BfsPath(g, base, j.right);
    JoinPathPrefix(g, base, j.right);
    var init, h := p[..|p| - 1], p[|p| - 1];
    assert p == init + [h];
    assert h in p && h.right == j.right;
  }

  lemma RootHasNoPath(g: JoinGraph, base: Table, a: Table)
    ensures !OnPathTo(g, base, a, base)
  {
    EmptyJoinPath(g, base, base);
  }

  /** Whatever lies on the path to a joined table is joined, and no later than it. */
  lemma {:induction false} AncestorsJoined(g: JoinGraph, base: Table, joins: seq<Join>, i: nat, a: Table)
    requires CleanNames(g) && JoinTree(g, base, joins) && i < |joins|
    requires OnPathTo(g, base, a, joins[i].right)
    ensures exists k :: 0 <= k <= i && joins[k].right == a
  {
    OnPathStep(g, base, a, joins[i]);
    if a != joins[i].right {
      RootHasNoPath(g, base, a);
      var k := ParentIndex(g, base, joins, i);
      AncestorsJoined(g, base, joins, k, a);
    }
  }

  lemma ParentIndex(g: JoinGraph, base: Table, joins: seq<Join>, i: nat) returns (k: nat)
    requires CleanNames(g) && JoinTree(g, base, joins) && i < |joins| && joins[i].left != base
    ensures k < i && joins[k].right == joins[i].left
  {
    assert LeftInScope(base, joins[..i], joins[i].left);
    TreeNodes(g, base, joins[i]);
    var j :| j in joins[..i] && RightKey(j) == Lower(joins[i].left);
    TreeNodes(g, base, j);
    k :| 0 <= k < i && joins[k] == j;
  }

  ghost predicate LeadsToNeeded(g: JoinGraph, base: Table, joins: seq<Join>, needed: set<string>, j: Join) {
    exists k :: k in joins && RightKey(k) in needed && OnPathTo(g, base, j.right, k.right)
  }

  lemma LastIsLeaf(g: JoinGraph, base: Table, joins: seq<Join>, j: Join)
    requires CleanNames(g) && JoinTree(g, base, joins) && JoinedOnce(base, joins) && joins != []
    requires j in joins[..|joins| - 1]
    ensures !OnPathTo(g, base, joins[|joins| - 1].right, j.right)
  {
    var i :| 0 <= i < |joins| - 1 && joins[i] == j;
    if OnPathTo(g, base, joins[|joins| - 1].right, j.right) {
      AncestorsJoined(g, base, joins, i, joins[|joins| - 1].right);
      assert false;
    }
  }

  /** Being an ancestor of the last join's table is being an ancestor of its parent. */
  lemma BeforeLast(base: Table, joins: seq<Join>, j: Join)
    requires JoinedOnce(base, joins) && joins != [] && j in joins[..|joins| - 1]
    ensures j.right != joins[|joins| - 1].right
  {
    var i :| 0 <= i < |joins| - 1 && joins[i] == j;
    assert RightKey(joins[i]) != RightKey(joins[|joins| - 1]);
  }

  lemma ParentNeeded(joins: seq<Join>, needed: set<string>, m: nat)
    requires m < |joins| - 1 && joins[m].right == joins[|joins| - 1].left && joins[|joins| - 1].left != ""
    ensures joins[m] in joins[..|joins| - 1] && RightKey(joins[m]) in needed + LeftKeys(joins[|joins| - 1])
  {
    assert joins[..|joins| - 1][m] == joins[m];
  }

  lemma LastNeeded(g: JoinGraph, base: Table, joins: seq<Join>, needed: set<string>, j: Join)
    requires CleanNames(g) && JoinTree(g, base, joins) && JoinedOnce(base, joins) && joins != []
    requires j in joins[..|joins| - 1] && OnPathTo(g, base, j.right, joins[|joins| - 1].right)
    ensures LeadsToNeeded(g, base, joins[..|joins| - 1], needed + LeftKeys(joins[|joins| - 1]), j)
  {
    var last := joins[|joins| - 1];
    BeforeLast(base, joins, j);
    OnPathStep(g, base, j.right, last);
    RootHasNoPath(g, base, j.right);
    JoinKeyNotEmpty(g, base, last);
    var m := ParentIndex(g, base, joins, |joins| - 1);
    ParentNeeded(joins, needed, m);
  }

  lemma NeededByLast(g: JoinGraph, base: Table, joins: seq<Join>, needed: set<string>, j: Join)
    requires CleanNames(g) && JoinTree(g, base, joins) && joins != []
    requires RightKey(joins[|joins| - 1]) in needed
    requires LeadsToNeeded(g, base, joins[..|joins| - 1], needed + LeftKeys(joins[|joins| - 1]), j)
    ensures LeadsToNeeded(g, base, joins, needed, j)
  {
    var init, last := joins[..|joins| - 1], joins[|joins| - 1];
    var k :| k in init && RightKey(k) in needed + LeftKeys(last) && OnPathTo(g, base, j.right, k.right);
    assert k in joins && last in joins;
    if RightKey(k) !in needed {
      TreeNodes(g, base, k);
      TreeNodes(g, base, last);
      OnPathStep(g, base, j.right, last);
    }
  }

  lemma StillNeeded(g: JoinGraph, base: Table, joins: seq<Join>, needed: set<string>, j: Join)
    requires CleanNames(g) && JoinTree(g, base, joins) && JoinedOnce(base, joins) && joins != []
    requires j in joins[..|joins| - 1] && LeadsToNeeded(g, base, joins, needed, j)
    ensures var init, last := joins[..|joins| - 1], joins[|joins| - 1];
            LeadsToNeeded(g, base, init, if RightKey(last) in needed then needed + LeftKeys(last) else needed, j)
  {
    var k :| k in joins && RightKey(k) in needed && OnPathTo(g, base, j.right, k.right);
    if k == joins[|joins| - 1] {
      LastNeeded(g, base, joins, needed, j);
    } else {
      InInit(joins, k);
      assert LeadsToNeeded(g, base, joins[..|joins| - 1], needed, j);
      NeededMore(g, base, joins[..|joins| - 1], needed, LeftKeys(joins[|joins| - 1]), j);
    }
  }

  lemma InInit<T>(xs: seq<T>, x: T)
    requires x in xs && x != xs[|xs| - 1]
    ensures x in xs[..|xs| - 1]
  {
    assert xs == xs[..|xs| - 1] + [xs[|xs| - 1]];
  }

  lemma NeededMore(g: JoinGraph, base: Table, joins: seq<Join>, needed: set<string>, more: set<string>, j: Join)
    requires LeadsToNeeded(g, base, joins, needed, j)
    ensures LeadsToNeeded(g, base, joins, needed + more, j)
  {
    var k :| k in joins && RightKey(k) in needed && OnPathTo(g, base, j.right, k.right);
    assert RightKey(k) in needed + more;
  }

  lemma NeededInInit(g: JoinGraph, base: Table, joins: seq<Join>, needed: set<string>, j: Join)
    requires joins != [] && LeadsToNeeded(g, base, joins[..|joins| - 1], needed, j)
    ensures LeadsToNeeded(g, base, joins, needed, j)
  {
    var k :| k in joins[..|joins| - 1] && RightKey(k) in needed && OnPathTo(g, base, j.right, k.right);
    assert k in joins;
  }

  lemma NeededWithoutLast(g: JoinGraph, base: Table, joins: seq<Join>, needed: set<string>, j: Join)
    requires CleanNames(g) && JoinTree(g, base, joins) && JoinedOnce(base, joins) && joins != []
    requires j in joins[..|joins| - 1]
    ensures var init, last := joins[..|joins| - 1], joins[|joins| - 1];
            LeadsToNeeded(g, base, joins, needed, j) <==>
            LeadsToNeeded(g, base, init, if RightKey(last) in needed then needed + LeftKeys(last) else needed, j)
  {
    var last := joins[|joins| - 1];
    if LeadsToNeeded(g, base, joins, needed, j) {
      StillNeeded(g, base, joins, needed, j);
    } else if RightKey(last) in needed {
      if LeadsToNeeded(g, base, joins[..|joins| - 1], needed + LeftKeys(last), j) {
        NeededByLast(g, base, joins, needed, j);
      }
    } else if LeadsToNeeded(g, base, joins[..|joins| - 1], needed, j) {
      NeededInInit(g, base, joins, needed, j);
    }
  }

  /** The backward walk keeps exactly the joins whose table is, in the join tree, a needed
      table or one of its ancestors. */
  lemma {:induction false} KeepsExactlyAncestors(g: JoinGraph, base: Table, joins: seq<Join>, needed: set<string>,
                                                 j: Join)
    requires CleanNames(g) && JoinTree(g, base, joins) && JoinedOnce(base, joins) && j in joins
    ensures j in KeepNeeded(joins, needed) <==> LeadsToNeeded(g, base, joins, needed, j)
  {
    var init, last := joins[..|joins| - 1], joins[|joins| - 1];
    if j == last {
      LastKept(g, base, joins, needed);
    } else {
      assert joins == init + [last];
      assert j in init;
      InitTree(g, base, joins);
      NeededWithoutLast(g, base, joins, needed, j);
      KeepsExactlyAncestors(g, base, init, if RightKey(last) in needed then needed + LeftKeys(last) else needed, j);
    }
  }

  lemma InitTree(g: JoinGraph, base: Table, joins: seq<Join>)
    requires JoinTree(g, base, joins) && JoinedOnce(base, joins) && joins != []
    ensures JoinTree(g, base, joins[..|joins| - 1]) && JoinedOnce(base, joins[..|joins| - 1])
    ensures joins[|joins| - 1] !in joins[..|joins| - 1]
  {
    TreePrefix(g, base, joins, |joins| - 1);
    OnceInit(base, joins);
  }

  lemma OnceInit(base: Table, joins: seq<Join>)
    requires JoinedOnce(base, joins) && joins != []
    ensures JoinedOnce(base, joins[..|joins| - 1]) && joins[|joins| - 1] !in joins[..|joins| - 1]
  {
    DistinctInit(joins, RightKey);
    assert forall j :: j in joins[..|joins| - 1] ==> j in joins;
  }

  lemma DistinctInit<T(!new)>(xs: seq<T>, key: T -> string)
    requires DistinctKeys(xs, key) && xs != []
    ensures DistinctKeys(xs[..|xs| - 1], key) && xs[|xs| - 1] !in xs[..|xs| - 1]
  {
    var init := xs[..|xs| - 1];
    assert forall i :: 0 <= i < |init| ==> init[i] == xs[i] && key(xs[i]) != key(xs[|xs| - 1]);
  }

  lemma LastKept(g: JoinGraph, base: Table, joins: seq<Join>, needed: set<string>)
    requires CleanNames(g) && JoinTree(g, base, joins) && JoinedOnce(base, joins) && joins != []
    ensures var last := joins[|joins| - 1];
            last in KeepNeeded(joins, needed) <==> LeadsToNeeded(g, base, joins, needed, last)
  {
    var init, last := joins[..|joins| - 1], joins[|joins| - 1];
    InitTree(g, base, joins);
    if RightKey(last) in needed {
      OnPathStep(g, base, last.right, last);
      assert last in joins;
    } else {
      KeptOnly(init, needed);
      assert joins == init + [last];
      forall k | k in init
        ensures !OnPathTo(g, base, last.right, k.right)
      {
        LastIsLeaf(g, base, joins, k);
      }
    }
  }

  lemma {:induction false} KeptOnly(joins: seq<Join>, needed: set<string>)
    ensures forall j :: j in KeepNeeded(joins, needed) ==> j in joins
    ensures forall j :: j in joins && RightKey(j) in needed ==> j in KeepNeeded(joins, needed)
  {
    if joins != [] {
      var init, last := joins[..|joins| - 1], joins[|joins| - 1];
      assert joins == init + [last];
      KeptOnly(init, needed);
      KeptOnly(init, needed + LeftKeys(last));
    }
  }

  lemma {:induction false} KeptParents(base: Table, joins: seq<Join>, needed: set<string>)
    requires ParentsFirst(base, joins)
    requires forall j :: j in joins ==> j.left != ""
    ensures ParentsFirst(base, KeepNeeded(joins, needed))
  {
    if joins != [] {
      var init, last := joins[..|joins| - 1], joins[|joins| - 1];
      forall i | 0 <= i < |init|
        ensures LeftInScope(base, init[..i], init[i].left)
      {
        assert init[..i] == joins[..i];
      }
      KeptParents(base, init, needed);
      if RightKey(last) in needed {
        var needed' := needed + LeftKeys(last);
        KeptParents(base, init, needed');
        KeptOnly(init, needed');
        assert last in joins && LeftInScope(base, init, last.left);
        var kept := KeepNeeded(init, needed');
        assert kept + [last][..0] == kept;
        ParentsFirstAppend(base, kept, [last]);
      }
    }
  }

  /** Pruning again changes nothing. */
  lemma {:induction false} KeepNeededTwice(joins: seq<Join>, needed: set<string>)
    ensures KeepNeeded(KeepNeeded(joins, needed), needed) == KeepNeeded(joins, needed)
  {
    if joins != [] {
      var init, last := joins[..|joins| - 1], joins[|joins| - 1];
      KeepNeededTwice(init, needed);
      if RightKey(last) in needed {
        KeepNeededTwice(init, needed + LeftKeys(last));
        var kept := KeepNeeded(init, needed + LeftKeys(last));
        assert (kept + [last])[..|kept|] == kept;
      }
    }
  }

  lemma {:induction false} KeptDistinct(joins: seq<Join>, needed: set<string>)
    requires DistinctKeys(joins, RightKey)
    ensures DistinctKeys(KeepNeeded(joins, needed), RightKey)
  {
    if joins != [] {
      var init, last := joins[..|joins| - 1], joins[|joins| - 1];
      KeptDistinct(init, needed);
      if RightKey(last) in needed {
        var kept := KeepNeeded(init, needed + LeftKeys(last));
        KeptDistinct(init, needed + LeftKeys(last));
        KeptOnly(init, needed + LeftKeys(last));
        forall i | 0 <= i < |kept|
          ensures RightKey(kept[i]) != RightKey(last)
        {
          assert kept[i] in init;
          var k :| 0 <= k < |init| && init[k] == kept[i];
          assert joins[k] == kept[i];
        }
      }
    }
  }

  lemma PrunedTwice(cs: Clauses, base: Table, joins: seq<Join>)
    ensures Pruned(cs, base, Pruned(cs, base, joins)) == Pruned(cs, base, joins)
  {
    var needed, unique := Needed(cs, base), Deduped(joins);
    var kept := KeepNeeded(unique, needed);
    KeepFirstKeys(joins, RightKey);
    KeptDistinct(unique, needed);
    KeptOnly(unique, needed);
    forall j | j in kept
      ensures RightKey(j) != ""
    {
      assert RightKey(j) in KeySet(unique, RightKey);
    }
    KeepFirstSame(kept, RightKey);
    KeepNeededTwice(unique, needed);
  }

  /** Pruning a join tree leaves a join tree that joins every table once, with every
      referenced table the tree had still in scope. */
  lemma PrunedIsTree(g: JoinGraph, cs: Clauses, base: Table, joins: seq<Join>)
    requires CleanNames(g) && JoinTree(g, base, joins)
    ensures JoinTree(g, base, Pruned(cs, base, joins)) && JoinedOnce(base, Pruned(cs, base, joins))
    ensures forall j :: j in joins && RightKey(j) in Needed(cs, base) ==>
              exists k :: k in Pruned(cs, base, joins) && RightKey(k) == RightKey(j)
  {
    var needed, unique := Needed(cs, base), Deduped(joins);
    var kept := KeepNeeded(unique, needed);
    DedupedIsTree(g, base, joins);
    KeptOnly(unique, needed);
    KeptDistinct(unique, needed);
    forall j | j in unique
      ensures j.left != ""
    {
      JoinKeyNotEmpty(g, base, j);
    }
    KeptParents(base, unique, needed);
    forall j | j in joins && RightKey(j) in needed
      ensures exists k :: k in kept && RightKey(k) == RightKey(j)
    {
      var k :| k in unique && RightKey(k) == RightKey(j);
      assert k in kept;
    }
  }
}
