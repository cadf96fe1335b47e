/** Whether a witness chain starts at the surface it is meant to start from. */
module RoleSurface {
  import opened Wrappers
  import opened RoleGraph
  import opened RolePath

  /** An entry unit of one of the system role's own files, as opposed to one that a spawn brought in. */
  ghost predicate IsSurfaceEntry(g: Graph, roots: seq<string>, u: Unit) {
    exists f :: f in roots && IsEntryUnit(g, f, u)
  }

  /** The chain starts at a surface entry with nothing behind it. */
  ghost predicate StartsAtTheSurface(g: Graph, roots: seq<string>, r: Exploration, chain: seq<Step>)
    requires chain != []
  {
    Back(r.parents, r.childOrigins, chain[0].unit) == None && IsSurfaceEntry(g, roots, chain[0].unit)
  }

  /** The spawn origins lead from the unit to a search root of a file no spawn added, and it is a surface entry. */
  ghost predicate OriginsLeadToTheSurface(g: Graph, roots: seq<string>, r: Exploration, unit: Unit)
    requires IsFound(r.parents, r.visited, r.childOrigins) && unit in r.visited
  {
    exists n: nat :: LastRootIsSurface(g, roots, r, unit, n)
  }

  ghost predicate LastRootIsSurface(g: Graph, roots: seq<string>, r: Exploration, unit: Unit, n: nat)
    requires IsFound(r.parents, r.visited, r.childOrigins) && unit in r.visited
  {
    var root := RootAt(r.parents, r.visited, r.childOrigins, unit, n);
    root.Some? && root.value.file !in r.childOrigins && IsSurfaceEntry(g, roots, root.value)
  }

  lemma SearchRootStep(parents: Parents, visited: seq<Unit>, u: Unit)
    requires FoundInOrder(parents, visited) && u in visited
    ensures u in parents
    ensures parents[u].Some? ==> parents[u].value in visited
    ensures parents[u].Some? ==>
      SearchRoot(parents, visited, u) == SearchRoot(parents, visited, parents[u].value)
    ensures parents[u].None? ==> SearchRoot(parents, visited, u) == u
  {
    hide FoundInOrder;
    ParentComesFirst(parents, visited, u);
  }

  /** Every unit of a chain has its search root among the roots on the way from the chain's unit. */
  lemma {:induction false} ChainGoesThroughRoots(parents: Parents, visited: seq<Unit>, origins: Origins, unit: Unit,
                                                 chain: seq<Step>, k: nat) returns (n: nat)
    requires IsFound(parents, visited, origins) && unit in visited && k < |chain|
    requires StepsBack(parents, origins, chain) && chain[|chain| - 1].unit == unit
    ensures chain[k].unit in visited
    ensures RootAt(parents, visited, origins, unit, n) == Some(SearchRoot(parents, visited, chain[k].unit))
    decreases |chain| - k
  {
    hide FoundInOrder, SearchRoot;
    if k == |chain| - 1 {
      n := 0;
    } else {
      var next := chain[k + 1].unit;
      n := ChainGoesThroughRoots(parents, visited, origins, unit, chain, k + 1);
      assert Back(parents, origins, next) == Some(chain[k].unit);
      SearchRootStep(parents, visited, next);
      if parents[next].None? {
        n := n + 1;
      }
    }
  }

  /** The head of a chain that comes to an end is the last root. */
  lemma HeadIsTheLastRoot(parents: Parents, visited: seq<Unit>, origins: Origins, unit: Unit, chain: seq<Step>)
      returns (n: nat)
    requires IsFound(parents, visited, origins) && unit in visited && IsChainTo(parents, origins, unit, chain)
    requires Back(parents, origins, chain[0].unit) == None
    ensures RootAt(parents, visited, origins, unit, n) == Some(chain[0].unit) && chain[0].unit.file !in origins
  {
    hide FoundInOrder, SearchRoot, RootAt, StepsBack;
    n := ChainGoesThroughRoots(parents, visited, origins, unit, chain, 0);
    SearchRootStep(parents, visited, chain[0].unit);
  }

  lemma LastRootIsUnique(parents: Parents, visited: seq<Unit>, origins: Origins, unit: Unit, n: nat, m: nat)
    requires IsFound(parents, visited, origins) && unit in visited
    requires RootAt(parents, visited, origins, unit, n).Some? && RootAt(parents, visited, origins, unit, m).Some?
    requires RootAt(parents, visited, origins, unit, n).value.file !in origins
    requires RootAt(parents, visited, origins, unit, m).value.file !in origins
    ensures n == m
  {
    hide IsFound, RootAt;
    if n < m {
      NoRootAfterTheLast(parents, visited, origins, unit, n, m);
    } else if m < n {
      NoRootAfterTheLast(parents, visited, origins, unit, m, n);
    }
  }

  lemma {:induction false} NoRootAfterTheLast(parents: Parents, visited: seq<Unit>, origins: Origins, unit: Unit,
                                              n: nat, m: nat)
    requires IsFound(parents, visited, origins) && unit in visited && n < m
    requires RootAt(parents, visited, origins, unit, n).Some?
    requires RootAt(parents, visited, origins, unit, n).value.file !in origins
    ensures RootAt(parents, visited, origins, unit, m) == None
    decreases m
  {
    hide IsFound, SearchRoot;
    if n + 1 < m {
      NoRootAfterTheLast(parents, visited, origins, unit, n, m - 1);
    }
  }

  lemma LastRootEndsRoots(parents: Parents, visited: seq<Unit>, origins: Origins, unit: Unit, n: nat)
    requires IsFound(parents, visited, origins) && unit in visited
    requires RootAt(parents, visited, origins, unit, n).Some?
    requires RootAt(parents, visited, origins, unit, n).value.file !in origins
    ensures RootsEnd(parents, visited, origins, unit)
  {
    hide IsFound, SearchRoot;
    var m := n + 1;
    assert RootAt(parents, visited, origins, unit, m) == None;
  }

  /**
   * A chain of an exploration starts at a surface entry with nothing behind it exactly when the spawn origins lead
   * from its unit to such an entry. They can fail to by coming round, or by ending at a unit that a spawned file
   * gave entry to.
   */
  lemma ChainStartsAtTheSurfaceIff(g: Graph, roots: seq<string>, r: Exploration, entry: seq<Unit>, unit: Unit,
                                   chain: seq<Step>)
    requires IsExploration(g, roots, r, entry) && unit in r.parents
    requires IsChainTo(r.parents, r.childOrigins, unit, chain)
    ensures IsFound(r.parents, r.visited, r.childOrigins) && unit in r.visited
    ensures StartsAtTheSurface(g, roots, r, chain) <==> OriginsLeadToTheSurface(g, roots, r, unit)
  {
    hide IsFound, RootAt, Back, StepsBack, IsSurfaceEntry, RootsEnd;
    ExplorationIsFound(g, roots, r, entry);
    var parents, visited, origins := r.parents, r.visited, r.childOrigins;
    if StartsAtTheSurface(g, roots, r, chain) {
      var n := HeadIsTheLastRoot(parents, visited, origins, unit, chain);
      assert LastRootIsSurface(g, roots, r, unit, n);
    }
    if OriginsLeadToTheSurface(g, roots, r, unit) {
      var n: nat :| LastRootIsSurface(g, roots, r, unit, n);
      LastRootEndsRoots(parents, visited, origins, unit, n);
      RootsEndUnlessRevisited(parents, visited, origins, unit);
      ChainComesToAnEndIff(parents, visited, origins, unit, chain);
      var m := HeadIsTheLastRoot(parents, visited, origins, unit, chain);
      LastRootIsUnique(parents, visited, origins, unit, n, m);
    }
  }

  // ---- Two graphs with chains that start elsewhere ----

  const SURFACE := Unit(0, "surface", "surface.ts")
  const ACTION := Unit(1, "action", "action.ts")
  const HELPER := Unit(2, "helper", "helper.ts")

  const DECLARATIONS := map[
    "surface.ts" := [Declaration(SURFACE, true, false, false, [])],
    "action.ts" := [Declaration(ACTION, true, false, false, [HELPER])]]

  const SURFACE_SPAWN := Spawn("surface.ts#surface", true, true, ["action.ts"])
  const HELPER_SPAWN := Spawn("helper.ts#helper", true, true, ["helper.ts"])

  /** The surface spawns action.ts, whose unit returns a helper that spawns its own file. */
  const CYCLIC := Graph(map[], map[SURFACE := [SURFACE_SPAWN], HELPER := [HELPER_SPAWN]], DECLARATIONS)

  /** The same with a helper that spawns nothing. */
  const RETURNED := Graph(map[], map[SURFACE := [SURFACE_SPAWN]], DECLARATIONS)

  lemma EntryUnitsAre(g: Graph)
    requires g.declarations == DECLARATIONS
    ensures IsEntryUnit(g, "surface.ts", SURFACE) && IsEntryUnit(g, "action.ts", HELPER)
    ensures !IsSurfaceEntry(g, ["surface.ts"], HELPER)
    ensures "action.ts" !in ["surface.ts"] && "helper.ts" !in ["surface.ts"] && "helper.ts" != "action.ts"
  {
    var surface := Declaration(SURFACE, true, false, false, []);
    var action := Declaration(ACTION, true, false, false, [HELPER]);
    assert "surface.ts"[0] == 's' && "action.ts"[0] == 'a' && "helper.ts"[0] == 'h';
    assert surface in Declarations(g, "surface.ts") && GivesEntry(surface, SURFACE);
    assert action in Declarations(g, "action.ts") && GivesEntry(action, HELPER);
  }

  lemma SpawnsAre(g: Graph, u: Unit, f: string)
    requires g == CYCLIC || g == RETURNED
    ensures SpawnsFile(g, u, f) <==>
      (u == SURFACE && f == "action.ts") || (g == CYCLIC && u == HELPER && f == "helper.ts")
  {
    assert "action.ts" in SURFACE_SPAWN.targets && "helper.ts" in HELPER_SPAWN.targets;
    assert SURFACE_SPAWN in Spawns(g, SURFACE) && Performs(g, SURFACE, SURFACE_SPAWN);
    assert g == CYCLIC ==> HELPER_SPAWN in Spawns(g, HELPER) && Performs(g, HELPER, HELPER_SPAWN);
  }

  /** Either way the helper is reached, as an entry unit of the spawned file. */
  lemma HelperIsReached(g: Graph, r: Exploration, entry: seq<Unit>)
    requires g == CYCLIC || g == RETURNED
    requires IsExploration(g, ["surface.ts"], r, entry)
    ensures HELPER in r.parents && r.parents[HELPER] == None
  {
    hide IsEntryUnit, SpawnsFile, IsEntrySeq, FoundInOrder, OriginsJustified, IsSurfaceEntry;
    EntryUnitsAre(g);
    SpawnsAre(g, SURFACE, "action.ts");
    assert "surface.ts" in ["surface.ts"];
    assert SURFACE in r.parents.Keys;
    assert HELPER in r.parents.Keys;
    assert forall u :: Successors(g, u) == [];
  }

  lemma LastStepsBack(parents: Parents, origins: Origins, chain: seq<Step>)
    requires StepsBack(parents, origins, chain) && |chain| > 1
    ensures Back(parents, origins, chain[|chain| - 1].unit) == Some(chain[|chain| - 2].unit)
  {
    hide Back;
  }

  /** A chain to a unit that nothing or only itself is behind holds nothing else. */
  lemma ChainIsAlone(parents: Parents, origins: Origins, unit: Unit, chain: seq<Step>)
    requires IsChainTo(parents, origins, unit, chain)
    requires Back(parents, origins, unit) == None || Back(parents, origins, unit) == Some(unit)
    ensures chain == [Step(unit, Origin(parents, origins, unit).Some?)]
  {
    hide Back, Origin;
    if |chain| > 1 {
      LastStepsBack(parents, origins, chain);
    } else {
      assert chain == [chain[0]];
      assert chain[0].childProcess <==> Origin(parents, origins, unit).Some?;
    }
  }

  /** Whatever order the search takes, the helper is its own origin: its chain goes round and shows no surface. */
  lemma ChainMayGoRound(r: Exploration, entry: seq<Unit>, chain: seq<Step>)
    requires IsExploration(CYCLIC, ["surface.ts"], r, entry)
    requires IsChainTo(r.parents, r.childOrigins, HELPER, chain)
    ensures HELPER in r.parents && chain == [Step(HELPER, true)]
    ensures Back(r.parents, r.childOrigins, HELPER) == Some(HELPER)
    ensures !IsSurfaceEntry(CYCLIC, ["surface.ts"], HELPER)
  {
    hide IsEntryUnit, SpawnsFile, IsEntrySeq, FoundInOrder, StepsBack, IsReachableSet, ParentsJustified, IsSurfaceEntry;
    EntryUnitsAre(CYCLIC);
    HelperIsReached(CYCLIC, r, entry);
    SpawnsAre(CYCLIC, HELPER, "helper.ts");
    assert "helper.ts" in r.entryFiles && "helper.ts" in r.childOrigins;
    SpawnsAre(CYCLIC, r.childOrigins["helper.ts"], "helper.ts");
    ChainIsAlone(r.parents, r.childOrigins, HELPER, chain);
  }

  /** And a returned helper of a file that nothing spawns has nothing behind it, without being of the surface. */
  lemma ChainMayEndAtAReturnedUnit(r: Exploration, entry: seq<Unit>, chain: seq<Step>)
    requires IsExploration(RETURNED, ["surface.ts"], r, entry)
    requires IsChainTo(r.parents, r.childOrigins, HELPER, chain)
    ensures HELPER in r.parents && chain == [Step(HELPER, false)]
    ensures Back(r.parents, r.childOrigins, HELPER) == None
    ensures !IsSurfaceEntry(RETURNED, ["surface.ts"], HELPER)
  {
    hide IsEntryUnit, SpawnsFile, IsEntrySeq, FoundInOrder, StepsBack, IsReachableSet, ParentsJustified, IsSurfaceEntry;
    EntryUnitsAre(RETURNED);
    HelperIsReached(RETURNED, r, entry);
    assert HELPER in CYCLIC.spawnTable && HELPER !in RETURNED.spawnTable;
    forall u ensures !SpawnsFile(RETURNED, u, "helper.ts") {
      SpawnsAre(RETURNED, u, "helper.ts");
    }
    ChainIsAlone(r.parents, r.childOrigins, HELPER, chain);
  }
}
