/** The witness chain the report prints for a reachable role. */
module RolePath {
  import opened Wrappers
  import opened RoleGraph

  /** One printed step; a child-process step is labelled as such. */
  datatype Step = Step(unit: Unit, childProcess: bool)

  type Parents = map<Unit, Option<Unit>>

  type Origins = map<string, Unit>

  /** The spawner a search root continues through. */
  function Origin(parents: Parents, origins: Origins, u: Unit): Option<Unit> {
    if u in parents && parents[u] == None && u.file in origins then Some(origins[u.file]) else None
  }

  /** The unit a chain steps back to: the spawner of a search root, otherwise the recorded parent. */
  function Back(parents: Parents, origins: Origins, u: Unit): Option<Unit> {
    if Origin(parents, origins, u).Some? then Origin(parents, origins, u)
    else if u in parents then parents[u] else None
  }

  /** `n` steps back from `u`, if there are that many. */
  function BackTimes(parents: Parents, origins: Origins, u: Unit, n: nat): Option<Unit>
    decreases n
  {
    if n == 0 then Some(u)
    else match Back(parents, origins, u)
      case None => None
      case Some(v) => BackTimes(parents, origins, v, n - 1)
  }

  /** Stepping back from `u` comes to an end instead of going round a cycle. */
  ghost predicate RunsOut(parents: Parents, origins: Origins, u: Unit) {
    exists n: nat :: BackTimes(parents, origins, u, n) == None
  }

  ghost predicate HasUnit(chain: seq<Step>, u: Unit) {
    exists i :: 0 <= i < |chain| && chain[i].unit == u
  }

  ghost predicate RepeatFree(chain: seq<Step>) {
    forall i, j :: 0 <= i < j < |chain| ==> chain[i].unit != chain[j].unit
  }

  /** Each step is where its successor steps back to, and is labelled by how it does so. */
  ghost predicate StepsBack(parents: Parents, origins: Origins, chain: seq<Step>) {
    && (forall i {:trigger chain[i].unit} :: 0 < i < |chain| ==>
        Back(parents, origins, chain[i].unit) == Some(chain[i - 1].unit))
    && (forall i {:trigger chain[i].childProcess} :: 0 <= i < |chain| ==>
        (chain[i].childProcess <==> Origin(parents, origins, chain[i].unit).Some?))
  }

  /** Every unit a chain from `unit` can hold: the bound that makes the loop stop. */
  ghost function Steppable(parents: Parents, origins: Origins, unit: Unit): set<Unit> {
    {unit} + origins.Values + set u | u in parents && parents[u].Some? :: parents[u].value
  }

  lemma BackIsSteppable(parents: Parents, origins: Origins, unit: Unit, u: Unit)
    ensures Back(parents, origins, u).Some? ==> Back(parents, origins, u).value in Steppable(parents, origins, unit)
  {
    if u in parents && parents[u] == None && u.file in origins {
      assert origins[u.file] in origins.Values;
    }
  }

  /** Putting the unit a chain steps back to in front of it keeps what a chain promises. */
  lemma Prepend(parents: Parents, origins: Origins, chain: seq<Step>, u: Unit)
    requires RepeatFree(chain) && StepsBack(parents, origins, chain) && !HasUnit(chain, u)
    requires chain != [] ==> Back(parents, origins, chain[0].unit) == Some(u)
    ensures var longer := [Step(u, Origin(parents, origins, u).Some?)] + chain;
      && RepeatFree(longer) && StepsBack(parents, origins, longer)
      && forall v :: HasUnit(longer, v) <==> HasUnit(chain, v) || v == u
  {
    var longer := [Step(u, Origin(parents, origins, u).Some?)] + chain;
    assert longer[0].unit == u;
    forall v | HasUnit(chain, v) ensures HasUnit(longer, v) {
      var i :| 0 <= i < |chain| && chain[i].unit == v;
      assert longer[i + 1].unit == v;
    }
    forall i | 0 < i < |longer| ensures longer[i].unit != u {
      assert longer[i] == chain[i - 1];
    }
  }

  /** A chain to `unit` that goes back until nothing is behind or what is behind is in it. */
  ghost predicate IsChainTo(parents: Parents, origins: Origins, unit: Unit, chain: seq<Step>) {
    && chain != [] && chain[|chain| - 1].unit == unit
    && RepeatFree(chain) && StepsBack(parents, origins, chain)
    && match Back(parents, origins, chain[0].unit)
      case None => true
      case Some(v) => HasUnit(chain, v)
  }

  method PathTo(parents: Parents, unit: Unit, origins: Origins) returns (chain: seq<Step>)
    ensures IsChainTo(parents, origins, unit, chain)
  {
    chain := [];
    var seen: set<Unit> := {};
    var current := Some(unit);
    while current.Some? && current.value !in seen
      invariant chain == [] ==> current == Some(unit)
      invariant chain != [] ==> chain[|chain| - 1].unit == unit && current == Back(parents, origins, chain[0].unit)
      invariant forall u :: u in seen <==> HasUnit(chain, u)
      invariant RepeatFree(chain) && StepsBack(parents, origins, chain)
      invariant current.Some? ==> current.value in Steppable(parents, origins, unit)
      decreases Steppable(parents, origins, unit) - seen
    {
      var u := current.value;
      seen := seen + {u};
      Prepend(parents, origins, chain, u);
      chain := [Step(u, Origin(parents, origins, u).Some?)] + chain;
      current := Back(parents, origins, u);
      BackIsSteppable(parents, origins, unit, u);
    }
  }

  /** A chain over what the exploration found links each pair by a graph edge or by a spawn of the later unit's file. */
  lemma ChainIsAWitness(g: Graph, roots: seq<string>, r: Exploration, entry: seq<Unit>, chain: seq<Step>, i: nat)
    requires ParentsJustified(g, entry, r.parents)
    requires OriginsJustified(g, r.parents.Keys, roots, r.entryFiles, r.childOrigins)
    requires StepsBack(r.parents, r.childOrigins, chain) && 0 < i < |chain|
    ensures chain[i - 1].unit in r.parents
    ensures if chain[i].childProcess
      then SpawnsFile(g, chain[i - 1].unit, chain[i].unit.file)
      else chain[i].unit in Successors(g, chain[i - 1].unit)
  {
    var u := chain[i].unit;
    assert chain[i].childProcess <==> Origin(r.parents, r.childOrigins, u).Some?;
  }

  lemma {:induction false} BackTimesAlong(parents: Parents, origins: Origins, chain: seq<Step>, k: nat)
    requires StepsBack(parents, origins, chain) && k < |chain|
    ensures forall n: nat ::
      BackTimes(parents, origins, chain[k].unit, n + k) == BackTimes(parents, origins, chain[0].unit, n)
    decreases k
  {
    if k > 0 {
      BackTimesAlong(parents, origins, chain, k - 1);
      forall n: nat
        ensures BackTimes(parents, origins, chain[k].unit, n + k) == BackTimes(parents, origins, chain[0].unit, n)
      {
        assert BackTimes(parents, origins, chain[k].unit, n + k)
            == BackTimes(parents, origins, chain[k - 1].unit, n + (k - 1));
      }
    }
  }

  /** If the first unit of a chain steps back into the chain, no number of steps runs out. */
  lemma {:induction false} CycleNeverRunsOut(parents: Parents, origins: Origins, chain: seq<Step>, k: nat, n: nat)
    requires StepsBack(parents, origins, chain) && k < |chain|
    requires Back(parents, origins, chain[0].unit).Some?
    requires HasUnit(chain, Back(parents, origins, chain[0].unit).value)
    ensures BackTimes(parents, origins, chain[k].unit, n).Some?
    decreases n
  {
    if n > 0 {
      if k > 0 {
        assert Back(parents, origins, chain[k].unit) == Some(chain[k - 1].unit);
        CycleNeverRunsOut(parents, origins, chain, k - 1, n - 1);
      } else {
        var j :| 0 <= j < |chain| && chain[j].unit == Back(parents, origins, chain[0].unit).value;
        CycleNeverRunsOut(parents, origins, chain, j, n - 1);
      }
    }
  }

  /**
   * A chain starts at a unit with nothing behind it exactly when stepping back from the requested
   * unit ends; on a cycle it stops at a repeated unit instead.
   */
  lemma StartsAtARootIffRunsOut(parents: Parents, origins: Origins, unit: Unit, chain: seq<Step>)
    requires IsChainTo(parents, origins, unit, chain)
    ensures Back(parents, origins, chain[0].unit) == None <==> RunsOut(parents, origins, unit)
  {
    var last := |chain| - 1;
    if Back(parents, origins, chain[0].unit) == None {
      BackTimesAlong(parents, origins, chain, last);
      assert BackTimes(parents, origins, chain[0].unit, 1) == None;
      assert BackTimes(parents, origins, chain[last].unit, 1 + last) == None;
    } else if n: nat :| BackTimes(parents, origins, chain[last].unit, n) == None {
      CycleNeverRunsOut(parents, origins, chain, last, n);
    }
  }

  /** A root of an exploration with nothing behind it is an entry unit of a file no spawn added. */
  lemma RootIsEntry(g: Graph, roots: seq<string>, r: Exploration, entry: seq<Unit>, u: Unit)
    requires ParentsJustified(g, entry, r.parents) && IsEntrySeq(g, r.entryFiles, entry)
    requires OriginsJustified(g, r.parents.Keys, roots, r.entryFiles, r.childOrigins)
    requires u in r.parents && Back(r.parents, r.childOrigins, u) == None
    ensures u.file in r.entryFiles ==> u.file in roots
    ensures exists f :: f in r.entryFiles && IsEntryUnit(g, f, u)
  {
  }

  // ---- When a chain ends where nothing is behind ----

  /** What an exploration promises about its parents and spawn origins. */
  ghost predicate IsFound(parents: Parents, visited: seq<Unit>, origins: Origins) {
    && FoundInOrder(parents, visited) && (forall u :: u in visited <==> u in parents)
    && forall f :: f in origins ==> origins[f] in parents
  }

  lemma ExplorationIsFound(g: Graph, roots: seq<string>, r: Exploration, entry: seq<Unit>)
    requires IsExploration(g, roots, r, entry)
    ensures IsFound(r.parents, r.visited, r.childOrigins)
  {
  }

  /** Where a unit stands in the order the search found it. */
  function Place(visited: seq<Unit>, u: Unit): (k: nat)
    requires u in visited
    ensures k < |visited| && visited[k] == u && u !in visited[..k]
  {
    if visited[0] == u then 0 else
      var k := 1 + Place(visited[1..], u);
      assert visited[..k] == [visited[0]] + visited[1..][..k - 1];
      k
  }

  lemma ParentComesFirst(parents: Parents, visited: seq<Unit>, u: Unit)
    requires FoundInOrder(parents, visited) && u in visited
    ensures u in parents && (parents[u].Some? ==>
      parents[u].value in visited && Place(visited, parents[u].value) < Place(visited, u))
  {
    var k := Place(visited, u);
    assert FoundAfterItsParent(parents, visited, k);
    if parents[u].Some? {
      var p := parents[u].value;
      var j :| 0 <= j < k && visited[..k][j] == p;
      PlaceIsFirst(visited, p, j);
    }
  }

  lemma {:induction false} PlaceIsFirst(visited: seq<Unit>, u: Unit, j: nat)
    requires j < |visited| && visited[j] == u
    ensures Place(visited, u) <= j
  {
    if visited[0] != u {
      PlaceIsFirst(visited[1..], u, j - 1);
    }
  }

  /** The unit the search started from when it came to `u`. */
  function SearchRoot(parents: Parents, visited: seq<Unit>, u: Unit): (root: Unit)
    requires FoundInOrder(parents, visited) && u in visited
    ensures root in visited && root in parents && parents[root] == None
    decreases Place(visited, u)
  {
    ParentComesFirst(parents, visited, u);
    if parents[u].Some? then SearchRoot(parents, visited, parents[u].value) else u
  }

  /** The search root of the unit that spawned the root's file. */
  function NextRoot(parents: Parents, visited: seq<Unit>, origins: Origins, root: Unit): (next: Option<Unit>)
    requires IsFound(parents, visited, origins)
    ensures next.Some? ==> next.value in visited && next.value in parents && parents[next.value] == None
  {
    if root.file in origins then Some(SearchRoot(parents, visited, origins[root.file])) else None
  }

  /** The `n`-th root on the way from `u` through the spawn origins. */
  function RootAt(parents: Parents, visited: seq<Unit>, origins: Origins, u: Unit, n: nat): (root: Option<Unit>)
    requires IsFound(parents, visited, origins) && u in visited
    ensures root.Some? ==> root.value in visited && root.value in parents && parents[root.value] == None
  {
    if n == 0 then Some(SearchRoot(parents, visited, u))
    else match RootAt(parents, visited, origins, u, n - 1)
      case None => None
      case Some(root) => NextRoot(parents, visited, origins, root)
  }

  ghost predicate RootsEnd(parents: Parents, visited: seq<Unit>, origins: Origins, u: Unit)
    requires IsFound(parents, visited, origins) && u in visited
  {
    exists n :: RootAt(parents, visited, origins, u, n) == None
  }

  /** The spawn origins lead from `u` back to a search root they have been through. */
  ghost predicate RevisitsARoot(parents: Parents, visited: seq<Unit>, origins: Origins, u: Unit)
    requires IsFound(parents, visited, origins) && u in visited
  {
    exists i: nat, j: nat :: SameRoot(parents, visited, origins, u, i, j)
  }

  ghost predicate SameRoot(parents: Parents, visited: seq<Unit>, origins: Origins, u: Unit, i: nat, j: nat)
    requires IsFound(parents, visited, origins) && u in visited
  {
    && i < j && RootAt(parents, visited, origins, u, j).Some?
    && RootAt(parents, visited, origins, u, i) == RootAt(parents, visited, origins, u, j)
  }

  // Roots either end or come round.

  lemma {:induction false} RootsMoveTogether(parents: Parents, visited: seq<Unit>, origins: Origins, u: Unit,
                                             i: nat, j: nat, m: nat)
    requires IsFound(parents, visited, origins) && u in visited
    requires RootAt(parents, visited, origins, u, i) == RootAt(parents, visited, origins, u, j)
    ensures RootAt(parents, visited, origins, u, i + m) == RootAt(parents, visited, origins, u, j + m)
    decreases m
  {
    hide IsFound, NextRoot, SearchRoot;
    if m > 0 {
      RootsMoveTogether(parents, visited, origins, u, i, j, m - 1);
    }
  }

  lemma {:induction false} EarlierRootsAreThere(parents: Parents, visited: seq<Unit>, origins: Origins, u: Unit,
                                                n: nat, m: nat)
    requires IsFound(parents, visited, origins) && u in visited
    requires n <= m && RootAt(parents, visited, origins, u, m).Some?
    ensures RootAt(parents, visited, origins, u, n).Some?
    decreases m
  {
    hide IsFound, NextRoot, SearchRoot;
    if n < m {
      EarlierRootsAreThere(parents, visited, origins, u, n, m - 1);
    }
  }

  lemma {:induction false} ComingRoundNeverEnds(parents: Parents, visited: seq<Unit>, origins: Origins, u: Unit,
                                                i: nat, j: nat, n: nat)
    requires IsFound(parents, visited, origins) && u in visited && SameRoot(parents, visited, origins, u, i, j)
    ensures RootAt(parents, visited, origins, u, n).Some?
    decreases n
  {
    hide IsFound, RootAt;
    if n <= j {
      EarlierRootsAreThere(parents, visited, origins, u, n, j);
    } else {
      RootsMoveTogether(parents, visited, origins, u, i, j, n - j);
      ComingRoundNeverEnds(parents, visited, origins, u, i, j, i + (n - j));
    }
  }

  /** The first `n` roots. */
  ghost function RootSet(parents: Parents, visited: seq<Unit>, origins: Origins, u: Unit, n: nat): (t: set<Unit>)
    requires IsFound(parents, visited, origins) && u in visited
    ensures t <= parents.Keys
  {
    if n == 0 then {} else
      var root := RootAt(parents, visited, origins, u, n - 1);
      RootSet(parents, visited, origins, u, n - 1) + if root.Some? then {root.value} else {}
  }

  lemma {:induction false} RootSetMember(parents: Parents, visited: seq<Unit>, origins: Origins, u: Unit, n: nat,
                                         x: Unit)
    requires IsFound(parents, visited, origins) && u in visited && x in RootSet(parents, visited, origins, u, n)
    ensures exists i: nat :: i < n && RootAt(parents, visited, origins, u, i) == Some(x)
  {
    hide IsFound, RootAt;
    if n > 0 && RootAt(parents, visited, origins, u, n - 1) != Some(x) {
      RootSetMember(parents, visited, origins, u, n - 1, x);
    }
  }

  /** As long as no root comes again, there are as many of them as steps. */
  lemma {:induction false} NewRootsAddUp(parents: Parents, visited: seq<Unit>, origins: Origins, u: Unit, n: nat)
    requires IsFound(parents, visited, origins) && u in visited
    requires !RevisitsARoot(parents, visited, origins, u) && !RootsEnd(parents, visited, origins, u)
    ensures |RootSet(parents, visited, origins, u, n)| == n
  {
    hide IsFound, RootAt;
    if n > 0 {
      NewRootsAddUp(parents, visited, origins, u, n - 1);
      assert RootAt(parents, visited, origins, u, n - 1).Some?;
      var x := RootAt(parents, visited, origins, u, n - 1).value;
      if x in RootSet(parents, visited, origins, u, n - 1) {
        RootCameAgain(parents, visited, origins, u, n - 1);
      }
    }
  }

  lemma RootCameAgain(parents: Parents, visited: seq<Unit>, origins: Origins, u: Unit, n: nat)
    requires IsFound(parents, visited, origins) && u in visited && RootAt(parents, visited, origins, u, n).Some?
    requires RootAt(parents, visited, origins, u, n).value in RootSet(parents, visited, origins, u, n)
    ensures RevisitsARoot(parents, visited, origins, u)
  {
    hide IsFound, RootAt;
    var x := RootAt(parents, visited, origins, u, n).value;
    RootSetMember(parents, visited, origins, u, n, x);
    var i: nat :| i < n && RootAt(parents, visited, origins, u, i) == Some(x);
    assert SameRoot(parents, visited, origins, u, i, n);
  }

  lemma SmallerThanWhole(a: set<Unit>, b: set<Unit>)
    requires a <= b
    ensures |a| <= |b|
  {
    assert b == a + (b - a);
  }

  lemma RootsEndUnlessRevisited(parents: Parents, visited: seq<Unit>, origins: Origins, u: Unit)
    requires IsFound(parents, visited, origins) && u in visited
    ensures RootsEnd(parents, visited, origins, u) <==> !RevisitsARoot(parents, visited, origins, u)
  {
    hide IsFound, RootAt;
    if RevisitsARoot(parents, visited, origins, u) {
      var i: nat, j: nat :| SameRoot(parents, visited, origins, u, i, j);
      forall n ensures RootAt(parents, visited, origins, u, n).Some? {
        ComingRoundNeverEnds(parents, visited, origins, u, i, j, n);
      }
    } else if !RootsEnd(parents, visited, origins, u) {
      var n := |parents.Keys| + 1;
      NewRootsAddUp(parents, visited, origins, u, n);
      SmallerThanWhole(RootSet(parents, visited, origins, u, n), parents.Keys);
    }
  }

  // Stepping back runs out exactly when the roots end.

  lemma RunsOutStep(parents: Parents, origins: Origins, u: Unit)
    ensures RunsOut(parents, origins, u) <==>
      Back(parents, origins, u).None? || RunsOut(parents, origins, Back(parents, origins, u).value)
  {
    hide Back;
    if Back(parents, origins, u).None? {
      assert BackTimes(parents, origins, u, 1) == None;
    } else {
      var v := Back(parents, origins, u).value;
      if RunsOut(parents, origins, u) {
        var n: nat :| BackTimes(parents, origins, u, n) == None;
        assert BackTimes(parents, origins, v, n - 1) == None;
      }
      if RunsOut(parents, origins, v) {
        var n: nat :| BackTimes(parents, origins, v, n) == None;
        var m := n + 1;
        assert BackTimes(parents, origins, u, m) == None;
      }
    }
  }

  /** Stepping back through parents comes to the search root. */
  lemma {:induction false} RunsOutAtTheRoot(parents: Parents, visited: seq<Unit>, origins: Origins, u: Unit)
    requires FoundInOrder(parents, visited) && u in visited
    ensures RunsOut(parents, origins, u) <==> RunsOut(parents, origins, SearchRoot(parents, visited, u))
    decreases Place(visited, u)
  {
    hide RunsOut, FoundInOrder;
    ParentComesFirst(parents, visited, u);
    if parents[u].Some? {
      RunsOutStep(parents, origins, u);
      RunsOutAtTheRoot(parents, visited, origins, parents[u].value);
    }
  }

  /** From a root the way goes on exactly when its file was spawned. */
  lemma RunsOutFromARoot(parents: Parents, visited: seq<Unit>, origins: Origins, root: Unit)
    requires IsFound(parents, visited, origins) && root in parents && parents[root] == None
    ensures var next := NextRoot(parents, visited, origins, root);
      RunsOut(parents, origins, root) <==> next.None? || RunsOut(parents, origins, next.value)
  {
    hide RunsOut, SearchRoot;
    RunsOutStep(parents, origins, root);
    if root.file in origins {
      RunsOutAtTheRoot(parents, visited, origins, origins[root.file]);
    }
  }

  /** Either the roots ended by the `n`-th, or whether stepping back runs out is decided there. */
  lemma {:induction false} RunsOutAtRoots(parents: Parents, visited: seq<Unit>, origins: Origins, u: Unit, n: nat)
    requires IsFound(parents, visited, origins) && u in visited
    ensures var root := RootAt(parents, visited, origins, u, n);
      RunsOut(parents, origins, u) <==> root.None? || RunsOut(parents, origins, root.value)
    decreases n
  {
    hide RunsOut, SearchRoot, NextRoot;
    if n == 0 {
      RunsOutAtTheRoot(parents, visited, origins, u);
    } else {
      RunsOutAtRoots(parents, visited, origins, u, n - 1);
      var before := RootAt(parents, visited, origins, u, n - 1);
      if before.Some? {
        RunsOutFromARoot(parents, visited, origins, before.value);
      }
    }
  }

  lemma RootsOfTheParent(parents: Parents, visited: seq<Unit>, origins: Origins, u: Unit, v: Unit)
    requires IsFound(parents, visited, origins) && u in visited && Back(parents, origins, u) == Some(v)
    ensures v in visited && (RootsEnd(parents, visited, origins, v) ==> RootsEnd(parents, visited, origins, u))
  {
    hide FoundInOrder;
    ParentComesFirst(parents, visited, u);
    if RootsEnd(parents, visited, origins, v) {
      var n: nat :| RootAt(parents, visited, origins, v, n) == None;
      if parents[u].Some? {
        SameRootsFrom(parents, visited, origins, u, 0, v, n);
      } else {
        SameRootsFrom(parents, visited, origins, u, 1, v, n);
      }
    }
  }

  /** If one unit's `i`-th root is another's first, the roots go on alike. */
  lemma {:induction false} SameRootsFrom(parents: Parents, visited: seq<Unit>, origins: Origins, u: Unit, i: nat,
                                         v: Unit, n: nat)
    requires IsFound(parents, visited, origins) && u in visited && v in visited
    requires RootAt(parents, visited, origins, u, i) == Some(SearchRoot(parents, visited, v))
    ensures RootAt(parents, visited, origins, u, i + n) == RootAt(parents, visited, origins, v, n)
    decreases n
  {
    hide IsFound, SearchRoot, NextRoot;
    if n > 0 {
      SameRootsFrom(parents, visited, origins, u, i, v, n - 1);
    }
  }

  lemma {:induction false} RunningOutEndsRoots(parents: Parents, visited: seq<Unit>, origins: Origins, u: Unit, n: nat)
    requires IsFound(parents, visited, origins) && u in visited && BackTimes(parents, origins, u, n) == None
    ensures RootsEnd(parents, visited, origins, u)
    decreases n
  {
    hide FoundInOrder, SearchRoot, RootsEnd;
    match Back(parents, origins, u) {
      case None => NothingBehindEndsRoots(parents, visited, origins, u);
      case Some(v) =>
        RootsOfTheParent(parents, visited, origins, u, v);
        RunningOutEndsRoots(parents, visited, origins, v, n - 1);
    }
  }

  lemma NothingBehindEndsRoots(parents: Parents, visited: seq<Unit>, origins: Origins, u: Unit)
    requires IsFound(parents, visited, origins) && u in visited && Back(parents, origins, u) == None
    ensures RootsEnd(parents, visited, origins, u)
  {
    hide FoundInOrder;
    ParentComesFirst(parents, visited, u);
    assert SearchRoot(parents, visited, u) == u;
    assert RootAt(parents, visited, origins, u, 0) == Some(u);
    assert RootAt(parents, visited, origins, u, 1) == None;
  }

  lemma RunsOutIffRootsEnd(parents: Parents, visited: seq<Unit>, origins: Origins, u: Unit)
    requires IsFound(parents, visited, origins) && u in visited
    ensures RunsOut(parents, origins, u) <==> RootsEnd(parents, visited, origins, u)
  {
    hide IsFound, RootAt;
    if RootsEnd(parents, visited, origins, u) {
      var n: nat :| RootAt(parents, visited, origins, u, n) == None;
      RunsOutAtRoots(parents, visited, origins, u, n);
    }
    if RunsOut(parents, origins, u) {
      var n: nat :| BackTimes(parents, origins, u, n) == None;
      RunningOutEndsRoots(parents, visited, origins, u, n);
    }
  }

  /**
   * A chain starts where nothing is behind exactly when the spawn origins of its unit's search root do not come
   * round to a search root they have been through.
   */
  lemma ChainComesToAnEndIff(parents: Parents, visited: seq<Unit>, origins: Origins, unit: Unit, chain: seq<Step>)
    requires IsFound(parents, visited, origins) && unit in visited && IsChainTo(parents, origins, unit, chain)
    ensures Back(parents, origins, chain[0].unit) == None <==> !RevisitsARoot(parents, visited, origins, unit)
  {
    hide IsFound, RunsOut, RootsEnd, RevisitsARoot, Back;
    StartsAtARootIffRunsOut(parents, origins, unit, chain);
    RunsOutIffRootsEnd(parents, visited, origins, unit);
    RootsEndUnlessRevisited(parents, visited, origins, unit);
  }

  /** So without spawns every chain starts at an entry unit: the search never finds a unit before its parent. */
  lemma WithoutOriginsChainsStartAtEntries(g: Graph, entry: seq<Unit>, parents: Parents, visited: seq<Unit>,
                                           unit: Unit, chain: seq<Step>)
    requires ParentsJustified(g, entry, parents) && IsFound(parents, visited, map[])
    requires unit in visited && IsChainTo(parents, map[], unit, chain)
    ensures chain[0].unit in entry
  {
    hide IsFound, IsChainTo;
    NoOriginsNoReturn(parents, visited, unit);
    ChainComesToAnEndIff(parents, visited, map[], unit, chain);
    ChainHeadIsRecorded(parents, visited, map[], unit, chain);
  }

  lemma NoOriginsNoReturn(parents: Parents, visited: seq<Unit>, unit: Unit)
    requires IsFound(parents, visited, map[]) && unit in visited
    ensures !RevisitsARoot(parents, visited, map[], unit)
  {
    hide IsFound, SearchRoot;
    assert RootAt(parents, visited, map[], unit, 1) == None;
    RootsEndUnlessRevisited(parents, visited, map[], unit);
  }

  lemma {:induction false} ChainIsRecorded(parents: Parents, visited: seq<Unit>, origins: Origins, chain: seq<Step>,
                                           k: nat)
    requires IsFound(parents, visited, origins) && StepsBack(parents, origins, chain) && k < |chain|
    requires chain[|chain| - 1].unit in visited
    ensures chain[k].unit in visited
    decreases |chain| - k
  {
    hide FoundInOrder;
    if k < |chain| - 1 {
      var next := chain[k + 1].unit;
      ChainIsRecorded(parents, visited, origins, chain, k + 1);
      assert Back(parents, origins, next) == Some(chain[k].unit);
      ParentComesFirst(parents, visited, next);
    }
  }

  lemma ChainHeadIsRecorded(parents: Parents, visited: seq<Unit>, origins: Origins, unit: Unit, chain: seq<Step>)
    requires IsFound(parents, visited, origins) && unit in visited && IsChainTo(parents, origins, unit, chain)
    ensures chain[0].unit in parents
  {
    hide FoundInOrder;
    ChainIsRecorded(parents, visited, origins, chain, 0);
  }
}
