/**
 * The walk behind the role-assumption report: a breadth-first search over the
 * declaration graph inside an outer loop that adds the entry units of every
 * file a reached unit spawns with an inherited SYSTEM_ROLE.
 */
module RoleGraph {
  import opened Wrappers

  /** A top-level declaration. The source compares units by identity: `key` is that identity. */
  datatype Unit = Unit(key: nat, id: string, file: string)

  datatype Spawn = Spawn(site: string, inheritsSystemRole: bool, kyberionCapable: bool, targets: seq<string>)

  datatype Declaration =
    Declaration(unit: Unit, exported: bool, isLazy: bool, entryOnly: bool, returned: seq<Unit>)

  /** What the static analyser hands over: arbitrary finite tables. */
  datatype Graph = Graph(
    edges: map<Unit, seq<Unit>>,
    spawnTable: map<Unit, seq<Spawn>>,
    declarations: map<string, seq<Declaration>>)

  datatype ChildEntry = ChildEntry(site: string, targets: set<string>)

  /** `visited` lists the recorded units in the order the search found them. */
  datatype Exploration = Exploration(
    parents: map<Unit, Option<Unit>>,
    visited: seq<Unit>,
    entryFiles: seq<string>,
    childOrigins: map<string, Unit>,
    children: seq<ChildEntry>)

  // ---- What the walk should find, stated without any search ----

  function Successors(g: Graph, u: Unit): seq<Unit> {
    if u in g.edges then g.edges[u] else []
  }

  function Spawns(g: Graph, u: Unit): seq<Spawn> {
    if u in g.spawnTable then g.spawnTable[u] else []
  }

  function Declarations(g: Graph, file: string): seq<Declaration> {
    if file in g.declarations then g.declarations[file] else []
  }

  predicate GivesEntry(d: Declaration, u: Unit) {
    || (d.exported && u in d.returned)
    || ((!d.isLazy || d.exported || d.entryOnly) && u == d.unit)
  }

  ghost predicate IsEntryUnit(g: Graph, file: string, u: Unit) {
    exists d :: d in Declarations(g, file) && GivesEntry(d, u)
  }

  /** A spawn the walk follows. */
  predicate Followed(s: Spawn) {
    s.inheritsSystemRole && s.targets != []
  }

  ghost predicate Performs(g: Graph, u: Unit, s: Spawn) {
    s in Spawns(g, u) && Followed(s)
  }

  /** `u` starts `file` as a child that keeps SYSTEM_ROLE. */
  ghost predicate SpawnsFile(g: Graph, u: Unit, file: string) {
    exists s :: Performs(g, u, s) && file in s.targets
  }

  ghost predicate EdgeClosed(g: Graph, t: set<Unit>) {
    forall u, v :: u in t && v in Successors(g, u) ==> v in t
  }

  ghost predicate HoldsEntriesOf(g: Graph, files: seq<string>, t: set<Unit>) {
    forall f, u :: f in files && IsEntryUnit(g, f, u) ==> u in t
  }

  ghost predicate SpawnClosed(g: Graph, t: set<Unit>) {
    forall u, f, v :: u in t && SpawnsFile(g, u, f) && IsEntryUnit(g, f, v) ==> v in t
  }

  /** `t` holds the entry units of `roots` and is closed under edges and under followed spawns. */
  ghost predicate Closed(g: Graph, roots: seq<string>, t: set<Unit>) {
    HoldsEntriesOf(g, roots, t) && EdgeClosed(g, t) && SpawnClosed(g, t)
  }

  /** `t` is the least closed set: the units the system role can reach. */
  ghost predicate IsReachableSet(g: Graph, roots: seq<string>, t: set<Unit>) {
    Closed(g, roots, t) && forall other: set<Unit> | Closed(g, roots, other) :: t <= other
  }

  ghost predicate IsEntrySeq(g: Graph, files: seq<string>, units: seq<Unit>) {
    forall u :: u in units <==> exists f :: f in files && IsEntryUnit(g, f, u)
  }

  /** Every recorded parent is a real edge out of a recorded unit; only entry units have none. */
  ghost predicate ParentsJustified(g: Graph, entry: seq<Unit>, parents: map<Unit, Option<Unit>>) {
    forall u :: u in parents ==>
      match parents[u]
      case None => u in entry
      case Some(p) => p in parents && u in Successors(g, p)
  }

  /** Every unit with a parent was found after it. */
  ghost predicate FoundInOrder(parents: map<Unit, Option<Unit>>, queue: seq<Unit>) {
    forall k :: 0 <= k < |queue| ==> FoundAfterItsParent(parents, queue, k)
  }

  ghost predicate FoundAfterItsParent(parents: map<Unit, Option<Unit>>, queue: seq<Unit>, k: nat)
    requires k < |queue|
  {
    queue[k] in parents && (parents[queue[k]].Some? ==> parents[queue[k]].value in queue[..k])
  }

  /** An added file is one some unit of `t` starts, and its origin is such a unit. */
  ghost predicate OriginsJustified(g: Graph, t: set<Unit>, roots: seq<string>, files: seq<string>,
                                   origins: map<string, Unit>) {
    && (forall f :: f in origins <==> f in files && f !in roots)
    && (forall f :: f in origins ==> origins[f] in t && SpawnsFile(g, origins[f], f))
  }

  /** One child entry per site, holding every target of the site's spawns. */
  ghost predicate ChildrenMatch(children: seq<ChildEntry>, spawns: set<Spawn>) {
    && (forall i, j :: 0 <= i < j < |children| ==> children[i].site != children[j].site)
    && (forall s :: s in spawns ==> exists i :: 0 <= i < |children| && children[i].site == s.site)
    && (forall i :: 0 <= i < |children| ==> Sited(spawns, children[i].site))
    && (forall i, f :: 0 <= i < |children| ==> (f in children[i].targets <==> TargetAt(spawns, children[i].site, f)))
  }

  ghost predicate Sited(spawns: set<Spawn>, site: string) {
    exists s :: s in spawns && s.site == site
  }

  ghost predicate TargetAt(spawns: set<Spawn>, site: string, f: string) {
    exists s :: s in spawns && s.site == site && f in s.targets
  }

  /** `spawns` is what the units of `t` perform. */
  ghost predicate ArePerformed(g: Graph, t: set<Unit>, spawns: set<Spawn>) {
    forall s :: s in spawns <==> exists u :: u in t && Performs(g, u, s)
  }

  // ---- The search ----

  method EntryUnitsOf(declarations: seq<Declaration>) returns (units: seq<Unit>)
    ensures forall u :: u in units <==> exists d :: d in declarations && GivesEntry(d, u)
  {
    units := [];
    for j := 0 to |declarations|
      invariant forall u :: u in units <==> exists d :: d in declarations[..j] && GivesEntry(d, u)
    {
      var d := declarations[j];
      ghost var before := units;
      if d.exported {
        units := units + d.returned;
      }
      if !d.isLazy || d.exported || d.entryOnly {
        units := units + [d.unit];
      }
      assert forall u :: u in units <==> u in before || GivesEntry(d, u);
      assert forall e :: e in declarations[..j + 1] <==> e in declarations[..j] || e == d;
    }
  }

  method EntryUnitsFor(g: Graph, files: seq<string>) returns (units: seq<Unit>)
    ensures IsEntrySeq(g, files, units)
  {
    units := [];
    for i := 0 to |files|
      invariant IsEntrySeq(g, files[..i], units)
    {
      var more := EntryUnitsOf(Declarations(g, files[i]));
      assert forall f :: f in files[..i + 1] <==> f in files[..i] || f == files[i];
      assert files[i] in files[..i + 1];
      forall u ensures u in units + more <==> exists f :: f in files[..i + 1] && IsEntryUnit(g, f, u) {
        assert u in more <==> IsEntryUnit(g, files[i], u);
      }
      units := units + more;
    }
    assert files[..|files|] == files;
  }

  /** Every unit a search from `entry` can meet: the bound that makes it stop. */
  ghost function Universe(g: Graph, entry: seq<Unit>): set<Unit> {
    (set u | u in entry) + set u, v | u in g.edges && v in g.edges[u] :: v
  }

  method Seed(entry: seq<Unit>) returns (parents: map<Unit, Option<Unit>>, queue: seq<Unit>)
    ensures forall u :: u in queue <==> u in parents
    ensures forall u :: u in parents <==> u in entry
    ensures forall u :: u in parents ==> parents[u] == None
    ensures FoundInOrder(parents, queue)
  {
    parents, queue := map[], [];
    for i := 0 to |entry|
      invariant forall u :: u in queue <==> u in parents
      invariant forall u :: u in parents <==> u in entry[..i]
      invariant forall u :: u in parents ==> parents[u] == None
    {
      if entry[i] !in parents {
        parents := parents[entry[i] := None];
        queue := queue + [entry[i]];
      }
    }
  }

  lemma FindingKeepsOrder(parents: map<Unit, Option<Unit>>, queue: seq<Unit>, x: Unit, u: Unit)
    requires FoundInOrder(parents, queue) && x !in parents && u in queue
    ensures FoundInOrder(parents[x := Some(u)], queue + [x])
  {
    var after, longer := parents[x := Some(u)], queue + [x];
    assert longer[..|queue|] == queue;
    forall k | 0 <= k < |queue| ensures FoundAfterItsParent(after, longer, k) {
      assert FoundAfterItsParent(parents, queue, k) && longer[..k] == queue[..k];
    }
  }

  /** The inner loop of the search: record each unseen successor of `u`. */
  method Visit(next: seq<Unit>, parents0: map<Unit, Option<Unit>>, queue0: seq<Unit>, u: Unit)
    returns (parents: map<Unit, Option<Unit>>, queue: seq<Unit>)
    requires forall x :: x in queue0 <==> x in parents0
    requires FoundInOrder(parents0, queue0) && u in queue0
    ensures FoundInOrder(parents, queue)
    ensures forall x :: x in queue <==> x in parents
    ensures forall x :: x in parents <==> x in parents0 || x in next
    ensures forall x :: x in parents ==> parents[x] == if x in parents0 then parents0[x] else Some(u)
    ensures queue0 <= queue
    ensures parents.Keys == parents0.Keys ==> queue == queue0
  {
    parents, queue := parents0, queue0;
    for i := 0 to |next|
      invariant forall x :: x in queue <==> x in parents
      invariant forall x :: x in parents <==> x in parents0 || x in next[..i]
      invariant forall x :: x in parents ==> parents[x] == if x in parents0 then parents0[x] else Some(u)
      invariant queue0 <= queue && FoundInOrder(parents, queue)
      invariant parents.Keys == parents0.Keys ==> queue == queue0
    {
      if next[i] !in parents {
        FindingKeepsOrder(parents, queue, next[i], u);
        parents := parents[next[i] := Some(u)];
        queue := queue + [next[i]];
        assert next[i] in parents.Keys;
      }
    }
  }

  ghost predicate Within(entry: seq<Unit>, t: set<Unit>) {
    forall u :: u in entry ==> u in t
  }

  /** No edge-closed set with the entry units can do without `keys`. */
  ghost predicate Forced(g: Graph, entry: seq<Unit>, keys: set<Unit>) {
    forall t: set<Unit> | Within(entry, t) && EdgeClosed(g, t) :: keys <= t
  }

  lemma VisitIsForced(g: Graph, entry: seq<Unit>, keys: set<Unit>, u: Unit, after: set<Unit>)
    requires Forced(g, entry, keys) && u in keys
    requires forall x :: x in after <==> x in keys || x in Successors(g, u)
    ensures Forced(g, entry, after)
  {
    forall t: set<Unit> | Within(entry, t) && EdgeClosed(g, t) ensures after <= t {
      assert keys <= t;
    }
  }

  lemma VisitIsBounded(g: Graph, entry: seq<Unit>, keys: set<Unit>, u: Unit, after: set<Unit>)
    requires keys <= Universe(g, entry) && u in keys
    requires forall x :: x in after <==> x in keys || x in Successors(g, u)
    ensures after <= Universe(g, entry) && keys <= after
    ensures keys == after || Universe(g, entry) - after < Universe(g, entry) - keys
  {
    if x :| x in after && x !in keys {
      assert x in Universe(g, entry) - keys && x !in Universe(g, entry) - after;
    } else {
      assert keys == after;
    }
  }

  lemma VisitIsJustified(g: Graph, entry: seq<Unit>, before: map<Unit, Option<Unit>>, u: Unit,
                         after: map<Unit, Option<Unit>>)
    requires ParentsJustified(g, entry, before) && u in before
    requires forall x :: x in after <==> x in before || x in Successors(g, u)
    requires forall x :: x in after ==> after[x] == if x in before then before[x] else Some(u)
    ensures ParentsJustified(g, entry, after)
  {
  }

  /** Every edge out of the first `n` units leads to a recorded one. */
  ghost predicate Expanded(g: Graph, queue: seq<Unit>, n: nat, t: set<Unit>)
    requires n <= |queue|
  {
    forall k, v :: 0 <= k < n && v in Successors(g, queue[k]) ==> v in t
  }

  lemma ExpandedNext(g: Graph, before: seq<Unit>, queue: seq<Unit>, n: nat, t0: set<Unit>, t: set<Unit>)
    requires n < |before| && before <= queue && t0 <= t && Expanded(g, before, n, t0)
    requires forall v :: v in Successors(g, before[n]) ==> v in t
    ensures Expanded(g, queue, n + 1, t)
  {
  }

  lemma AllExpandedIsClosed(g: Graph, queue: seq<Unit>, t: set<Unit>)
    requires Expanded(g, queue, |queue|, t) && forall u :: u in queue <==> u in t
    ensures EdgeClosed(g, t)
  {
    forall u, v | u in t && v in Successors(g, u) ensures v in t {
      assert u in queue;
    }
  }

  method Bfs(g: Graph, entry: seq<Unit>) returns (parents: map<Unit, Option<Unit>>, queue: seq<Unit>)
    ensures forall u :: u in queue <==> u in parents
    ensures Within(entry, parents.Keys) && EdgeClosed(g, parents.Keys) && Forced(g, entry, parents.Keys)
    ensures ParentsJustified(g, entry, parents) && FoundInOrder(parents, queue)
  {
    parents, queue := Seed(entry);
    var index := 0;
    while index < |queue|
      invariant 0 <= index <= |queue|
      invariant forall u :: u in queue <==> u in parents
      invariant Within(entry, parents.Keys) && Forced(g, entry, parents.Keys)
      invariant parents.Keys <= Universe(g, entry)
      invariant ParentsJustified(g, entry, parents) && FoundInOrder(parents, queue)
      invariant Expanded(g, queue, index, parents.Keys)
      decreases Universe(g, entry) - parents.Keys, |queue| - index
    {
      hide Successors, FoundInOrder, ParentsJustified, Forced, Universe, Expanded;
      var u := queue[index];
      ghost var before, queueBefore := parents, queue;
      parents, queue := Visit(Successors(g, u), parents, queue, u);
      VisitIsForced(g, entry, before.Keys, u, parents.Keys);
      VisitIsBounded(g, entry, before.Keys, u, parents.Keys);
      VisitIsJustified(g, entry, before, u, parents);
      ExpandedNext(g, queueBefore, queue, index, before.Keys, parents.Keys);
      index := index + 1;
    }
    AllExpandedIsClosed(g, queue, parents.Keys);
  }

  // ---- Following spawns ----

  /** The loop over one spawn's targets: a new target becomes an entry file and remembers its spawner. */
  method AddTargets(targets: seq<string>, u: Unit, files0: seq<string>, origins0: map<string, Unit>)
    returns (files: seq<string>, origins: map<string, Unit>, added: bool)
    ensures forall f :: f in files <==> f in files0 || f in targets
    ensures GrownBy(u, files0, origins0, files, origins, added)
  {
    files, origins, added := files0, origins0, false;
    for i := 0 to |targets|
      invariant forall f :: f in files <==> f in files0 || f in targets[..i]
      invariant GrownBy(u, files0, origins0, files, origins, added)
    {
      if targets[i] !in files {
        files := files + [targets[i]];
        origins := origins[targets[i] := u];
        added := true;
        assert targets[i] in files;
      }
    }
  }

  lemma TargetAtGrows(spawns: set<Spawn>, s: Spawn)
    ensures forall site :: Sited(spawns + {s}, site) <==> Sited(spawns, site) || site == s.site
    ensures forall site, f :: TargetAt(spawns + {s}, site, f) <==>
      TargetAt(spawns, site, f) || (site == s.site && f in s.targets)
  {
    assert s in spawns + {s};
    forall site, f | TargetAt(spawns, site, f) ensures TargetAt(spawns + {s}, site, f) {
      var e :| e in spawns && e.site == site && f in e.targets;
      assert e in spawns + {s};
    }
    forall site | Sited(spawns, site) ensures Sited(spawns + {s}, site) {
      var e :| e in spawns && e.site == site;
      assert e in spawns + {s};
    }
  }

  lemma ExtendedEntryMatches(children: seq<ChildEntry>, s: Spawn, spawns: set<Spawn>, i: nat)
    requires ChildrenMatch(children, spawns) && i < |children| && children[i].site == s.site
    ensures ChildrenMatch(
      children[i := ChildEntry(s.site, children[i].targets + set f | f in s.targets)], spawns + {s})
  {
    TargetAtGrows(spawns, s);
    var after := children[i := ChildEntry(s.site, children[i].targets + set f | f in s.targets)];
    assert forall k :: 0 <= k < |children| ==> after[k].site == children[k].site;
  }

  lemma AppendedEntryMatches(children: seq<ChildEntry>, s: Spawn, spawns: set<Spawn>)
    requires ChildrenMatch(children, spawns)
    requires forall k :: 0 <= k < |children| ==> children[k].site != s.site
    ensures ChildrenMatch(children + [ChildEntry(s.site, set f | f in s.targets)], spawns + {s})
  {
    TargetAtGrows(spawns, s);
    var after := children + [ChildEntry(s.site, set f | f in s.targets)];
    assert !Sited(spawns, s.site);
    assert after[|children|].site == s.site;
    assert forall k :: 0 <= k < |children| ==> after[k] == children[k];
  }

  /** Merge one spawn into the child entries: extend its site's entry or append a new one. */
  method MergeChild(children0: seq<ChildEntry>, s: Spawn, ghost spawns: set<Spawn>)
    returns (children: seq<ChildEntry>)
    requires ChildrenMatch(children0, spawns)
    ensures ChildrenMatch(children, spawns + {s})
  {
    var i := 0;
    while i < |children0| && children0[i].site != s.site
      invariant 0 <= i <= |children0|
      invariant forall k :: 0 <= k < i ==> children0[k].site != s.site
    {
      i := i + 1;
    }
    var targets := set f | f in s.targets;
    if i < |children0| {
      ExtendedEntryMatches(children0, s, spawns, i);
      children := children0[i := ChildEntry(s.site, children0[i].targets + targets)];
    } else {
      AppendedEntryMatches(children0, s, spawns);
      children := children0 + [ChildEntry(s.site, targets)];
    }
  }

  /** `f` is a target of a followed spawn in `list`. */
  ghost predicate TargetIn(list: seq<Spawn>, f: string) {
    exists s :: s in list && Followed(s) && f in s.targets
  }

  lemma TargetInNext(list: seq<Spawn>, j: nat)
    requires j < |list|
    ensures forall f :: TargetIn(list[..j + 1], f) <==>
      TargetIn(list[..j], f) || (Followed(list[j]) && f in list[j].targets)
    ensures forall s :: s in list[..j + 1] <==> s in list[..j] || s == list[j]
  {
    assert list[..j + 1] == list[..j] + [list[j]];
  }

  /** `files` and `origins` grew from `files0` and `origins0`, every new file by `u`. */
  ghost predicate GrownBy(u: Unit, files0: seq<string>, origins0: map<string, Unit>,
                          files: seq<string>, origins: map<string, Unit>, added: bool) {
    && files0 <= files
    && (forall f :: f in origins <==> f in origins0 || (f in files && f !in files0))
    && (forall f :: f in origins ==> origins[f] == if f in files && f !in files0 then u else origins0[f])
    && (added <==> exists f :: f in files && f !in files0)
    && (!added ==> files == files0)
  }

  lemma GrownTwice(u: Unit, a: seq<string>, oa: map<string, Unit>, b: seq<string>, ob: map<string, Unit>,
                   c: seq<string>, oc: map<string, Unit>, ab: bool, bc: bool)
    requires GrownBy(u, a, oa, b, ob, ab) && GrownBy(u, b, ob, c, oc, bc)
    ensures GrownBy(u, a, oa, c, oc, ab || bc)
  {
    assert forall f :: f in a ==> f in b;
    assert forall f :: f in b ==> f in c;
  }

  /** The loop over the spawns of one visited unit. */
  method FollowUnit(g: Graph, u: Unit, files0: seq<string>, origins0: map<string, Unit>,
                    children0: seq<ChildEntry>, ghost spawns0: set<Spawn>)
    returns (files: seq<string>, origins: map<string, Unit>, children: seq<ChildEntry>, added: bool,
             ghost spawns: set<Spawn>)
    requires ChildrenMatch(children0, spawns0)
    ensures ChildrenMatch(children, spawns)
    ensures forall s :: s in spawns <==> s in spawns0 || Performs(g, u, s)
    ensures forall f :: f in files <==> f in files0 || SpawnsFile(g, u, f)
    ensures GrownBy(u, files0, origins0, files, origins, added)
  {
    hide ChildrenMatch, SpawnsFile;
    files, origins, children, added, spawns := files0, origins0, children0, false, spawns0;
    var list := Spawns(g, u);
    for j := 0 to |list|
      invariant ChildrenMatch(children, spawns)
      invariant forall s :: s in spawns <==> s in spawns0 || (s in list[..j] && Followed(s))
      invariant forall f :: f in files <==> f in files0 || TargetIn(list[..j], f)
      invariant GrownBy(u, files0, origins0, files, origins, added)
    {
      hide TargetIn;
      TargetInNext(list, j);
      if Followed(list[j]) {
        ghost var filesBefore, originsBefore, addedBefore := files, origins, added;
        var grew;
        files, origins, grew := AddTargets(list[j].targets, u, files, origins);
        added := added || grew;
        GrownTwice(u, files0, origins0, filesBefore, originsBefore, files, origins, addedBefore, grew);
        children := MergeChild(children, list[j], spawns);
        spawns := spawns + {list[j]};
      }
    }
    assert list[..|list|] == list;
    TargetInIsSpawned(g, u);
  }

  lemma TargetInIsSpawned(g: Graph, u: Unit)
    ensures forall f :: TargetIn(Spawns(g, u), f) <==> SpawnsFile(g, u, f)
  {
    forall f | TargetIn(Spawns(g, u), f) ensures SpawnsFile(g, u, f) {
      var s :| s in Spawns(g, u) && Followed(s) && f in s.targets;
      assert Performs(g, u, s);
    }
  }

  ghost predicate StartedBy(g: Graph, units: seq<Unit>, f: string) {
    exists u :: u in units && SpawnsFile(g, u, f)
  }

  ghost predicate PerformedBy(g: Graph, units: seq<Unit>, s: Spawn) {
    exists u :: u in units && Performs(g, u, s)
  }

  lemma StartedByNext(g: Graph, units: seq<Unit>, i: nat)
    requires i < |units|
    ensures forall f :: StartedBy(g, units[..i + 1], f) <==> StartedBy(g, units[..i], f) || SpawnsFile(g, units[i], f)
    ensures forall s :: PerformedBy(g, units[..i + 1], s) <==> PerformedBy(g, units[..i], s) || Performs(g, units[i], s)
  {
    assert units[..i + 1] == units[..i] + [units[i]];
    assert forall u :: u in units[..i + 1] <==> u in units[..i] || u == units[i];
    assert units[i] in units[..i + 1];
  }

  lemma GrowthKeepsOrigins(g: Graph, t: set<Unit>, roots: seq<string>, u: Unit, files0: seq<string>,
                           origins0: map<string, Unit>, files: seq<string>, origins: map<string, Unit>, added: bool)
    requires forall f :: f in roots ==> f in files0
    requires OriginsJustified(g, t, roots, files0, origins0) && GrownBy(u, files0, origins0, files, origins, added)
    requires u in t && forall f :: f in files <==> f in files0 || SpawnsFile(g, u, f)
    ensures OriginsJustified(g, t, roots, files, origins)
  {
  }

  /** A round has added something when a unit of it has. */
  ghost predicate Added(files0: seq<string>, files: seq<string>, added: bool) {
    files0 <= files && (added <==> exists f :: f in files && f !in files0)
  }

  lemma AddedByGrowth(u: Unit, files0: seq<string>, mid: seq<string>, origins: map<string, Unit>, files: seq<string>,
                      originsNow: map<string, Unit>, before: bool, grew: bool)
    requires Added(files0, mid, before) && GrownBy(u, mid, origins, files, originsNow, grew)
    ensures Added(files0, files, before || grew)
  {
    assert forall f :: f in mid ==> f in files;
    assert forall f :: f in files0 ==> f in mid;
  }

  /** One round over the visited units: gather every followed spawn they perform. */
  method CollectSpawns(g: Graph, visited: seq<Unit>, files0: seq<string>, origins0: map<string, Unit>,
                       children0: seq<ChildEntry>, ghost roots: seq<string>, ghost t: set<Unit>,
                       ghost spawns0: set<Spawn>)
    returns (files: seq<string>, origins: map<string, Unit>, children: seq<ChildEntry>, added: bool,
             ghost spawns: set<Spawn>)
    requires forall u :: u in visited <==> u in t
    requires forall f :: f in roots ==> f in files0
    requires OriginsJustified(g, t, roots, files0, origins0)
    requires ChildrenMatch(children0, spawns0)
    requires forall s :: s in spawns0 ==> exists u :: u in t && Performs(g, u, s)
    ensures files0 <= files
    ensures forall f :: f in files <==> f in files0 || exists u :: u in t && SpawnsFile(g, u, f)
    ensures OriginsJustified(g, t, roots, files, origins)
    ensures ChildrenMatch(children, spawns) && ArePerformed(g, t, spawns)
    ensures added <==> exists f :: f in files && f !in files0
  {
    hide ChildrenMatch, GrownBy, OriginsJustified, SpawnsFile, Performs;
    files, origins, children, added, spawns := files0, origins0, children0, false, spawns0;
    for i := 0 to |visited|
      invariant Added(files0, files, added)
      invariant forall f :: f in files <==> f in files0 || StartedBy(g, visited[..i], f)
      invariant OriginsJustified(g, t, roots, files, origins)
      invariant ChildrenMatch(children, spawns)
      invariant forall s :: s in spawns <==> s in spawns0 || PerformedBy(g, visited[..i], s)
    {
      hide Added, StartedBy, PerformedBy;
      var grew;
      StartedByNext(g, visited, i);
      assert visited[i] in t;
      ghost var filesBefore, originsBefore := files, origins;
      files, origins, children, grew, spawns := FollowUnit(g, visited[i], files, origins, children, spawns);
      GrowthKeepsOrigins(g, t, roots, visited[i], filesBefore, originsBefore, files, origins, grew);
      AddedByGrowth(visited[i], files0, filesBefore, originsBefore, files, origins, added, grew);
      added := added || grew;
    }
    assert visited[..|visited|] == visited;
    VisitedIsSet(g, visited, t);
  }

  lemma VisitedIsSet(g: Graph, visited: seq<Unit>, t: set<Unit>)
    requires forall u :: u in visited <==> u in t
    ensures forall f :: StartedBy(g, visited, f) <==> exists u :: u in t && SpawnsFile(g, u, f)
    ensures forall s :: PerformedBy(g, visited, s) <==> exists u :: u in t && Performs(g, u, s)
  {
  }

  /** The files any unit spawns: each round of the outer loop uses up at least one of them. */
  ghost function AllTargets(g: Graph): set<string> {
    set u, s, f | u in g.spawnTable && s in g.spawnTable[u] && f in s.targets :: f
  }

  lemma SpawnedIsBounded(g: Graph, u: Unit, f: string)
    requires SpawnsFile(g, u, f)
    ensures f in AllTargets(g)
  {
    var s :| Performs(g, u, s) && f in s.targets;
    assert u in g.spawnTable && s in g.spawnTable[u];
  }

  lemma HoldersHoldEntry(g: Graph, files: seq<string>, entry: seq<Unit>)
    requires IsEntrySeq(g, files, entry)
    ensures forall t: set<Unit> :: HoldsEntriesOf(g, files, t) <==> Within(entry, t)
  {
  }

  /** No closed set can do without what one round visits and adds. */
  lemma RoundIsSound(g: Graph, roots: seq<string>, before: seq<string>, after: seq<string>,
                     entry: seq<Unit>, keys: set<Unit>)
    requires IsEntrySeq(g, before, entry)
    requires Forced(g, entry, keys)
    requires forall t: set<Unit> | Closed(g, roots, t) :: HoldsEntriesOf(g, before, t)
    requires forall f :: f in after <==> f in before || exists u :: u in keys && SpawnsFile(g, u, f)
    ensures forall t: set<Unit> | Closed(g, roots, t) :: keys <= t && HoldsEntriesOf(g, after, t)
  {
    forall t: set<Unit> | Closed(g, roots, t) ensures keys <= t && HoldsEntriesOf(g, after, t) {
      assert HoldsEntriesOf(g, before, t);
      assert Within(entry, t);
      assert keys <= t;
      forall f, v | f in after && IsEntryUnit(g, f, v) ensures v in t {
        if f !in before {
          var u :| u in keys && SpawnsFile(g, u, f);
          assert u in t;
        }
      }
    }
  }

  /** When a round adds nothing, what it visited is closed. */
  lemma StableRoundIsClosed(g: Graph, roots: seq<string>, files: seq<string>, entry: seq<Unit>, keys: set<Unit>)
    requires IsEntrySeq(g, files, entry) && Within(entry, keys) && EdgeClosed(g, keys)
    requires forall f :: f in roots ==> f in files
    requires forall u, f :: u in keys && SpawnsFile(g, u, f) ==> f in files
    ensures Closed(g, roots, keys)
  {
    assert HoldsEntriesOf(g, files, keys);
  }

  lemma OriginsStay(g: Graph, before: set<Unit>, t: set<Unit>, roots: seq<string>, files: seq<string>,
                    origins: map<string, Unit>)
    requires before <= t && OriginsJustified(g, before, roots, files, origins)
    ensures OriginsJustified(g, t, roots, files, origins)
  {
  }

  lemma NothingExplored(g: Graph, roots: seq<string>, none: set<Unit>)
    requires none == {}
    ensures OriginsJustified(g, none, roots, roots, map[])
    ensures ChildrenMatch([], {}) && ArePerformed(g, none, {}) && FoundInOrder(map[], [])
  {
  }

  /**
   * What the walk should come to: the units the system role can reach, each with a parent that was found before it,
   * and the files they spawn, each with one of its spawners.
   */
  ghost predicate IsExploration(g: Graph, roots: seq<string>, r: Exploration, entry: seq<Unit>) {
    && IsReachableSet(g, roots, r.parents.Keys)
    && (forall f :: f in r.entryFiles <==> f in roots || exists u :: u in r.parents && SpawnsFile(g, u, f))
    && OriginsJustified(g, r.parents.Keys, roots, r.entryFiles, r.childOrigins)
    && IsEntrySeq(g, r.entryFiles, entry) && ParentsJustified(g, entry, r.parents)
    && FoundInOrder(r.parents, r.visited) && (forall u :: u in r.visited <==> u in r.parents)
  }

  /** Search, add what was spawned, and search again until nothing is added. */
  method Explore(g: Graph, roots: seq<string>)
    returns (r: Exploration, ghost entry: seq<Unit>, ghost spawns: set<Spawn>)
    ensures IsExploration(g, roots, r, entry)
    ensures ChildrenMatch(r.children, spawns) && ArePerformed(g, r.parents.Keys, spawns)
  {
    hide OriginsJustified, ChildrenMatch, FoundInOrder, ParentsJustified;
    var files, origins, children := roots, map[], [];
    var parents: map<Unit, Option<Unit>>, visited: seq<Unit> := map[], [];
    NothingExplored(g, roots, parents.Keys);
    var added := true;
    entry, spawns := [], {};
    ghost var left := AllTargets(g);
    while added
      invariant forall f :: f in roots ==> f in files
      invariant forall f :: f in files <==> f in roots || exists u :: u in parents && SpawnsFile(g, u, f)
      invariant forall t: set<Unit> | Closed(g, roots, t) :: parents.Keys <= t && HoldsEntriesOf(g, files, t)
      invariant forall t: set<Unit> | HoldsEntriesOf(g, files, t) && EdgeClosed(g, t) :: parents.Keys <= t
      invariant OriginsJustified(g, parents.Keys, roots, files, origins)
      invariant ChildrenMatch(children, spawns) && ArePerformed(g, parents.Keys, spawns)
      invariant !added ==> IsEntrySeq(g, files, entry) && ParentsJustified(g, entry, parents)
      invariant FoundInOrder(parents, visited) && forall u :: u in visited <==> u in parents
      invariant !added ==> Closed(g, roots, parents.Keys)
      invariant forall f :: f in AllTargets(g) && f !in files ==> f in left
      decreases left, added
    {
      ghost var filesBefore, keysBefore := files, parents.Keys;
      var units := EntryUnitsFor(g, files);
      entry := units;
      parents, visited := Bfs(g, units);
      HoldersHoldEntry(g, files, units);
      assert keysBefore <= parents.Keys;
      OriginsStay(g, keysBefore, parents.Keys, roots, files, origins);
      files, origins, children, added, spawns :=
        CollectSpawns(g, visited, files, origins, children, roots, parents.Keys, spawns);
      RoundIsSound(g, roots, filesBefore, files, entry, parents.Keys);
      ghost var leftBefore := left;
      left := set f | f in left && f !in files;
      if added {
        ghost var f :| f in files && f !in filesBefore;
        ghost var u :| u in parents && SpawnsFile(g, u, f);
        SpawnedIsBounded(g, u, f);
        assert f in leftBefore && f !in left;
      } else {
        StableRoundIsClosed(g, roots, files, entry, parents.Keys);
      }
    }
    r := Exploration(parents, visited, files, origins, children);
  }
}
