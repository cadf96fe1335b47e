/** One system role's report entry, assembled from what the exploration reached. */
module RoleReport {
  import opened PlainObject
  import opened RoleGraph
  import opened RolePath

  datatype RoleRecord = RoleRecord(site: string, roles: seq<string>, unresolved: seq<string>)

  /** A delegation issued for a child under a system role named by an env literal. */
  datatype Delegation =
    Delegation(site: string, anySystemRole: bool, systemRoles: set<string>, roles: seq<string>, unresolved: seq<string>)

  /** An assumption reviewed by hand as infeasible for some system roles. */
  datatype Review = Review(systemRoles: set<string>, role: string, site: string)

  datatype Facts = Facts(
    records: map<Unit, seq<RoleRecord>>,
    unresolvedEdges: map<Unit, seq<string>>,
    delegations: seq<Delegation>,
    reviews: seq<Review>,
    heldFiles: set<string>)

  datatype Example = Chain(steps: seq<Step>) | DelegationSite(site: string)

  datatype RoleEntry = RoleEntry(
    children: seq<ChildEntry>,
    reachable: map<string, Example>,
    unresolved: set<string>,
    notReachable: set<string>)

  /** Whether looking `key` up in a plain object yields something truthy. */
  predicate Present<T>(record: map<string, T>, key: string) {
    key in record || key in INHERITED
  }

  function RecordsOf(facts: Facts, u: Unit): seq<RoleRecord> {
    if u in facts.records then facts.records[u] else []
  }

  function EdgeReasons(facts: Facts, u: Unit): seq<string> {
    if u in facts.unresolvedEdges then facts.unresolvedEdges[u] else []
  }

  predicate Matches(review: Review, systemRole: string, role: string, site: string) {
    && review.role == role
    && systemRole in review.systemRoles
    && (site == review.site || review.site + " " <= site)
  }

  predicate ReviewedInfeasible(facts: Facts, systemRole: string, role: string, site: string) {
    exists review :: review in facts.reviews && Matches(review, systemRole, role, site)
  }

  predicate AppliesTo(d: Delegation, systemRole: string) {
    d.anySystemRole || systemRole in d.systemRoles
  }

  predicate Unbounded(s: Spawn) {
    s.inheritsSystemRole && s.kyberionCapable && s.targets == []
  }

  // ---- What the entry should say, as statements about reached units ----

  ghost predicate Feasible(facts: Facts, systemRole: string, record: RoleRecord, roles: seq<string>, role: string) {
    role in roles && !ReviewedInfeasible(facts, systemRole, role, record.site)
  }

  ghost predicate FeasibleIn(facts: Facts, systemRole: string, records: seq<RoleRecord>, role: string) {
    exists record :: record in records && Feasible(facts, systemRole, record, record.roles, role)
  }

  /** `u` holds a record that assumes `role` and no review rules out. */
  ghost predicate Assumes(facts: Facts, systemRole: string, u: Unit, role: string) {
    FeasibleIn(facts, systemRole, RecordsOf(facts, u), role)
  }

  ghost predicate Lists(order: seq<Unit>, t: set<Unit>) {
    forall u :: u in order <==> u in t
  }

  ghost predicate AssumedBy(facts: Facts, systemRole: string, units: seq<Unit>, role: string) {
    exists u :: u in units && Assumes(facts, systemRole, u, role)
  }

  ghost predicate DelegatedBy(delegations: seq<Delegation>, systemRole: string, role: string) {
    exists d :: d in delegations && AppliesTo(d, systemRole) && role in d.roles
  }

  /** `site`, seen at `u`, may assume any role. */
  ghost predicate AnyRoleAt(g: Graph, facts: Facts, u: Unit, site: string) {
    || (exists record :: record in RecordsOf(facts, u) && record.site == site && record.unresolved != [])
    || (site == u.id && EdgeReasons(facts, u) != [])
    || (exists s :: s in Spawns(g, u) && Unbounded(s) && s.site == site)
  }

  ghost predicate AnyRoleBy(g: Graph, facts: Facts, units: seq<Unit>, site: string) {
    exists u :: u in units && AnyRoleAt(g, facts, u, site)
  }

  ghost predicate AnyRoleDelegated(delegations: seq<Delegation>, systemRole: string, site: string) {
    exists d :: d in delegations && AppliesTo(d, systemRole) && d.site == site && d.unresolved != []
  }

  ghost predicate OutsideProgram(facts: Facts, files: seq<string>, site: string) {
    site in files && site !in facts.heldFiles
  }

  /** An example names a reached unit that assumes the role, or a delegation of it. */
  ghost predicate ExampleHolds(facts: Facts, systemRole: string, r: Exploration, role: string, example: Example) {
    match example
    case Chain(steps) =>
      && steps != [] && RepeatFree(steps) && StepsBack(r.parents, r.childOrigins, steps)
      && steps[|steps| - 1].unit in r.parents
      && Assumes(facts, systemRole, steps[|steps| - 1].unit, role)
    case DelegationSite(site) =>
      exists d :: d in facts.delegations && AppliesTo(d, systemRole) && role in d.roles && d.site == site
  }

  ghost predicate ExamplesHold(facts: Facts, systemRole: string, r: Exploration, reachable: map<string, Example>) {
    forall role :: role in reachable ==> ExampleHolds(facts, systemRole, r, role, reachable[role])
  }

  /** What the finished entry lists, given the reached units and the entry files. */
  ghost predicate EntryMatches(g: Graph, facts: Facts, systemRole: string, order: seq<Unit>, files: seq<string>,
                               allowed: set<string>, e: RoleEntry) {
    && (forall role :: role in e.reachable <==>
        (role !in INHERITED &&
          (AssumedBy(facts, systemRole, order, role) || DelegatedBy(facts.delegations, systemRole, role))))
    && (forall site :: site in e.unresolved <==>
        (AnyRoleBy(g, facts, order, site) || AnyRoleDelegated(facts.delegations, systemRole, site)
          || OutsideProgram(facts, files, site)))
    && (forall role :: role in e.notReachable <==>
        (e.unresolved == {} && role in allowed && role != systemRole && !Present(e.reachable, role)))
  }

  // ---- The loops ----

  lemma AssumedByNext(facts: Facts, systemRole: string, units: seq<Unit>, i: nat)
    requires i < |units|
    ensures forall role :: AssumedBy(facts, systemRole, units[..i + 1], role) <==>
      AssumedBy(facts, systemRole, units[..i], role) || Assumes(facts, systemRole, units[i], role)
  {
    assert forall u :: u in units[..i + 1] <==> u in units[..i] || u == units[i];
  }

  lemma AnyRoleByNext(g: Graph, facts: Facts, units: seq<Unit>, i: nat)
    requires i < |units|
    ensures forall site :: AnyRoleBy(g, facts, units[..i + 1], site) <==>
      AnyRoleBy(g, facts, units[..i], site) || AnyRoleAt(g, facts, units[i], site)
  {
    assert forall u :: u in units[..i + 1] <==> u in units[..i] || u == units[i];
  }

  /** The loop over one record's roles: each feasible one gets an example unless something is there already. */
  method AddRoles(facts: Facts, systemRole: string, r: Exploration, u: Unit, record: RoleRecord,
                  reachable0: map<string, Example>)
    returns (reachable: map<string, Example>)
    requires u in r.parents && record in RecordsOf(facts, u) && ExamplesHold(facts, systemRole, r, reachable0)
    ensures ExamplesHold(facts, systemRole, r, reachable)
    ensures forall role :: role in reachable <==>
      role in reachable0 || (role !in INHERITED && Feasible(facts, systemRole, record, record.roles, role))
  {
    reachable := reachable0;
    for i := 0 to |record.roles|
      invariant ExamplesHold(facts, systemRole, r, reachable)
      invariant forall role :: role in reachable <==>
        role in reachable0 || (role !in INHERITED && Feasible(facts, systemRole, record, record.roles[..i], role))
    {
      hide INHERITED, ReviewedInfeasible, StepsBack, RepeatFree;
      var role := record.roles[i];
      if !ReviewedInfeasible(facts, systemRole, role, record.site) && !Present(reachable, role) {
        var chain := PathTo(r.parents, u, r.childOrigins);
        assert Assumes(facts, systemRole, u, role);
        reachable := reachable[role := Chain(chain)];
      }
    }
  }

  method AddUnitRoles(facts: Facts, systemRole: string, r: Exploration, u: Unit, reachable0: map<string, Example>)
    returns (reachable: map<string, Example>)
    requires u in r.parents && ExamplesHold(facts, systemRole, r, reachable0)
    ensures ExamplesHold(facts, systemRole, r, reachable)
    ensures forall role :: role in reachable <==>
      role in reachable0 || (role !in INHERITED && Assumes(facts, systemRole, u, role))
  {
    reachable := reachable0;
    var records := RecordsOf(facts, u);
    for i := 0 to |records|
      invariant ExamplesHold(facts, systemRole, r, reachable)
      invariant forall role :: role in reachable <==>
        role in reachable0 || (role !in INHERITED && FeasibleIn(facts, systemRole, records[..i], role))
    {
      assert forall record :: record in records[..i + 1] <==> record in records[..i] || record == records[i];
      reachable := AddRoles(facts, systemRole, r, u, records[i], reachable);
    }
    assert records[..|records|] == records;
  }

  method UnresolvedOf(g: Graph, facts: Facts, u: Unit) returns (sites: set<string>)
    ensures forall site :: site in sites <==> AnyRoleAt(g, facts, u, site)
  {
    sites := {};
    var records := RecordsOf(facts, u);
    for i := 0 to |records|
      invariant forall site :: site in sites <==>
        exists record :: record in records[..i] && record.site == site && record.unresolved != []
    {
      assert forall record :: record in records[..i + 1] <==> record in records[..i] || record == records[i];
      if records[i].unresolved != [] {
        sites := sites + {records[i].site};
      }
    }
    assert records[..|records|] == records;
    if EdgeReasons(facts, u) != [] {
      sites := sites + {u.id};
    }
    var spawns := Spawns(g, u);
    ghost var before := sites;
    for i := 0 to |spawns|
      invariant forall site :: site in sites <==>
        site in before || exists s :: s in spawns[..i] && Unbounded(s) && s.site == site
    {
      assert forall s :: s in spawns[..i + 1] <==> s in spawns[..i] || s == spawns[i];
      if Unbounded(spawns[i]) {
        sites := sites + {spawns[i].site};
      }
    }
    assert spawns[..|spawns|] == spawns;
  }

  method AddDelegated(facts: Facts, systemRole: string, r: Exploration, d: Delegation, reachable0: map<string, Example>)
    returns (reachable: map<string, Example>)
    requires d in facts.delegations && AppliesTo(d, systemRole) && ExamplesHold(facts, systemRole, r, reachable0)
    ensures ExamplesHold(facts, systemRole, r, reachable)
    ensures forall role :: role in reachable <==> role in reachable0 || (role !in INHERITED && role in d.roles)
  {
    reachable := reachable0;
    for i := 0 to |d.roles|
      invariant ExamplesHold(facts, systemRole, r, reachable)
      invariant forall role :: role in reachable <==> role in reachable0 || (role !in INHERITED && role in d.roles[..i])
    {
      if !Present(reachable, d.roles[i]) {
        reachable := reachable[d.roles[i] := DelegationSite(d.site)];
      }
    }
  }

  method AddDelegations(facts: Facts, systemRole: string, r: Exploration, reachable0: map<string, Example>)
    returns (reachable: map<string, Example>, sites: set<string>)
    requires ExamplesHold(facts, systemRole, r, reachable0)
    ensures ExamplesHold(facts, systemRole, r, reachable)
    ensures forall role :: role in reachable <==>
      role in reachable0 || (role !in INHERITED && DelegatedBy(facts.delegations, systemRole, role))
    ensures forall site :: site in sites <==> AnyRoleDelegated(facts.delegations, systemRole, site)
  {
    reachable, sites := reachable0, {};
    var list := facts.delegations;
    for i := 0 to |list|
      invariant ExamplesHold(facts, systemRole, r, reachable)
      invariant forall role :: role in reachable <==>
        role in reachable0 || (role !in INHERITED && DelegatedBy(list[..i], systemRole, role))
      invariant forall site :: site in sites <==> AnyRoleDelegated(list[..i], systemRole, site)
    {
      assert forall d :: d in list[..i + 1] <==> d in list[..i] || d == list[i];
      if AppliesTo(list[i], systemRole) {
        reachable := AddDelegated(facts, systemRole, r, list[i], reachable);
        if list[i].unresolved != [] {
          sites := sites + {list[i].site};
        }
      }
    }
    assert list[..|list|] == list;
  }

  method OutsideFiles(facts: Facts, files: seq<string>) returns (sites: set<string>)
    ensures forall site :: site in sites <==> OutsideProgram(facts, files, site)
  {
    sites := {};
    for i := 0 to |files|
      invariant forall site :: site in sites <==> OutsideProgram(facts, files[..i], site)
    {
      if files[i] !in facts.heldFiles {
        sites := sites + {files[i]};
      }
    }
    assert files[..|files|] == files;
  }

  /** The roles and any-role sites of a finished exploration; `order` lists its units in report order. */
  method AssembleEntry(g: Graph, facts: Facts, systemRole: string, r: Exploration, order: seq<Unit>,
                       allowed: set<string>)
    returns (e: RoleEntry)
    requires Lists(order, r.parents.Keys)
    ensures e.children == r.children && ExamplesHold(facts, systemRole, r, e.reachable)
    ensures EntryMatches(g, facts, systemRole, order, r.entryFiles, allowed, e)
  {
    var reachable: map<string, Example>, unresolved: set<string> := map[], {};
    for i := 0 to |order|
      invariant ExamplesHold(facts, systemRole, r, reachable)
      invariant forall role ::
        role in reachable <==> role !in INHERITED && AssumedBy(facts, systemRole, order[..i], role)
      invariant forall site :: site in unresolved <==> AnyRoleBy(g, facts, order[..i], site)
    {
      AssumedByNext(facts, systemRole, order, i);
      AnyRoleByNext(g, facts, order, i);
      reachable := AddUnitRoles(facts, systemRole, r, order[i], reachable);
      var sites := UnresolvedOf(g, facts, order[i]);
      unresolved := unresolved + sites;
    }
    assert order[..|order|] == order;
    var delegated;
    reachable, delegated := AddDelegations(facts, systemRole, r, reachable);
    var outside := OutsideFiles(facts, r.entryFiles);
    unresolved := unresolved + delegated + outside;
    var notReachable := if unresolved != {} then {} else
      set role | role in allowed && role != systemRole && !Present(reachable, role);
    e := RoleEntry(r.children, reachable, unresolved, notReachable);
  }

  // ---- What an entry therefore proves about a system role ----

  /** The system role's process can come to assume `role` through something no review rules out. */
  ghost predicate CanAssume(g: Graph, facts: Facts, systemRole: string, roots: seq<string>, role: string) {
    || (exists t, u :: IsReachableSet(g, roots, t) && u in t && Assumes(facts, systemRole, u, role))
    || DelegatedBy(facts.delegations, systemRole, role)
  }

  /** The given files and those any reached unit spawns. */
  ghost predicate AreEntryFiles(g: Graph, roots: seq<string>, t: set<Unit>, files: seq<string>) {
    forall f :: f in files <==> f in roots || exists u :: u in t && SpawnsFile(g, u, f)
  }

  /** The entry, spelled out over the reached units, their files and the spawns they perform. */
  ghost predicate IsEntryWith(g: Graph, facts: Facts, systemRole: string, roots: seq<string>, allowed: set<string>,
                              e: RoleEntry, t: set<Unit>, order: seq<Unit>, files: seq<string>, spawns: set<Spawn>) {
    && IsReachableSet(g, roots, t) && Lists(order, t)
    && AreEntryFiles(g, roots, t, files)
    && ArePerformed(g, t, spawns) && ChildrenMatch(e.children, spawns)
    && EntryMatches(g, facts, systemRole, order, files, allowed, e)
  }

  /** What AssembleEntry promises about an exploration of `roots`. */
  ghost predicate IsEntryFor(g: Graph, facts: Facts, systemRole: string, roots: seq<string>, allowed: set<string>,
                             e: RoleEntry) {
    exists t, order, files, spawns :: IsEntryWith(g, facts, systemRole, roots, allowed, e, t, order, files, spawns)
  }

  /** Explore, then assemble. */
  method ReportRole(g: Graph, facts: Facts, systemRole: string, roots: seq<string>, allowed: set<string>)
    returns (e: RoleEntry)
    ensures IsEntryFor(g, facts, systemRole, roots, allowed, e)
  {
    hide IsReachableSet, EntryMatches, ChildrenMatch, ArePerformed;
    var r, entry, spawns := Explore(g, roots);
    var order := Enumerate(r.parents.Keys);
    e := AssembleEntry(g, facts, systemRole, r, order, allowed);
    assert IsEntryWith(g, facts, systemRole, roots, allowed, e, r.parents.Keys, order, r.entryFiles, spawns);
  }

  /** Some order of the units; the source sorts them by id, which only chooses among examples. */
  method Enumerate(units: set<Unit>) returns (order: seq<Unit>)
    ensures Lists(order, units)
  {
    order := [];
    var left := units;
    while left != {}
      invariant left <= units && forall u :: u in order <==> u in units && u !in left
      decreases left
    {
      var u :| u in left;
      order := order + [u];
      left := left - {u};
    }
  }

  /** Reachable sets are unique, so "some reachable set" is the reachable set. */
  lemma ReachableSetIsUnique(g: Graph, roots: seq<string>, s: set<Unit>, t: set<Unit>)
    requires IsReachableSet(g, roots, s) && IsReachableSet(g, roots, t)
    ensures s == t
  {
  }

  /** A role is listed as reachable exactly when it can be assumed and its name is not an inherited one. */
  lemma ListedIffAssumable(g: Graph, facts: Facts, systemRole: string, roots: seq<string>, allowed: set<string>,
                           e: RoleEntry, role: string)
    requires IsEntryFor(g, facts, systemRole, roots, allowed, e)
    ensures role in e.reachable <==> role !in INHERITED && CanAssume(g, facts, systemRole, roots, role)
  {
    hide INHERITED, AreEntryFiles, ArePerformed, ChildrenMatch;
    var t, order: seq<Unit>, files, spawns :|
      IsEntryWith(g, facts, systemRole, roots, allowed, e, t, order, files, spawns);
    if other, u :| IsReachableSet(g, roots, other) && u in other && Assumes(facts, systemRole, u, role) {
      ReachableSetIsUnique(g, roots, t, other);
      assert u in order;
    }
  }

  /** `site` may assume any role: seen at a reached unit, delegated, or an entry file the program does not hold. */
  ghost predicate MayBeAnyRole(g: Graph, facts: Facts, systemRole: string, roots: seq<string>, site: string) {
    || (exists t, u :: IsReachableSet(g, roots, t) && u in t && AnyRoleAt(g, facts, u, site))
    || AnyRoleDelegated(facts.delegations, systemRole, site)
    || (site !in facts.heldFiles &&
        (site in roots || exists t, u :: IsReachableSet(g, roots, t) && u in t && SpawnsFile(g, u, site)))
  }

  /** A site is listed as unresolved exactly when it may assume any role. */
  lemma UnresolvedIffAnyRole(g: Graph, facts: Facts, systemRole: string, roots: seq<string>, allowed: set<string>,
                             e: RoleEntry, site: string)
    requires IsEntryFor(g, facts, systemRole, roots, allowed, e)
    ensures site in e.unresolved <==> MayBeAnyRole(g, facts, systemRole, roots, site)
  {
    hide INHERITED, ArePerformed, ChildrenMatch, AnyRoleAt, AnyRoleDelegated, SpawnsFile, IsReachableSet;
    var t, order: seq<Unit>, files, spawns :|
      IsEntryWith(g, facts, systemRole, roots, allowed, e, t, order, files, spawns);
    forall other | IsReachableSet(g, roots, other) ensures other == t {
      ReachableSetIsUnique(g, roots, t, other);
    }
    assert OutsideProgram(facts, files, site) <==> site in files && site !in facts.heldFiles;
    assert AnyRoleBy(g, facts, order, site) <==> exists u :: u in t && AnyRoleAt(g, facts, u, site);
  }

  /** There is a child entry exactly for each site of a spawn that a reached unit performs, with all its targets. */
  lemma ChildListedIffPerformed(g: Graph, facts: Facts, systemRole: string, roots: seq<string>, allowed: set<string>,
                                e: RoleEntry, t: set<Unit>, site: string)
    requires IsEntryFor(g, facts, systemRole, roots, allowed, e) && IsReachableSet(g, roots, t)
    ensures (exists i :: 0 <= i < |e.children| && e.children[i].site == site) <==>
      exists u, s :: u in t && Performs(g, u, s) && s.site == site
  {
    hide INHERITED, EntryMatches, AreEntryFiles, Performs, IsReachableSet;
    var r, order: seq<Unit>, files, spawns :|
      IsEntryWith(g, facts, systemRole, roots, allowed, e, r, order, files, spawns);
    ReachableSetIsUnique(g, roots, r, t);
    if i :| 0 <= i < |e.children| && e.children[i].site == site {
      assert Sited(spawns, site);
    }
    if u, s :| u in t && Performs(g, u, s) && s.site == site {
      assert s in spawns;
    }
  }

  /**
   * A role is listed as not reachable exactly when no site may assume any role, and the role is a granted one with
   * a name of its own that cannot be assumed.
   */
  lemma NotReachableIff(g: Graph, facts: Facts, systemRole: string, roots: seq<string>, allowed: set<string>,
                        e: RoleEntry, role: string)
    requires IsEntryFor(g, facts, systemRole, roots, allowed, e)
    ensures role in e.notReachable <==>
      && (forall site :: !MayBeAnyRole(g, facts, systemRole, roots, site))
      && role in allowed && role != systemRole && role !in INHERITED && !CanAssume(g, facts, systemRole, roots, role)
  {
    hide INHERITED, MayBeAnyRole, CanAssume, ArePerformed, ChildrenMatch, AreEntryFiles, IsReachableSet;
    ListedIffAssumable(g, facts, systemRole, roots, allowed, e, role);
    forall site ensures site in e.unresolved <==> MayBeAnyRole(g, facts, systemRole, roots, site) {
      UnresolvedIffAnyRole(g, facts, systemRole, roots, allowed, e, site);
    }
    var t, order: seq<Unit>, files, spawns :|
      IsEntryWith(g, facts, systemRole, roots, allowed, e, t, order, files, spawns);
    assert e.unresolved == {} <==> forall site :: !MayBeAnyRole(g, facts, systemRole, roots, site);
  }
}
