/** What a report entry says, spelled out over the tables the analyser hands over. */
module RoleMeaning {
  import opened PlainObject
  import opened Wrappers
  import opened RoleGraph
  import opened RoleReport
  import opened RoleGate

  // ---- Which units are reached ----

  /** A declaration of the file lets a process that starts the file come to the unit. */
  ghost predicate IsOpened(g: Graph, file: string, u: Unit) {
    file in g.declarations && exists k :: 0 <= k < |g.declarations[file]| && Opens(g.declarations[file][k], u)
  }

  /** It is exported and is or returns the unit, or it is the unit and runs on loading or on being the entry. */
  predicate Opens(d: Declaration, u: Unit) {
    || (d.exported && (u in d.returned || u == d.unit))
    || (u == d.unit && (!d.isLazy || d.entryOnly))
  }

  lemma EntryUnitIff(g: Graph, file: string, u: Unit)
    ensures IsEntryUnit(g, file, u) <==> IsOpened(g, file, u)
  {
    if IsEntryUnit(g, file, u) {
      var d :| d in Declarations(g, file) && GivesEntry(d, u);
      var k :| 0 <= k < |g.declarations[file]| && g.declarations[file][k] == d;
      assert Opens(d, u);
    }
    if IsOpened(g, file, u) {
      var k :| 0 <= k < |g.declarations[file]| && Opens(g.declarations[file][k], u);
      assert g.declarations[file][k] in Declarations(g, file) && GivesEntry(g.declarations[file][k], u);
    }
  }

  /** A file is started as a child exactly when a spawn of the unit keeps SYSTEM_ROLE and targets it. */
  lemma SpawnsFileIff(g: Graph, u: Unit, file: string)
    ensures SpawnsFile(g, u, file) <==>
      u in g.spawnTable && exists s :: s in g.spawnTable[u] && s.inheritsSystemRole && file in s.targets
  {
    if u in g.spawnTable {
      forall s | s in g.spawnTable[u] && s.inheritsSystemRole && file in s.targets ensures SpawnsFile(g, u, file) {
        assert Performs(g, u, s);
      }
    }
  }

  /** A spawn is performed exactly when it is the unit's, keeps SYSTEM_ROLE and has a target. */
  lemma PerformsIff(g: Graph, u: Unit, s: Spawn)
    ensures Performs(g, u, s) <==>
      u in g.spawnTable && s in g.spawnTable[u] && s.inheritsSystemRole && |s.targets| > 0
  {
  }

  ghost predicate HasReason(g: Graph, roots: seq<string>, t: set<Unit>, u: Unit) {
    || (exists f :: f in roots && IsEntryUnit(g, f, u))
    || (exists v :: v in t && v in g.edges && u in g.edges[v])
    || (exists v, f :: v in t && SpawnsFile(g, v, f) && IsEntryUnit(g, f, u))
  }

  /** Exactly the units with a reason are reached: given entry, an edge from a reached unit, or a spawn by one. */
  lemma ReachedIffHasReason(g: Graph, roots: seq<string>, t: set<Unit>, u: Unit)
    requires IsReachableSet(g, roots, t)
    ensures u in t <==> HasReason(g, roots, t, u)
  {
    hide IsEntryUnit, SpawnsFile;
    if u in t && !HasReason(g, roots, t, u) {
      WithoutReasonIsClosed(g, roots, t, u);
    }
  }

  lemma WithoutReasonIsClosed(g: Graph, roots: seq<string>, t: set<Unit>, u: Unit)
    requires Closed(g, roots, t) && !HasReason(g, roots, t, u)
    ensures Closed(g, roots, t - {u})
  {
    hide IsEntryUnit, SpawnsFile;
  }

  // ---- Which roles are listed ----

  /** A review of the role for the system role at the site itself, or at what is written before a space in it. */
  ghost predicate IsReviewed(facts: Facts, systemRole: string, role: string, site: string) {
    exists i :: 0 <= i < |facts.reviews| && facts.reviews[i].role == role && systemRole in facts.reviews[i].systemRoles
      && (facts.reviews[i].site == site || IsBeforeSpace(facts.reviews[i].site, site))
  }

  predicate IsBeforeSpace(s: string, site: string) {
    |s| < |site| && site[..|s|] == s && site[|s|] == ' '
  }

  lemma PrefixIsBeforeSpace(s: string, site: string)
    ensures s + " " <= site <==> IsBeforeSpace(s, site)
  {
    if IsBeforeSpace(s, site) {
      assert site[..|s| + 1] == s + " ";
    }
    if s + " " <= site {
      assert site[..|s| + 1] == s + " ";
      assert site[|s|] == (s + " ")[|s|];
    }
  }

  ghost predicate IsRecorded(facts: Facts, systemRole: string, u: Unit, role: string) {
    && u in facts.records
    && exists k :: 0 <= k < |facts.records[u]| && role in facts.records[u][k].roles
        && !IsReviewed(facts, systemRole, role, facts.records[u][k].site)
  }

  ghost predicate IsDelegated(facts: Facts, systemRole: string, role: string) {
    exists k :: 0 <= k < |facts.delegations| && role in facts.delegations[k].roles
      && (facts.delegations[k].anySystemRole || systemRole in facts.delegations[k].systemRoles)
  }

  lemma ReviewedIff(facts: Facts, systemRole: string, role: string, site: string)
    ensures ReviewedInfeasible(facts, systemRole, role, site) <==> IsReviewed(facts, systemRole, role, site)
  {
    forall review: Review ensures review.site + " " <= site <==> IsBeforeSpace(review.site, site) {
      PrefixIsBeforeSpace(review.site, site);
    }
    if ReviewedInfeasible(facts, systemRole, role, site) {
      var review :| review in facts.reviews && Matches(review, systemRole, role, site);
      var i :| 0 <= i < |facts.reviews| && facts.reviews[i] == review;
    }
    if IsReviewed(facts, systemRole, role, site) {
      var i :| 0 <= i < |facts.reviews| && facts.reviews[i].role == role
        && systemRole in facts.reviews[i].systemRoles
        && (facts.reviews[i].site == site || IsBeforeSpace(facts.reviews[i].site, site));
      assert facts.reviews[i] in facts.reviews && Matches(facts.reviews[i], systemRole, role, site);
    }
  }

  lemma AssumesIff(facts: Facts, systemRole: string, u: Unit, role: string)
    ensures Assumes(facts, systemRole, u, role) <==> IsRecorded(facts, systemRole, u, role)
  {
    hide IsReviewed, ReviewedInfeasible;
    forall site
      ensures ReviewedInfeasible(facts, systemRole, role, site) <==> IsReviewed(facts, systemRole, role, site)
    {
      ReviewedIff(facts, systemRole, role, site);
    }
    if Assumes(facts, systemRole, u, role) {
      var record :| record in RecordsOf(facts, u) && Feasible(facts, systemRole, record, record.roles, role);
      var k :| 0 <= k < |facts.records[u]| && facts.records[u][k] == record;
    }
    if IsRecorded(facts, systemRole, u, role) {
      var k :| 0 <= k < |facts.records[u]| && role in facts.records[u][k].roles
        && !IsReviewed(facts, systemRole, role, facts.records[u][k].site);
      assert facts.records[u][k] in RecordsOf(facts, u);
      assert Feasible(facts, systemRole, facts.records[u][k], facts.records[u][k].roles, role);
    }
  }

  /**
   * A role is listed exactly when its name is its own and a reached unit holds a record of it at a site that no
   * review of that role and system role covers, or it is delegated to the system role.
   */
  lemma RoleListedIff(g: Graph, facts: Facts, systemRole: string, roots: seq<string>, allowed: set<string>,
                      e: RoleEntry, t: set<Unit>, role: string)
    requires IsEntryFor(g, facts, systemRole, roots, allowed, e) && IsReachableSet(g, roots, t)
    ensures role in e.reachable <==>
      (role !in INHERITED
        && (IsDelegated(facts, systemRole, role) || exists u :: u in t && IsRecorded(facts, systemRole, u, role)))
  {
    hide IsEntryFor, IsReachableSet, Assumes, IsRecorded, INHERITED;
    ListedIffAssumable(g, facts, systemRole, roots, allowed, e, role);
    DelegatedIff(facts, systemRole, role);
    forall u ensures Assumes(facts, systemRole, u, role) <==> IsRecorded(facts, systemRole, u, role) {
      AssumesIff(facts, systemRole, u, role);
    }
    forall other | IsReachableSet(g, roots, other) ensures other == t {
      ReachableSetIsUnique(g, roots, t, other);
    }
  }

  lemma DelegatedIff(facts: Facts, systemRole: string, role: string)
    ensures DelegatedBy(facts.delegations, systemRole, role) <==> IsDelegated(facts, systemRole, role)
  {
    if DelegatedBy(facts.delegations, systemRole, role) {
      var d :| d in facts.delegations && AppliesTo(d, systemRole) && role in d.roles;
      var k :| 0 <= k < |facts.delegations| && facts.delegations[k] == d;
    }
    if IsDelegated(facts, systemRole, role) {
      var k :| 0 <= k < |facts.delegations| && role in facts.delegations[k].roles
        && (facts.delegations[k].anySystemRole || systemRole in facts.delegations[k].systemRoles);
      assert facts.delegations[k] in facts.delegations;
    }
  }

  // ---- Which sites are listed as unresolved ----

  /** A record with unresolved roles at the site, an unresolved edge of the unit, or a child of unknown file. */
  ghost predicate IsOpenAt(g: Graph, facts: Facts, u: Unit, site: string) {
    || (u in facts.records
        && exists k :: 0 <= k < |facts.records[u]| && facts.records[u][k].site == site
            && facts.records[u][k].unresolved != [])
    || (site == u.id && u in facts.unresolvedEdges && facts.unresolvedEdges[u] != [])
    || (u in g.spawnTable
        && exists k :: 0 <= k < |g.spawnTable[u]| && g.spawnTable[u][k].site == site
            && g.spawnTable[u][k].inheritsSystemRole && g.spawnTable[u][k].kyberionCapable
            && g.spawnTable[u][k].targets == [])
  }

  lemma OpenAtIff(g: Graph, facts: Facts, u: Unit, site: string)
    ensures AnyRoleAt(g, facts, u, site) <==> IsOpenAt(g, facts, u, site)
  {
    if record :| record in RecordsOf(facts, u) && record.site == site && record.unresolved != [] {
      var k :| 0 <= k < |facts.records[u]| && facts.records[u][k] == record;
    }
    if s :| s in Spawns(g, u) && Unbounded(s) && s.site == site {
      var k :| 0 <= k < |g.spawnTable[u]| && g.spawnTable[u][k] == s;
    }
    if IsOpenAt(g, facts, u, site) {
      if u in facts.records {
        assert forall k :: 0 <= k < |facts.records[u]| ==> facts.records[u][k] in RecordsOf(facts, u);
      }
      if u in g.spawnTable {
        assert forall k :: 0 <= k < |g.spawnTable[u]| ==> g.spawnTable[u][k] in Spawns(g, u);
      }
    }
  }

  ghost predicate IsOpenDelegation(facts: Facts, systemRole: string, site: string) {
    exists k :: 0 <= k < |facts.delegations| && facts.delegations[k].site == site
      && facts.delegations[k].unresolved != []
      && (facts.delegations[k].anySystemRole || systemRole in facts.delegations[k].systemRoles)
  }

  lemma OpenDelegationIff(facts: Facts, systemRole: string, site: string)
    ensures AnyRoleDelegated(facts.delegations, systemRole, site) <==> IsOpenDelegation(facts, systemRole, site)
  {
    if d :| d in facts.delegations && AppliesTo(d, systemRole) && d.site == site && d.unresolved != [] {
      var k :| 0 <= k < |facts.delegations| && facts.delegations[k] == d;
    }
    if IsOpenDelegation(facts, systemRole, site) {
      assert forall k :: 0 <= k < |facts.delegations| ==> facts.delegations[k] in facts.delegations;
    }
  }

  /**
   * A site is unresolved exactly when a reached unit leaves it open, a delegation to the system role does, or it is
   * an entry file, given or spawned, that the program does not hold.
   */
  lemma SiteUnresolvedIff(g: Graph, facts: Facts, systemRole: string, roots: seq<string>, allowed: set<string>,
                          e: RoleEntry, t: set<Unit>, site: string)
    requires IsEntryFor(g, facts, systemRole, roots, allowed, e) && IsReachableSet(g, roots, t)
    ensures site in e.unresolved <==>
      || (exists u :: u in t && IsOpenAt(g, facts, u, site))
      || IsOpenDelegation(facts, systemRole, site)
      || (site !in facts.heldFiles && (site in roots || exists u :: u in t && SpawnsFile(g, u, site)))
  {
    hide IsEntryFor, IsReachableSet, AnyRoleAt, IsOpenAt, AnyRoleDelegated, IsOpenDelegation, SpawnsFile;
    UnresolvedIffAnyRole(g, facts, systemRole, roots, allowed, e, site);
    OpenDelegationIff(facts, systemRole, site);
    forall u ensures AnyRoleAt(g, facts, u, site) <==> IsOpenAt(g, facts, u, site) {
      OpenAtIff(g, facts, u, site);
    }
    forall other | IsReachableSet(g, roots, other) ensures other == t {
      ReachableSetIsUnique(g, roots, t, other);
    }
  }

  // ---- What a green gate says ----

  /** No more than the baseline says; without a number there, nothing, and a name of its own. */
  predicate IsWithin(baseline: Baseline, s: string, count: nat) {
    && (s in baseline ==> count <= baseline[s])
    && (s !in baseline ==> count == 0 && s !in INHERITED)
  }

  ghost predicate IsGreen(report: Report, policy: Policy, launched: set<string>,
                          unresolvedBaseline: Option<Baseline>, childBaseline: Option<Baseline>) {
    && (forall s, role :: s in report && role in report[s].reachable ==>
          role == s || role in policy.shared || (s in policy.mayAssume && role in policy.mayAssume[s]))
    && (forall s :: s in report <==> s in policy.mayAssume)
    && (forall s :: s in launched ==> s in report || s in INHERITED)
    && IsResolved(report, "oauth_callback_surface") && IsResolved(report, "surface_runtime")
    && (unresolvedBaseline.Some? ==>
          forall s :: s in report ==> IsWithin(unresolvedBaseline.value, s, |report[s].unresolved|))
    && (childBaseline.Some? ==>
          forall s :: s in report ==> IsWithin(childBaseline.value, s, |report[s].children|))
  }

  predicate IsResolved(report: Report, s: string) {
    s in report ==> |report[s].unresolved| == 0 && |report[s].children| == 0
  }

  /** The gate finds no fault exactly when the report is green. */
  lemma GreenIff(report: Report, policy: Policy, launched: set<string>,
                 unresolvedBaseline: Option<Baseline>, childBaseline: Option<Baseline>)
    ensures (forall v :: !IsFault(report, policy, launched, unresolvedBaseline, childBaseline, v)) <==>
      IsGreen(report, policy, launched, unresolvedBaseline, childBaseline)
  {
    hide IsFault, INHERITED, IsResolved, NarrowedResolved;
    NoFaultIffHolds(report, policy, launched, unresolvedBaseline, childBaseline);
    NarrowedAreTheTwo(report);
    assert LaunchedAnalysed(report, launched - INHERITED) <==>
      forall s :: s in launched ==> s in report || s in INHERITED;
    assert report.Keys == policy.mayAssume.Keys <==> forall s :: s in report <==> s in policy.mayAssume;
  }

  lemma NarrowedAreTheTwo(report: Report)
    ensures NarrowedResolved(report) <==>
      IsResolved(report, "oauth_callback_surface") && IsResolved(report, "surface_runtime")
  {
    assert NARROWED[0] == "oauth_callback_surface" && NARROWED[1] == "surface_runtime" && |NARROWED| == 2;
  }

  // ---- One review and three sites ----

  const REVIEWED_SITE := "scripts/a.ts#main"

  /** The worker assumes `admin` at one site; a review rules it out at another. */
  function AdminAt(site: string): Facts {
    Facts(map[WORKER := [RoleRecord(site, ["admin"], [])]], map[], [], [Review({"worker"}, "admin", REVIEWED_SITE)],
      {"worker.ts"})
  }

  lemma AdminIsOwnName()
    ensures "admin" !in INHERITED
  {
    assert "admin"[0] == 'a' && "constructor"[0] == 'c' && "hasOwnProperty"[0] == 'h' && "isPrototypeOf"[0] == 'i';
    assert "propertyIsEnumerable"[0] == 'p' && "toLocaleString"[0] == 't' && "toString"[0] == 't';
    assert "valueOf"[0] == 'v';
    assert "__proto__"[0] == '_' && "__defineGetter__"[0] == '_' && "__defineSetter__"[0] == '_';
    assert "__lookupGetter__"[0] == '_' && "__lookupSetter__"[0] == '_';
  }

  /** The review holds for its own site and what a space continues, and for no other site. */
  lemma ReviewHoldsForItsSite(site: string, allowed: set<string>, e: RoleEntry)
    requires IsEntryFor(ONE_UNIT, AdminAt(site), "worker", ["worker.ts"], allowed, e)
    ensures "admin" in e.reachable <==> site != REVIEWED_SITE && !IsBeforeSpace(REVIEWED_SITE, site)
  {
    hide IsEntryWith, INHERITED, IsReviewed, REVIEWED_SITE, IsBeforeSpace;
    AdminIsOwnName();
    WorkerAloneIsReached();
    RoleListedIff(ONE_UNIT, AdminAt(site), "worker", ["worker.ts"], allowed, e, {WORKER}, "admin");
    ReviewedAtIff(site);
    assert "admin" in ["admin"];
    RecordedAtIff(site);
    assert !IsDelegated(AdminAt(site), "worker", "admin");
  }

  lemma RecordedAtIff(site: string)
    ensures IsRecorded(AdminAt(site), "worker", WORKER, "admin") <==>
      !IsReviewed(AdminAt(site), "worker", "admin", site)
  {
    hide IsReviewed, REVIEWED_SITE;
    var records := AdminAt(site).records[WORKER];
    assert records[0] == RoleRecord(site, ["admin"], []) && records[0].roles[0] == "admin";
  }

  lemma ReviewedAtIff(site: string)
    ensures IsReviewed(AdminAt(site), "worker", "admin", site) <==>
      site == REVIEWED_SITE || IsBeforeSpace(REVIEWED_SITE, site)
  {
    hide REVIEWED_SITE, IsBeforeSpace;
    assert AdminAt(site).reviews[0] == Review({"worker"}, "admin", REVIEWED_SITE);
  }

  lemma WorkerAloneIsReached()
    ensures IsReachableSet(ONE_UNIT, ["worker.ts"], {WORKER})
  {
    var d := Declaration(WORKER, true, false, false, []);
    assert d in Declarations(ONE_UNIT, "worker.ts") && GivesEntry(d, WORKER);
    assert IsEntryUnit(ONE_UNIT, "worker.ts", WORKER);
    assert "worker.ts" in ["worker.ts"];
  }

  /** So `admin` is listed at another file's site, and at one that only starts with the same text. */
  lemma ThreeSites(a: RoleEntry, b: RoleEntry, mainly: RoleEntry, allowed: set<string>)
    requires IsEntryFor(ONE_UNIT, AdminAt("scripts/a.ts#main"), "worker", ["worker.ts"], allowed, a)
    requires IsEntryFor(ONE_UNIT, AdminAt("scripts/b.ts#run"), "worker", ["worker.ts"], allowed, b)
    requires IsEntryFor(ONE_UNIT, AdminAt("scripts/a.ts#mainly"), "worker", ["worker.ts"], allowed, mainly)
    ensures "admin" !in a.reachable && "admin" in b.reachable && "admin" in mainly.reachable
  {
    hide IsEntryFor, AdminAt;
    ReviewHoldsForItsSite("scripts/a.ts#main", allowed, a);
    ReviewHoldsForItsSite("scripts/b.ts#run", allowed, b);
    ReviewHoldsForItsSite("scripts/a.ts#mainly", allowed, mainly);
    assert |"scripts/b.ts#run"| == 16 && |REVIEWED_SITE| == 17 && |"scripts/a.ts#mainly"| == 19;
    assert "scripts/a.ts#mainly"[17] == 'l';
  }
}
