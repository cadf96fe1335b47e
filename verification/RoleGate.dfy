/** The gate over a finished report: which violations it returns and what an empty list means. */
module RoleGate {
  import opened PlainObject
  import opened Wrappers
  import opened Order
  import opened RoleGraph
  import opened RoleReport

  datatype Policy = Policy(shared: seq<string>, mayAssume: map<string, seq<string>>)

  datatype Rule =
    | ReachableRoleNotGranted
    | AnalysedRoleNotInPolicy
    | PolicyRoleNotAnalysed
    | LaunchedRoleNotAnalysed
    | NarrowedRoleUnresolved
    | UnresolvedSitesIncreased
    | ChildProcessEntriesIncreased

  /** `role` is the offending role of ReachableRoleNotGranted and empty otherwise. */
  datatype Violation = Violation(rule: Rule, systemRole: string, role: string)

  type Report = map<string, RoleEntry>

  type Baseline = map<string, nat>

  const NARROWED: seq<string> := ["oauth_callback_surface", "surface_runtime"]

  predicate Granted(policy: Policy, systemRole: string, role: string) {
    || role == systemRole
    || role in policy.shared
    || (systemRole in policy.mayAssume && role in policy.mayAssume[systemRole])
  }

  /** `count <= (baseline[role] ?? 0)`: an inherited name yields a function, and no number is `<=` a function. */
  predicate WithinBaseline(baseline: Baseline, role: string, count: nat) {
    if role in baseline then count <= baseline[role] else role !in INHERITED && count == 0
  }

  // ---- The invariants the gate is for ----

  ghost predicate EveryReachableRoleGranted(report: Report, policy: Policy) {
    forall s, role :: s in report && role in report[s].reachable ==> Granted(policy, s, role)
  }

  ghost predicate NarrowedResolved(report: Report) {
    forall s :: s in NARROWED && s in report ==> report[s].unresolved == {} && report[s].children == []
  }

  ghost predicate UnresolvedWithin(report: Report, baseline: Option<Baseline>) {
    baseline.Some? ==> forall s :: s in report ==> WithinBaseline(baseline.value, s, |report[s].unresolved|)
  }

  ghost predicate ChildrenWithin(report: Report, baseline: Option<Baseline>) {
    baseline.Some? ==> forall s :: s in report ==> WithinBaseline(baseline.value, s, |report[s].children|)
  }

  ghost predicate Holds(report: Report, policy: Policy, launched: set<string>,
                        unresolvedBaseline: Option<Baseline>, childBaseline: Option<Baseline>) {
    && EveryReachableRoleGranted(report, policy)
    && report.Keys == policy.mayAssume.Keys
    && LaunchedAnalysed(report, launched)
    && NarrowedResolved(report)
    && UnresolvedWithin(report, unresolvedBaseline)
    && ChildrenWithin(report, childBaseline)
  }

  /** Every launched role has an entry. */
  ghost predicate LaunchedAnalysed(report: Report, launched: set<string>) {
    launched <= report.Keys
  }

  /** The single fault a violation reports. */
  ghost predicate IsFault(report: Report, policy: Policy, launched: set<string>,
                          unresolvedBaseline: Option<Baseline>, childBaseline: Option<Baseline>, v: Violation) {
    var s := v.systemRole;
    (v.rule != ReachableRoleNotGranted ==> v.role == "") &&
    match v.rule
    case ReachableRoleNotGranted => s in report && v.role in report[s].reachable && !Granted(policy, s, v.role)
    case AnalysedRoleNotInPolicy => s in report && s !in policy.mayAssume
    case PolicyRoleNotAnalysed => s in policy.mayAssume && s !in report
    case LaunchedRoleNotAnalysed => s in launched && !Present(report, s)
    case NarrowedRoleUnresolved =>
      s in NARROWED && s in report && (report[s].unresolved != {} || report[s].children != [])
    case UnresolvedSitesIncreased =>
      unresolvedBaseline.Some? && s in report && !WithinBaseline(unresolvedBaseline.value, s, |report[s].unresolved|)
    case ChildProcessEntriesIncreased =>
      childBaseline.Some? && s in report && !WithinBaseline(childBaseline.value, s, |report[s].children|)
  }

  // ---- The gate's loops ----

  method UngrantedOf(policy: Policy, s: string, entry: RoleEntry) returns (vs: seq<Violation>)
    ensures forall v :: v in vs <==>
      v.rule == ReachableRoleNotGranted && v.systemRole == s && v.role in entry.reachable && !Granted(policy, s, v.role)
  {
    vs := [];
    var roles := Sorted(entry.reachable.Keys);
    for i := 0 to |roles|
      invariant forall v :: v in vs <==>
        v.rule == ReachableRoleNotGranted && v.systemRole == s && v.role in roles[..i] && !Granted(policy, s, v.role)
    {
      assert forall role :: role in roles[..i + 1] <==> role in roles[..i] || role == roles[i];
      if !Granted(policy, s, roles[i]) {
        vs := vs + [Violation(ReachableRoleNotGranted, s, roles[i])];
      }
    }
    assert roles[..|roles|] == roles;
  }

  ghost predicate AnalysedFault(report: Report, policy: Policy, analysed: seq<string>, v: Violation)
    requires forall s :: s in analysed ==> s in report
  {
    && v.systemRole in analysed
    && ((v.rule == ReachableRoleNotGranted && v.role in report[v.systemRole].reachable
         && !Granted(policy, v.systemRole, v.role))
        || (v.rule == AnalysedRoleNotInPolicy && v.role == "" && v.systemRole !in policy.mayAssume))
  }

  method CheckAnalysed(report: Report, policy: Policy) returns (vs: seq<Violation>)
    ensures forall v :: v in vs <==>
      (v.rule == ReachableRoleNotGranted && v.systemRole in report && v.role in report[v.systemRole].reachable
        && !Granted(policy, v.systemRole, v.role))
      || (v.rule == AnalysedRoleNotInPolicy && v.role == "" && v.systemRole in report
          && v.systemRole !in policy.mayAssume)
  {
    vs := [];
    var analysed := Sorted(report.Keys);
    for i := 0 to |analysed|
      invariant forall v :: v in vs <==> AnalysedFault(report, policy, analysed[..i], v)
    {
      var s := analysed[i];
      assert forall x :: x in analysed[..i + 1] <==> x in analysed[..i] || x == s;
      var ungranted := UngrantedOf(policy, s, report[s]);
      vs := vs + ungranted;
      if s !in policy.mayAssume {
        vs := vs + [Violation(AnalysedRoleNotInPolicy, s, "")];
      }
    }
    assert analysed[..|analysed|] == analysed;
  }

  method CheckGoverned(report: Report, policy: Policy) returns (vs: seq<Violation>)
    ensures forall v :: v in vs <==>
      v.rule == PolicyRoleNotAnalysed && v.role == "" && v.systemRole in policy.mayAssume && v.systemRole !in report
  {
    vs := [];
    var governed := Sorted(policy.mayAssume.Keys);
    for i := 0 to |governed|
      invariant forall v :: v in vs <==>
        v.rule == PolicyRoleNotAnalysed && v.role == "" && v.systemRole in governed[..i] && v.systemRole !in report
    {
      assert forall x :: x in governed[..i + 1] <==> x in governed[..i] || x == governed[i];
      if governed[i] !in report {
        vs := vs + [Violation(PolicyRoleNotAnalysed, governed[i], "")];
      }
    }
    assert governed[..|governed|] == governed;
  }

  method CheckLaunched(report: Report, launched: set<string>) returns (vs: seq<Violation>)
    ensures forall v :: v in vs <==>
      v.rule == LaunchedRoleNotAnalysed && v.role == "" && v.systemRole in launched && !Present(report, v.systemRole)
    ensures vs == [] <==> launched <= report.Keys + INHERITED
  {
    hide INHERITED;
    vs := [];
    var names := Sorted(launched);
    for i := 0 to |names|
      invariant forall v :: v in vs <==>
        v.rule == LaunchedRoleNotAnalysed && v.role == "" && v.systemRole in names[..i]
          && !Present(report, v.systemRole)
    {
      assert forall x :: x in names[..i + 1] <==> x in names[..i] || x == names[i];
      if !Present(report, names[i]) {
        vs := vs + [Violation(LaunchedRoleNotAnalysed, names[i], "")];
      }
    }
    assert names[..|names|] == names;
    if vs == [] {
      forall s | s in launched ensures s in report.Keys + INHERITED {
        assert Violation(LaunchedRoleNotAnalysed, s, "") !in vs;
      }
    } else {
      assert vs[0] in vs;
    }
  }

  method CheckNarrowed(report: Report) returns (vs: seq<Violation>)
    ensures forall v :: v in vs <==>
      v.rule == NarrowedRoleUnresolved && v.role == "" && v.systemRole in NARROWED && v.systemRole in report
        && (report[v.systemRole].unresolved != {} || report[v.systemRole].children != [])
  {
    vs := [];
    for i := 0 to |NARROWED|
      invariant forall v :: v in vs <==>
        v.rule == NarrowedRoleUnresolved && v.role == "" && v.systemRole in NARROWED[..i] && v.systemRole in report
          && (report[v.systemRole].unresolved != {} || report[v.systemRole].children != [])
    {
      var s := NARROWED[i];
      assert forall x :: x in NARROWED[..i + 1] <==> x in NARROWED[..i] || x == s;
      if s in report && (report[s].unresolved != {} || report[s].children != []) {
        vs := vs + [Violation(NarrowedRoleUnresolved, s, "")];
      }
    }
    assert NARROWED[..|NARROWED|] == NARROWED;
  }

  /** Both ratchets run the same loop, over their own counts. */
  method CheckRatchet(rule: Rule, counts: map<string, nat>, baseline: Option<Baseline>) returns (vs: seq<Violation>)
    ensures forall v :: v in vs <==>
      v.rule == rule && v.role == "" && baseline.Some? && v.systemRole in counts
        && !WithinBaseline(baseline.value, v.systemRole, counts[v.systemRole])
  {
    vs := [];
    if baseline.Some? {
      var names := Sorted(counts.Keys);
      for i := 0 to |names|
        invariant forall v :: v in vs <==>
          v.rule == rule && v.role == "" && v.systemRole in names[..i]
            && !WithinBaseline(baseline.value, v.systemRole, counts[v.systemRole])
      {
        assert forall x :: x in names[..i + 1] <==> x in names[..i] || x == names[i];
        if !WithinBaseline(baseline.value, names[i], counts[names[i]]) {
          vs := vs + [Violation(rule, names[i], "")];
        }
      }
      assert names[..|names|] == names;
    }
  }

  function CountUnresolvedSites(report: Report): map<string, nat> {
    map s | s in report :: |report[s].unresolved|
  }

  function CountChildProcessEntries(report: Report): map<string, nat> {
    map s | s in report :: |report[s].children|
  }

  /**
   * The gate returns exactly the faults there are. It is green exactly when every invariant holds, a launched role
   * with an inherited name aside: the lookup finds something for it, so its missing entry goes unnoticed.
   */
  method CheckReachabilityInvariants(report: Report, policy: Policy, launched: set<string>,
                                     unresolvedBaseline: Option<Baseline>, childBaseline: Option<Baseline>)
    returns (vs: seq<Violation>)
    ensures forall v :: v in vs <==> IsFault(report, policy, launched, unresolvedBaseline, childBaseline, v)
    ensures vs == [] <==> Holds(report, policy, launched - INHERITED, unresolvedBaseline, childBaseline)
    ensures launched !! INHERITED ==>
      (vs == [] <==> Holds(report, policy, launched, unresolvedBaseline, childBaseline))
  {
    hide Holds, INHERITED, NARROWED;
    var a := CheckAnalysed(report, policy);
    var b := CheckGoverned(report, policy);
    var c := CheckLaunched(report, launched);
    var d := CheckNarrowed(report);
    var e := CheckRatchet(UnresolvedSitesIncreased, CountUnresolvedSites(report), unresolvedBaseline);
    var f := CheckRatchet(ChildProcessEntriesIncreased, CountChildProcessEntries(report), childBaseline);
    vs := a + b + c + d + e + f;
    assert forall v :: v in vs <==> v in a || v in b || v in c || v in d || v in e || v in f;
    FaultsDecide(report, policy, launched, unresolvedBaseline, childBaseline, vs);
    assert launched !! INHERITED ==> launched - INHERITED == launched;
  }

  lemma FaultsDecide(report: Report, policy: Policy, launched: set<string>, unresolvedBaseline: Option<Baseline>,
                     childBaseline: Option<Baseline>, vs: seq<Violation>)
    requires forall v :: v in vs <==> IsFault(report, policy, launched, unresolvedBaseline, childBaseline, v)
    ensures vs == [] <==> Holds(report, policy, launched - INHERITED, unresolvedBaseline, childBaseline)
  {
    hide Holds, IsFault, INHERITED;
    NoFaultIffHolds(report, policy, launched, unresolvedBaseline, childBaseline);
    if vs != [] {
      assert vs[0] in vs;
    }
  }

  /** No fault of one rule. */
  ghost predicate RuleHolds(report: Report, policy: Policy, launched: set<string>,
                            unresolvedBaseline: Option<Baseline>, childBaseline: Option<Baseline>, rule: Rule) {
    forall s, role ::
      !IsFault(report, policy, launched, unresolvedBaseline, childBaseline, Violation(rule, s, role))
  }

  lemma GrantRuleHoldsIff(report: Report, policy: Policy, launched: set<string>,
                          unresolvedBaseline: Option<Baseline>, childBaseline: Option<Baseline>)
    ensures RuleHolds(report, policy, launched, unresolvedBaseline, childBaseline, ReachableRoleNotGranted) <==>
      EveryReachableRoleGranted(report, policy)
  {
    hide INHERITED, NARROWED, Granted;
    if RuleHolds(report, policy, launched, unresolvedBaseline, childBaseline, ReachableRoleNotGranted) {
      forall s, role | s in report && role in report[s].reachable ensures Granted(policy, s, role) {
        assert !IsFault(report, policy, launched, unresolvedBaseline, childBaseline,
          Violation(ReachableRoleNotGranted, s, role));
      }
    }
  }

  /** A rule without an offending role holds exactly when it holds with none named. */
  lemma PlainRuleHoldsIff(report: Report, policy: Policy, launched: set<string>,
                          unresolvedBaseline: Option<Baseline>, childBaseline: Option<Baseline>, rule: Rule)
    requires rule != ReachableRoleNotGranted
    ensures RuleHolds(report, policy, launched, unresolvedBaseline, childBaseline, rule) <==>
      NeverFaulty(report, policy, launched, unresolvedBaseline, childBaseline, rule)
  {
    hide INHERITED, NARROWED, Granted;
    if NeverFaulty(report, policy, launched, unresolvedBaseline, childBaseline, rule) {
      forall s, role
        ensures !IsFault(report, policy, launched, unresolvedBaseline, childBaseline, Violation(rule, s, role))
      {
        assert !FaultAt(report, policy, launched, unresolvedBaseline, childBaseline, rule, s);
      }
    }
    if RuleHolds(report, policy, launched, unresolvedBaseline, childBaseline, rule) {
      forall s ensures !FaultAt(report, policy, launched, unresolvedBaseline, childBaseline, rule, s) {
        assert !IsFault(report, policy, launched, unresolvedBaseline, childBaseline, Violation(rule, s, ""));
      }
    }
  }

  ghost predicate FaultAt(report: Report, policy: Policy, launched: set<string>, unresolvedBaseline: Option<Baseline>,
                          childBaseline: Option<Baseline>, rule: Rule, s: string) {
    IsFault(report, policy, launched, unresolvedBaseline, childBaseline, Violation(rule, s, ""))
  }

  ghost predicate NeverFaulty(report: Report, policy: Policy, launched: set<string>,
                              unresolvedBaseline: Option<Baseline>, childBaseline: Option<Baseline>, rule: Rule) {
    forall s :: !FaultAt(report, policy, launched, unresolvedBaseline, childBaseline, rule, s)
  }

  lemma RoleSetRulesAre(report: Report, policy: Policy, launched: set<string>,
                        unresolvedBaseline: Option<Baseline>, childBaseline: Option<Baseline>)
    ensures NeverFaulty(report, policy, launched, unresolvedBaseline, childBaseline, AnalysedRoleNotInPolicy) <==>
      report.Keys <= policy.mayAssume.Keys
    ensures NeverFaulty(report, policy, launched, unresolvedBaseline, childBaseline, PolicyRoleNotAnalysed) <==>
      policy.mayAssume.Keys <= report.Keys
    ensures NeverFaulty(report, policy, launched, unresolvedBaseline, childBaseline, LaunchedRoleNotAnalysed) <==>
      LaunchedAnalysed(report, launched - INHERITED)
  {
    hide INHERITED, NARROWED, Granted, WithinBaseline;
    if NeverFaulty(report, policy, launched, unresolvedBaseline, childBaseline, AnalysedRoleNotInPolicy) {
      forall s | s in report.Keys ensures s in policy.mayAssume.Keys {
        assert !FaultAt(report, policy, launched, unresolvedBaseline, childBaseline, AnalysedRoleNotInPolicy, s);
      }
    }
    if NeverFaulty(report, policy, launched, unresolvedBaseline, childBaseline, PolicyRoleNotAnalysed) {
      forall s | s in policy.mayAssume.Keys ensures s in report.Keys {
        assert !FaultAt(report, policy, launched, unresolvedBaseline, childBaseline, PolicyRoleNotAnalysed, s);
      }
    }
    if NeverFaulty(report, policy, launched, unresolvedBaseline, childBaseline, LaunchedRoleNotAnalysed) {
      forall s | s in launched - INHERITED ensures s in report.Keys {
        assert !FaultAt(report, policy, launched, unresolvedBaseline, childBaseline, LaunchedRoleNotAnalysed, s);
      }
    }
  }

  lemma CountRulesAre(report: Report, policy: Policy, launched: set<string>,
                      unresolvedBaseline: Option<Baseline>, childBaseline: Option<Baseline>)
    ensures NeverFaulty(report, policy, launched, unresolvedBaseline, childBaseline, NarrowedRoleUnresolved) <==>
      NarrowedResolved(report)
    ensures NeverFaulty(report, policy, launched, unresolvedBaseline, childBaseline, UnresolvedSitesIncreased) <==>
      UnresolvedWithin(report, unresolvedBaseline)
    ensures NeverFaulty(report, policy, launched, unresolvedBaseline, childBaseline, ChildProcessEntriesIncreased) <==>
      ChildrenWithin(report, childBaseline)
  {
    hide INHERITED, NARROWED, Granted, WithinBaseline;
    if NeverFaulty(report, policy, launched, unresolvedBaseline, childBaseline, NarrowedRoleUnresolved) {
      forall s | s in NARROWED && s in report ensures report[s].unresolved == {} && report[s].children == [] {
        assert !FaultAt(report, policy, launched, unresolvedBaseline, childBaseline, NarrowedRoleUnresolved, s);
      }
    }
    if NeverFaulty(report, policy, launched, unresolvedBaseline, childBaseline, UnresolvedSitesIncreased) {
      forall s | unresolvedBaseline.Some? && s in report
        ensures WithinBaseline(unresolvedBaseline.value, s, |report[s].unresolved|)
      {
        assert !FaultAt(report, policy, launched, unresolvedBaseline, childBaseline, UnresolvedSitesIncreased, s);
      }
    }
    if NeverFaulty(report, policy, launched, unresolvedBaseline, childBaseline, ChildProcessEntriesIncreased) {
      forall s | childBaseline.Some? && s in report
        ensures WithinBaseline(childBaseline.value, s, |report[s].children|)
      {
        assert !FaultAt(report, policy, launched, unresolvedBaseline, childBaseline, ChildProcessEntriesIncreased, s);
      }
    }
  }

  /** Each violation names one broken invariant, and a broken invariant always yields one. */
  lemma NoFaultIffHolds(report: Report, policy: Policy, launched: set<string>,
                        unresolvedBaseline: Option<Baseline>, childBaseline: Option<Baseline>)
    ensures (forall v :: !IsFault(report, policy, launched, unresolvedBaseline, childBaseline, v)) <==>
      Holds(report, policy, launched - INHERITED, unresolvedBaseline, childBaseline)
  {
    hide IsFault, NeverFaulty, INHERITED;
    GrantRuleHoldsIff(report, policy, launched, unresolvedBaseline, childBaseline);
    forall rule: Rule | rule != ReachableRoleNotGranted
      ensures RuleHolds(report, policy, launched, unresolvedBaseline, childBaseline, rule) <==>
        NeverFaulty(report, policy, launched, unresolvedBaseline, childBaseline, rule)
    {
      PlainRuleHoldsIff(report, policy, launched, unresolvedBaseline, childBaseline, rule);
    }
    RoleSetRulesAre(report, policy, launched, unresolvedBaseline, childBaseline);
    CountRulesAre(report, policy, launched, unresolvedBaseline, childBaseline);
    forall v | forall rule :: RuleHolds(report, policy, launched, unresolvedBaseline, childBaseline, rule)
      ensures !IsFault(report, policy, launched, unresolvedBaseline, childBaseline, v)
    {
      assert RuleHolds(report, policy, launched, unresolvedBaseline, childBaseline, v.rule);
      assert v == Violation(v.rule, v.systemRole, v.role);
    }
  }

  // ---- What a green gate means for the code ----

  /** Every entry of the report was assembled for its system role. */
  ghost predicate ReportsOn(g: Graph, facts: Facts, roots: map<string, seq<string>>, policy: Policy, report: Report) {
    report.Keys == roots.Keys &&
    forall s :: s in report ==> exists allowed :: IsEntryFor(g, facts, s, roots[s], allowed, report[s])
  }

  /**
   * The role half of the gate is green exactly when every role a system role can assume is granted to
   * it, leaving aside roles named like a member of Object.prototype.
   */
  lemma GateDecidesGrants(g: Graph, facts: Facts, roots: map<string, seq<string>>, policy: Policy, report: Report)
    requires ReportsOn(g, facts, roots, policy, report)
    ensures EveryReachableRoleGranted(report, policy) <==>
      forall s, role :: s in roots && role !in INHERITED && CanAssume(g, facts, s, roots[s], role) ==>
        Granted(policy, s, role)
  {
    forall s, role | s in report
      ensures role in report[s].reachable <==> role !in INHERITED && CanAssume(g, facts, s, roots[s], role)
    {
      var allowed :| IsEntryFor(g, facts, s, roots[s], allowed, report[s]);
      ListedIffAssumable(g, facts, s, roots[s], allowed, report[s], role);
    }
  }

  const WORKER := Unit(0, "worker", "worker.ts")

  const ONE_UNIT := Graph(map[], map[], map["worker.ts" := [Declaration(WORKER, true, false, false, [])]])

  const ASSUMES_CONSTRUCTOR :=
    Facts(map[WORKER := [RoleRecord("worker.ts#worker", ["constructor"], [])]], map[], [], [], {"worker.ts"})

  /** Without that exception the equivalence fails: a role named "constructor" is never listed and passes ungranted. */
  lemma InheritedNamePassesUngranted(report: Report)
    requires ReportsOn(ONE_UNIT, ASSUMES_CONSTRUCTOR, map["worker" := ["worker.ts"]],
      Policy([], map["worker" := []]), report)
    ensures CanAssume(ONE_UNIT, ASSUMES_CONSTRUCTOR, "worker", ["worker.ts"], "constructor")
    ensures !Granted(Policy([], map["worker" := []]), "worker", "constructor")
    ensures "worker" in report && "constructor" !in report["worker"].reachable
  {
    hide EntryMatches, AreEntryFiles, ArePerformed, ChildrenMatch;
    WorkerAssumesConstructor();
    var allowed :| IsEntryFor(ONE_UNIT, ASSUMES_CONSTRUCTOR, "worker", ["worker.ts"], allowed, report["worker"]);
    ListedIffAssumable(ONE_UNIT, ASSUMES_CONSTRUCTOR, "worker", ["worker.ts"], allowed, report["worker"],
      "constructor");
    var t, order: seq<Unit>, files, spawns :| IsEntryWith(ONE_UNIT, ASSUMES_CONSTRUCTOR, "worker", ["worker.ts"],
      allowed, report["worker"], t, order, files, spawns);
    assert "worker.ts" in ["worker.ts"];
    assert WORKER in t;
    assert |"worker"| != |"constructor"|;
  }

  lemma WorkerAssumesConstructor()
    ensures Assumes(ASSUMES_CONSTRUCTOR, "worker", WORKER, "constructor")
    ensures IsEntryUnit(ONE_UNIT, "worker.ts", WORKER)
  {
    var record := RoleRecord("worker.ts#worker", ["constructor"], []);
    assert record in RecordsOf(ASSUMES_CONSTRUCTOR, WORKER) && "constructor" in record.roles;
    assert Feasible(ASSUMES_CONSTRUCTOR, "worker", record, record.roles, "constructor");
    var d := Declaration(WORKER, true, false, false, []);
    assert d in Declarations(ONE_UNIT, "worker.ts") && GivesEntry(d, WORKER);
  }

  /** A launched role with such a name is not missed either: the gate is green without any entry for it. */
  lemma InheritedLaunchPassesUnanalysed()
    ensures var report: Report, policy, launched := map[], Policy([], map[]), {"constructor"};
      && (forall v :: !IsFault(report, policy, launched, None, None, v))
      && !LaunchedAnalysed(report, launched)
  {
    NoFaultIffHolds(map[], Policy([], map[]), {"constructor"}, None, None);
    assert {"constructor"} - INHERITED == {};
    assert "constructor" in {"constructor"};
  }

  /**
   * The narrowed half of the gate is green exactly when each narrowed role that is analysed meets no site that may
   * assume any role and performs no spawn that keeps its SYSTEM_ROLE.
   */
  lemma GateDecidesNarrowed(g: Graph, facts: Facts, roots: map<string, seq<string>>, policy: Policy, report: Report)
    requires ReportsOn(g, facts, roots, policy, report)
    ensures NarrowedResolved(report) <==> forall s :: s in NARROWED && s in roots ==> IsNarrow(g, facts, s, roots[s])
  {
    hide NARROWED, IsEntryFor, IsNarrow;
    forall s | s in report
      ensures report[s].unresolved == {} && report[s].children == [] <==> IsNarrow(g, facts, s, roots[s])
    {
      var allowed :| IsEntryFor(g, facts, s, roots[s], allowed, report[s]);
      ResolvedIffNarrow(g, facts, s, roots[s], allowed, report[s]);
    }
  }

  ghost predicate IsNarrow(g: Graph, facts: Facts, systemRole: string, roots: seq<string>) {
    && (forall site :: !MayBeAnyRole(g, facts, systemRole, roots, site))
    && forall t, u, s :: IsReachableSet(g, roots, t) && u in t ==> !Performs(g, u, s)
  }

  lemma ResolvedIffNarrow(g: Graph, facts: Facts, systemRole: string, roots: seq<string>, allowed: set<string>,
                          e: RoleEntry)
    requires IsEntryFor(g, facts, systemRole, roots, allowed, e)
    ensures e.unresolved == {} && e.children == [] <==> IsNarrow(g, facts, systemRole, roots)
  {
    hide MayBeAnyRole, Performs, IsReachableSet, EntryMatches, AreEntryFiles, ChildrenMatch, ArePerformed;
    forall site ensures site in e.unresolved <==> MayBeAnyRole(g, facts, systemRole, roots, site) {
      UnresolvedIffAnyRole(g, facts, systemRole, roots, allowed, e, site);
    }
    var t, order: seq<Unit>, files, spawns :|
      IsEntryWith(g, facts, systemRole, roots, allowed, e, t, order, files, spawns);
    assert e.unresolved == {} <==> forall site :: !MayBeAnyRole(g, facts, systemRole, roots, site);
    forall other | IsReachableSet(g, roots, other) ensures other == t {
      ReachableSetIsUnique(g, roots, t, other);
    }
    NoChildIffNoneSited(g, facts, systemRole, roots, allowed, e, t);
  }

  lemma NoChildIffNoneSited(g: Graph, facts: Facts, systemRole: string, roots: seq<string>, allowed: set<string>,
                            e: RoleEntry, t: set<Unit>)
    requires IsEntryFor(g, facts, systemRole, roots, allowed, e) && IsReachableSet(g, roots, t)
    ensures e.children == [] <==> forall u, s :: u in t ==> !Performs(g, u, s)
  {
    hide IsEntryFor, IsReachableSet, Performs;
    if e.children != [] {
      ChildListedIffPerformed(g, facts, systemRole, roots, allowed, e, t, e.children[0].site);
    } else {
      forall u, s | u in t ensures !Performs(g, u, s) {
        ChildListedIffPerformed(g, facts, systemRole, roots, allowed, e, t, s.site);
      }
    }
  }

  // ---- Slack below the baseline ----

  /** A baseline count is slack when the current count is below it. */
  method FindBaselineSlack(counts: map<string, nat>, baseline: Baseline) returns (slack: seq<string>)
    ensures forall s :: s in slack <==> s in counts && s in baseline && counts[s] < baseline[s]
  {
    slack := [];
    var names := Sorted(counts.Keys);
    for i := 0 to |names|
      invariant forall s :: s in slack <==> s in names[..i] && s in baseline && counts[s] < baseline[s]
    {
      assert forall x :: x in names[..i + 1] <==> x in names[..i] || x == names[i];
      if names[i] in baseline && counts[names[i]] < baseline[names[i]] {
        slack := slack + [names[i]];
      }
    }
    assert names[..|names|] == names;
  }
}
