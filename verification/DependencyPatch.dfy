/** The dependency patch transaction against a command runner that may fail, throw and edit the manifest. */
module DependencyPatch {
  import opened PlainObject
  import opened Wrappers
  import opened WhiteSpace
  import opened DependencyManifest

  /** What the text of an audit reads as. */
  datatype Audit = Unreadable | NoList | List(names: set<string>)

  /** JSON: reading and printing manifests, and reading an audit that is not blank. */
  datatype Codec = Codec(parse: string -> Option<Manifest>, toText: Manifest -> string, audit: string -> Audit)

  /** One command's answer. Any command may leave another text in the manifest file. */
  datatype Reply = Reply(throws: bool, status: int, stdout: string, edit: Option<string>)

  datatype Verdict = Green | Yellow | Red | Unavailable

  /** One call: its options, the gates' names, and how the world answers its commands in order. */
  datatype Job = Job(
    name: string, version: string, apply: bool, allowOverride: bool,
    gates: seq<string>, codec: Codec, replies: nat -> Reply, canary: Option<Verdict>)

  datatype Status = Proposed | Patched | RolledBack | Refused

  datatype Gate = Gate(name: string, passed: bool)

  datatype Outcome = Outcome(
    status: Status, plan: Option<Plan>, gates: seq<Gate>, backup: Option<string>, canary: Option<Verdict>)

  datatype Record = Record(outcome: Outcome, reinstall: Option<int>)

  datatype PatchError = UnreadableManifest | CommandThrew

  // ---- The rescan ----

  function AuditOf(c: Codec, stdout: string): Audit {
    if Blank(stdout) then NoList else c.audit(stdout)
  }

  /** An audit that cannot be read counts as still vulnerable; one without a list does not. */
  predicate StillVulnerable(audit: Audit, name: string) {
    audit.Unreadable? || (audit.List? && (name in audit.names || name in INHERITED))
  }

  // ---- What the commands come to ----

  /** The gates' commands come first, then the rescan; later ones reinstall. */
  predicate Passes(j: Job, k: nat) {
    if k < |j.gates| then j.replies(k).status == 0
    else !StillVulnerable(AuditOf(j.codec, j.replies(k).stdout), j.name)
  }

  predicate IsGood(j: Job, k: nat) {
    !j.replies(k).throws && Passes(j, k)
  }

  /** The first command from `k` on that throws or does not pass, up to and including the rescan. */
  function Stop(j: Job, k: nat): (r: nat)
    requires k <= |j.gates| + 1
    ensures k <= r <= |j.gates| + 1
    ensures forall i :: k <= i < r ==> IsGood(j, i)
    ensures r <= |j.gates| ==> !IsGood(j, r)
    decreases |j.gates| + 1 - k
  {
    if k <= |j.gates| && IsGood(j, k) then Stop(j, k + 1) else k
  }

  function GateName(j: Job, k: nat): string {
    if k < |j.gates| then j.gates[k] else "vuln_rescan"
  }

  /** The results of the first `n` commands. */
  function Results(j: Job, n: nat): seq<Gate> {
    if n == 0 then [] else Results(j, n - 1) + [Gate(GateName(j, n - 1), Passes(j, n - 1))]
  }

  function Edit(text: string, reply: Reply): string {
    if reply.edit.Some? then reply.edit.value else text
  }

  /** The manifest file once the first `n` commands are done. */
  function Edited(j: Job, text: string, n: nat): string {
    if n == 0 then text else Edit(Edited(j, text, n - 1), j.replies(n - 1))
  }

  // ---- The transaction ----

  datatype End = End(result: Result<Outcome, PatchError>, manifest: string, records: seq<Record>)

  function Ended(outcome: Outcome, manifest: string, reinstall: Option<int>): End {
    End(Ok(outcome), manifest, [Record(outcome, reinstall)])
  }

  /** From the written manifest on. */
  function Transaction(j: Job, original: string, written: string, plan: Plan): End {
    var stop := Stop(j, 0);
    if stop > |j.gates| then
      Ended(Outcome(Patched, Some(plan), Results(j, stop), Some(original),
        Some(if j.canary.Some? then j.canary.value else Unavailable)), Edited(j, written, stop), None)
    else if j.replies(stop).throws then End(Err(CommandThrew), Edited(j, written, stop + 1), [])
    else
      var reinstall := j.replies(stop + 1);
      if reinstall.throws then End(Err(CommandThrew), Edit(original, reinstall), [])
      else Ended(Outcome(RolledBack, Some(plan), Results(j, stop + 1), Some(original), None),
        Edit(original, reinstall), Some(reinstall.status))
  }

  function PlanOf(j: Job, m: Manifest): Option<Plan> {
    PlanDependencyPatch(m, j.name, j.version, j.allowOverride)
  }

  function Patch(j: Job, text: string): End {
    match j.codec.parse(text)
    case None => End(Err(UnreadableManifest), text, [])
    case Some(m) =>
      match PlanOf(j, m)
      case None => Ended(Outcome(Refused, None, [], None, None), text, None)
      case Some(plan) =>
        if !j.apply then Ended(Outcome(Proposed, Some(plan), [], None, None), text, None)
        else Transaction(j, text, j.codec.toText(ApplyPlanToPackage(m, j.name, plan)), plan)
  }

  /** The manifest file and the ledger. */
  class Workspace {
    var manifest: string
    var ledger: seq<Record>

    constructor (manifest: string)
      ensures this.manifest == manifest && ledger == []
    {
      this.manifest, ledger := manifest, [];
    }

    /** A command may edit the manifest, whether or not it throws then. */
    method RunCommand(j: Job, k: nat) returns (reply: Reply)
      modifies this`manifest
      ensures reply == j.replies(k) && manifest == Edit(old(manifest), reply)
    {
      reply := j.replies(k);
      if reply.edit.Some? {
        manifest := reply.edit.value;
      }
    }

    method Append(outcome: Outcome, reinstall: Option<int>) returns (r: Result<Outcome, PatchError>)
      modifies this`ledger
      ensures r == Ok(outcome) && ledger == old(ledger) + [Record(outcome, reinstall)]
    {
      ledger := ledger + [Record(outcome, reinstall)];
      r := Ok(outcome);
    }

    method RollBack(j: Job, k: nat, original: string, plan: Plan, gates: seq<Gate>)
      returns (r: Result<Outcome, PatchError>)
      modifies this
      ensures manifest == Edit(original, j.replies(k))
      ensures if j.replies(k).throws then r == Err(CommandThrew) && ledger == old(ledger)
        else
          r == Ok(Outcome(RolledBack, Some(plan), gates, Some(original), None))
          && ledger == old(ledger) + [Record(r.value, Some(j.replies(k).status))]
    {
      manifest := original;
      var reinstall := RunCommand(j, k);
      if reinstall.throws {
        return Err(CommandThrew);
      }
      r := Append(Outcome(RolledBack, Some(plan), gates, Some(original), None), Some(reinstall.status));
    }

    /** The gates in order, then the rescan: the index of the command that stopped it, and the results. */
    method RunGates(j: Job, written: string) returns (stop: nat, threw: bool, results: seq<Gate>)
      requires manifest == written
      modifies this`manifest
      ensures stop == Stop(j, 0)
      ensures manifest == Edited(j, written, if stop > |j.gates| then stop else stop + 1)
      ensures threw <==> stop <= |j.gates| && j.replies(stop).throws
      ensures !threw ==> results == Results(j, if stop > |j.gates| then stop else stop + 1)
    {
      results := [];
      for k := 0 to |j.gates|
        invariant Stop(j, 0) == Stop(j, k)
        invariant results == Results(j, k) && manifest == Edited(j, written, k)
      {
        var result := RunCommand(j, k);
        assert manifest == Edited(j, written, k + 1);
        if result.throws {
          return k, true, results;
        }
        var passed := result.status == 0;
        results := results + [Gate(j.gates[k], passed)];
        if !passed {
          return k, false, results;
        }
      }
      var rescan := RunCommand(j, |j.gates|);
      if rescan.throws {
        return |j.gates|, true, results;
      }
      var stillVulnerable := StillVulnerable(AuditOf(j.codec, rescan.stdout), j.name);
      results := results + [Gate("vuln_rescan", !stillVulnerable)];
      if stillVulnerable {
        return |j.gates|, false, results;
      }
      return |j.gates| + 1, false, results;
    }

    method ApplyDependencyPatch(j: Job) returns (r: Result<Outcome, PatchError>)
      modifies this
      ensures var end := Patch(j, old(manifest));
        r == end.result && manifest == end.manifest && ledger == old(ledger) + end.records
    {
      var parsed := j.codec.parse(manifest);
      if parsed.None? {
        return Err(UnreadableManifest);
      }
      var plan := PlanDependencyPatch(parsed.value, j.name, j.version, j.allowOverride);
      if plan.None? {
        r := Append(Outcome(Refused, None, [], None, None), None);
        return;
      }
      if !j.apply {
        r := Append(Outcome(Proposed, plan, [], None, None), None);
        return;
      }
      var original := manifest;
      manifest := j.codec.toText(ApplyPlanToPackage(parsed.value, j.name, plan.value));
      var stop, threw, results := RunGates(j, manifest);
      if threw {
        return Err(CommandThrew);
      }
      if stop <= |j.gates| {
        r := RollBack(j, stop + 1, original, plan.value, results);
        return;
      }
      var verdict := if j.canary.Some? then j.canary.value else Unavailable;
      r := Append(Outcome(Patched, plan, results, Some(original), Some(verdict)), None);
    }
  }

  // ---- For every runner ----

  /** Each call that returns leaves exactly one record, of what it returned; one that throws leaves none. */
  lemma OneRecordPerReturn(j: Job, text: string)
    ensures var end := Patch(j, text);
      if end.result.Ok? then |end.records| == 1 && end.records[0].outcome == end.result.value else end.records == []
  {
  }

  lemma {:induction false} ResultsAre(j: Job, n: nat)
    ensures |Results(j, n)| == n
    ensures forall k: nat :: k < n ==> Results(j, n)[k] == Gate(GateName(j, k), Passes(j, k))
  {
    hide Passes, GateName;
    if n > 0 {
      ResultsAre(j, n - 1);
    }
  }

  /** The reported gates are the ones asked for, in order: all passed, save perhaps the last. */
  lemma GatesAreAPassingPrefix(j: Job, text: string)
    requires Patch(j, text).result.Ok? && Patch(j, text).result.value.status in {Patched, RolledBack}
    ensures var o := Patch(j, text).result.value;
      && 0 < |o.gates| <= |j.gates| + 1
      && (forall k: nat :: k < |o.gates| ==> o.gates[k].name == GateName(j, k))
      && (forall k: nat :: k < |o.gates| - 1 ==> o.gates[k].passed)
      && (o.gates[|o.gates| - 1].passed <==> o.status == Patched)
      && (o.status == Patched ==> |o.gates| == |j.gates| + 1)
  {
    hide Passes, GateName, PlanOf, ApplyPlanToPackage;
    var stop := Stop(j, 0);
    ResultsAre(j, stop);
    ResultsAre(j, stop + 1);
    forall k: nat | k < stop ensures Passes(j, k) {
      assert IsGood(j, k);
    }
    if stop > |j.gates| {
      var last := stop - 1;
      assert Results(j, stop)[last] == Gate(GateName(j, last), Passes(j, last));
    } else {
      assert Results(j, stop + 1)[stop] == Gate(GateName(j, stop), Passes(j, stop));
    }
  }

  ghost predicate Applies(j: Job, text: string) {
    j.apply && j.codec.parse(text).Some? && PlanOf(j, j.codec.parse(text).value).Some?
  }

  /** A patch is confirmed exactly when it was to be applied and every gate and the rescan pass. */
  lemma PatchedIffAllPass(j: Job, text: string)
    ensures (Patch(j, text).result.Ok? && Patch(j, text).result.value.status == Patched) <==>
      Applies(j, text) && forall k: nat :: k <= |j.gates| ==> IsGood(j, k)
  {
    hide IsGood, ApplyPlanToPackage;
  }

  /** The rescan passes on what it prints alone: its exit status is not looked at, and printing nothing passes. */
  lemma RescanPassesIff(j: Job)
    ensures var reply := j.replies(|j.gates|);
      Passes(j, |j.gates|) <==>
        Blank(reply.stdout) || j.codec.audit(reply.stdout).NoList? ||
        (j.codec.audit(reply.stdout).List? && j.name !in j.codec.audit(reply.stdout).names && j.name !in INHERITED)
  {
    hide Blank, INHERITED;
  }

  /** So a rescan that fails without a word confirms the patch. */
  lemma SilentRescanConfirms(j: Job, text: string)
    requires Applies(j, text) && forall k: nat :: k < |j.gates| ==> IsGood(j, k)
    requires j.replies(|j.gates|) == Reply(false, 1, "", None)
    ensures Patch(j, text).result.Ok? && Patch(j, text).result.value.status == Patched
  {
    PatchedIffAllPass(j, text);
  }

  /**
   * A rollback leaves the original manifest exactly when the reinstall after it does: whatever the gates' commands
   * wrote is undone, what the reinstall writes is not.
   */
  lemma RollbackRestoresIff(j: Job, text: string)
    requires Patch(j, text).result.Ok? && Patch(j, text).result.value.status == RolledBack
    ensures var end := Patch(j, text);
      var reinstall := j.replies(|end.result.value.gates|);
      && end.result.value.backup == Some(text)
      && (end.manifest == text <==> reinstall.edit == None || reinstall.edit == Some(text))
  {
    hide IsGood, Passes, ApplyPlanToPackage, PlanOf;
    ResultsAre(j, Stop(j, 0) + 1);
  }

  /** What was only proposed, refused or unreadable is not touched. */
  lemma UnappliedLeavesTheManifest(j: Job, text: string)
    requires !Applies(j, text)
    ensures Patch(j, text).manifest == text
  {
  }

  ghost predicate LeaveManifestAlone(j: Job) {
    forall k: nat :: k <= |j.gates| ==> j.replies(k).edit.None?
  }

  lemma {:induction false} UntouchedByCommands(j: Job, text: string, n: nat)
    requires LeaveManifestAlone(j) && n <= |j.gates| + 1
    ensures Edited(j, text, n) == text
  {
    if n > 0 {
      UntouchedByCommands(j, text, n - 1);
    }
  }

  // ---- What is left when it does not end well ----

  /** The command the gates and the rescan stop at. */
  ghost predicate IsFirstBad(j: Job, k: nat) {
    k <= |j.gates| && !IsGood(j, k) && forall i: nat :: i < k ==> IsGood(j, i)
  }

  /** The bumped manifest as it is written. */
  function Written(j: Job, text: string): string
    requires j.codec.parse(text).Some? && PlanOf(j, j.codec.parse(text).value).Some?
  {
    var m := j.codec.parse(text).value;
    j.codec.toText(ApplyPlanToPackage(m, j.name, PlanOf(j, m).value))
  }

  lemma FirstBadIsStop(j: Job, k: nat)
    ensures IsFirstBad(j, k) <==> k == Stop(j, 0) && k <= |j.gates|
  {
    hide IsGood;
    var stop := Stop(j, 0);
    assert forall i: nat :: IsFirstBad(j, k) && i < k ==> IsGood(j, i);
  }

  /** Neither the manifest found nor one that was confirmed. */
  ghost predicate IsLeftHalfway(j: Job, text: string) {
    var end := Patch(j, text);
    end.manifest != text && !(end.result.Ok? && end.result.value.status == Patched)
  }

  /** What the command the patch stopped at leaves is not the manifest found. */
  ghost predicate LeavesAnother(j: Job, text: string, k: nat)
    requires Applies(j, text)
  {
    if j.replies(k).throws then Edited(j, Written(j, text), k + 1) != text else Edit(text, j.replies(k + 1)) != text
  }

  /**
   * The manifest is the one found or a confirmed patch, unless a gate or the rescan throws, and with it leaves the
   * bump or what a command made of it, or a rollback's reinstall writes another.
   */
  lemma LeftHalfwayIff(j: Job, text: string)
    ensures IsLeftHalfway(j, text) <==>
      Applies(j, text) && exists k: nat :: IsFirstBad(j, k) && LeavesAnother(j, text, k)
  {
    hide IsGood, ApplyPlanToPackage, PlanOf, Results, IsFirstBad;
    var stop := Stop(j, 0);
    FirstBadIsStop(j, stop);
    if Applies(j, text) {
      forall k: nat | IsFirstBad(j, k) ensures k == stop {
        FirstBadIsStop(j, k);
      }
    }
  }

  /** A gate or rescan that throws, with commands that leave the manifest alone, leaves the bump and no record. */
  lemma ThrowLeavesTheBump(j: Job, text: string, k: nat)
    requires Applies(j, text) && LeaveManifestAlone(j) && IsFirstBad(j, k) && j.replies(k).throws
    ensures Patch(j, text) == End(Err(CommandThrew), Written(j, text), [])
  {
    hide IsGood, ApplyPlanToPackage, PlanOf, Results, IsFirstBad;
    FirstBadIsStop(j, k);
    UntouchedByCommands(j, Written(j, text), k + 1);
  }

  ghost predicate RoundTrips(c: Codec) {
    forall m :: c.parse(c.toText(m)) == Some(m)
  }

  /** If the commands leave it alone, a patched manifest differs from the old one only at the target package. */
  lemma PatchedManifestDiffersOnlyAtTarget(j: Job, text: string)
    requires RoundTrips(j.codec) && LeaveManifestAlone(j)
    requires Patch(j, text).result.Ok? && Patch(j, text).result.value.status == Patched
    ensures var before, after := j.codec.parse(text), j.codec.parse(Patch(j, text).manifest);
      var plan := Patch(j, text).result.value.plan;
      && before.Some? && after.Some? && plan.Some?
      && DiffersOnlyAt(before.value, after.value, j.name, plan.value)
      && TargetIn(after.value, plan.value).Some? && j.name in TargetIn(after.value, plan.value).value
      && TargetIn(after.value, plan.value).value[j.name] == plan.value.next
  {
    hide IsGood, ApplyPlanToPackage, PlanOf, DiffersOnlyAt, TargetIn;
    var m := j.codec.parse(text).value;
    var plan := PlanOf(j, m).value;
    var written := ApplyPlanToPackage(m, j.name, plan);
    UntouchedByCommands(j, j.codec.toText(written), |j.gates| + 1);
    assert Patch(j, text).manifest == j.codec.toText(written);
    PatchChangesOnlyTheTarget(m, j.name, plan);
  }

  /** A reinstall that writes the manifest leaves it changed although the run reports a rollback. */
  lemma RollbackMayNotRestore(text: string, other: string, codec: Codec)
    requires text != other
    requires codec.parse(text) == Some(Manifest(Some(map["left-pad" := "^1.0.0"]), None, None, ""))
    ensures var j := Job("left-pad", "1.3.0", true, false, ["install"], codec,
        k => Reply(false, 1, "", if k == 1 then Some(other) else None), None);
      && Patch(j, text).result.Ok? && Patch(j, text).result.value.status == RolledBack
      && Patch(j, text).manifest == other
  {
    hide INHERITED, ApplyPlanToPackage;
    var j := Job("left-pad", "1.3.0", true, false, ["install"], codec,
      k => Reply(false, 1, "", if k == 1 then Some(other) else None), None);
    assert !IsGood(j, 0);
    assert Stop(j, 0) == 0;
  }
}
