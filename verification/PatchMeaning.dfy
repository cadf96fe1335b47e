/** What a dependency patch comes to, spelled out over the manifest, the options and the commands' answers. */
module PatchMeaning {
  import opened PlainObject
  import opened Wrappers
  import opened WhiteSpace
  import opened DependencyManifest
  import opened DependencyPatch

  // ---- What may be patched ----

  /** A section gives the package some spec, or lacks it while every object inherits the name. */
  predicate SectionHas(specs: Option<Specs>, name: string) {
    specs.Some? && (if name in specs.value then |specs.value[name]| > 0 else name in INHERITED)
  }

  predicate ManifestHas(m: Manifest, name: string) {
    SectionHas(m.dependencies, name) || SectionHas(m.devDependencies, name)
  }

  lemma ManifestHasIff(m: Manifest, name: string)
    ensures ManifestHas(m, name) <==> exists s :: IsDeclared(m, s, name) || LooksDeclared(m, s, name)
  {
    hide INHERITED;
    assert SectionHas(m.dependencies, name) <==>
      IsDeclared(m, Dependencies, name) || LooksDeclared(m, Dependencies, name);
    assert SectionHas(m.devDependencies, name) <==>
      IsDeclared(m, DevDependencies, name) || LooksDeclared(m, DevDependencies, name);
  }

  /** A package the manifest does not have is planned exactly with `--override`, pinned to the version asked for. */
  lemma UndeclaredIsPlannedIff(j: Job, m: Manifest)
    requires !ManifestHas(m, j.name)
    ensures PlanOf(j, m).Some? <==> j.allowOverride
    ensures j.allowOverride ==> PlanOf(j, m).value.Override? && PlanOf(j, m).value.next == j.version
  {
    hide INHERITED, ManifestHas;
    ManifestHasIff(m, j.name);
    DirectIff(m, j.name, j.version, j.allowOverride);
  }

  /** One the manifest has is planned in its section whatever the options say. */
  lemma DeclaredIsPlanned(j: Job, m: Manifest)
    requires ManifestHas(m, j.name)
    ensures PlanOf(j, m).Some? && PlanOf(j, m).value.Direct?
    ensures SectionHas(m.dependencies, j.name) <==> PlanOf(j, m).value.section.Dependencies?
  {
    hide INHERITED, ManifestHas;
    ManifestHasIff(m, j.name);
    DirectIff(m, j.name, j.version, j.allowOverride);
    assert SectionHas(m.dependencies, j.name) <==> IsThere(Lookup(m.dependencies, j.name));
  }

  // ---- What the commands answer ----

  /** It prints nothing, or an audit without a list or without the package. */
  predicate RescanIsClean(j: Job, printed: string) {
    || Blank(printed)
    || j.codec.audit(printed).NoList?
    || (j.codec.audit(printed).List? && j.name !in j.codec.audit(printed).names && j.name !in INHERITED)
  }

  /** A gate's command ends with status 0; the rescan after the gates is clean; neither throws. */
  predicate AnswersWell(j: Job, k: nat) {
    && !j.replies(k).throws
    && (k < |j.gates| ==> j.replies(k).status == 0)
    && (k >= |j.gates| ==> RescanIsClean(j, j.replies(k).stdout))
  }

  predicate AllAnswerWell(j: Job, n: nat) {
    forall k: nat :: k < n ==> AnswersWell(j, k)
  }

  lemma AnswersWellIff(j: Job, k: nat)
    ensures IsGood(j, k) <==> AnswersWell(j, k)
  {
    hide Blank, INHERITED;
  }

  lemma StopIs(j: Job, k: nat)
    requires k <= |j.gates| + 1 && AllAnswerWell(j, k) && (k <= |j.gates| ==> !AnswersWell(j, k))
    ensures Stop(j, 0) == k
  {
    hide IsGood, AnswersWell;
    forall i: nat ensures IsGood(j, i) <==> AnswersWell(j, i) {
      AnswersWellIff(j, i);
    }
    var stop: nat := Stop(j, 0);
    assert !(stop < k) && !(k < stop);
  }

  // ---- What it comes to ----

  /** Only an unreadable manifest is not looked at, and only an undeclared package without `--override` is refused. */
  lemma RefusedIff(j: Job, text: string)
    ensures var parsed, end := j.codec.parse(text), Patch(j, text);
      && (parsed.None? ==> end.result == Err(UnreadableManifest) && end.manifest == text && end.records == [])
      && (parsed.Some? && !ManifestHas(parsed.value, j.name) && !j.allowOverride ==>
            end.result == Ok(Outcome(Refused, None, [], None, None)) && end.manifest == text)
      && (end.result.Ok? && end.result.value.status == Refused ==>
            parsed.Some? && !ManifestHas(parsed.value, j.name) && !j.allowOverride)
  {
    hide INHERITED, ManifestHas, Transaction, PlanOf;
    if j.codec.parse(text).Some? {
      var m := j.codec.parse(text).value;
      if ManifestHas(m, j.name) {
        DeclaredIsPlanned(j, m);
      } else {
        UndeclaredIsPlannedIff(j, m);
      }
      TransactionIsNoRefusal(j, text);
    }
  }

  lemma TransactionIsNoRefusal(j: Job, original: string)
    ensures forall written, plan ::
      var r := Transaction(j, original, written, plan).result; r.Ok? ==> r.value.status in {Patched, RolledBack}
  {
    hide IsGood;
  }

  predicate MayBePatched(j: Job, text: string) {
    j.codec.parse(text).Some? && (ManifestHas(j.codec.parse(text).value, j.name) || j.allowOverride)
  }

  lemma MayBePatchedIff(j: Job, text: string)
    ensures MayBePatched(j, text) <==> j.codec.parse(text).Some? && PlanOf(j, j.codec.parse(text).value).Some?
  {
    hide INHERITED, ManifestHas, PlanOf;
    if j.codec.parse(text).Some? {
      var m := j.codec.parse(text).value;
      if ManifestHas(m, j.name) {
        DeclaredIsPlanned(j, m);
      } else {
        UndeclaredIsPlannedIff(j, m);
      }
    }
  }

  /** Without `--apply` a patch is only proposed. */
  lemma UnappliedIsProposed(j: Job, text: string)
    requires MayBePatched(j, text) && !j.apply
    ensures var end := Patch(j, text);
      && end.result.Ok? && end.result.value.status == Proposed && end.result.value.plan.Some?
      && end.result.value.gates == [] && end.result.value.backup == None && end.manifest == text
  {
    hide PlanOf, MayBePatched;
    MayBePatchedIff(j, text);
  }

  /** With it, it is confirmed when every gate and the rescan answer well: the backup is the text found. */
  lemma WellAnsweredIsPatched(j: Job, text: string)
    requires MayBePatched(j, text) && j.apply && AllAnswerWell(j, |j.gates| + 1)
    ensures var end := Patch(j, text);
      && end.result.Ok? && end.result.value.status == Patched && end.result.value.backup == Some(text)
      && end.result.value.canary == Some(if j.canary.Some? then j.canary.value else Unavailable)
      && |end.records| == 1 && end.records[0].reinstall == None
  {
    hide PlanOf, MayBePatched, AllAnswerWell, ApplyPlanToPackage, IsGood;
    MayBePatchedIff(j, text);
    StopIs(j, |j.gates| + 1);
  }

  /** A command that answers, but not well, is followed by the rollback, which tells how its reinstall went. */
  lemma BadAnswerIsRolledBack(j: Job, text: string, k: nat)
    requires MayBePatched(j, text) && j.apply && k <= |j.gates| && AllAnswerWell(j, k) && !AnswersWell(j, k)
    requires !j.replies(k).throws && !j.replies(k + 1).throws
    ensures var end := Patch(j, text);
      && end.result.Ok? && end.result.value.status == RolledBack && end.result.value.backup == Some(text)
      && |end.result.value.gates| == k + 1 && end.result.value.canary == None
      && |end.records| == 1 && end.records[0].reinstall == Some(j.replies(k + 1).status)
      && end.manifest == (if j.replies(k + 1).edit.Some? then j.replies(k + 1).edit.value else text)
  {
    hide PlanOf, MayBePatched, AllAnswerWell, AnswersWell, ApplyPlanToPackage, IsGood, Results, Edited;
    MayBePatchedIff(j, text);
    StopIs(j, k);
    ResultsAre(j, k + 1);
  }

  /** A command that throws ends the call with its error; so does a reinstall that throws, with the text restored. */
  lemma ThrowEndsTheCall(j: Job, text: string, k: nat)
    requires MayBePatched(j, text) && j.apply && k <= |j.gates| && AllAnswerWell(j, k) && !AnswersWell(j, k)
    requires j.replies(k).throws || j.replies(k + 1).throws
    ensures var end := Patch(j, text);
      && end.result == Err(CommandThrew) && end.records == []
      && (!j.replies(k).throws ==>
            end.manifest == (if j.replies(k + 1).edit.Some? then j.replies(k + 1).edit.value else text))
  {
    hide PlanOf, MayBePatched, AllAnswerWell, AnswersWell, ApplyPlanToPackage, IsGood, Results, Edited;
    MayBePatchedIff(j, text);
    StopIs(j, k);
  }
}
