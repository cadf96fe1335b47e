/** What a build leaves in the books, spelled out over what its dependencies answered. */
module ReceiptMeaning {
  import opened Wrappers
  import opened BuildReceipt

  /** The stages run are those up to the first that fails, whose message is the error. */
  lemma {:induction false} RunsToTheFirstFailure(stages: seq<string>, failing: map<string, string>)
    ensures var ran, error := RunUpTo(stages, failing), FirstFailure(stages, failing);
      && ran <= stages
      && (forall i :: 0 <= i < |ran| - 1 ==> ran[i] !in failing)
      && (error.None? ==> ran == stages && (ran != [] ==> ran[|ran| - 1] !in failing))
      && (error.Some? ==> ran != [] && ran[|ran| - 1] in failing && error.value == failing[ran[|ran| - 1]])
  {
    if stages != [] {
      RunsToTheFirstFailure(stages[1..], failing);
      assert stages == [stages[0]] + stages[1..];
    }
  }

  predicate NoneFails(stages: seq<string>, failing: map<string, string>) {
    forall i :: 0 <= i < |stages| ==> stages[i] !in failing
  }

  /** The stages a mode wants to pass; a build of everything also wants the clean to. */
  predicate CompilerPasses(c: Course) {
    match c.mode
    case Packages => NoneFails(["packages", "package-scopes"], c.stages)
    case Repo => NoneFails(["repository", "repository-scopes", "bundles"], c.stages)
    case AllParts =>
      c.clean.None?
      && NoneFails(["packages", "package-scopes", "repository", "repository-scopes", "bundles"], c.stages)
  }

  lemma StagesPassIff(c: Course)
    ensures StagesPass(c) <==> CompilerPasses(c)
  {
    assert PACKAGE_STAGES == ["packages", "package-scopes"];
    assert REPO_STAGES == ["repository", "repository-scopes", "bundles"];
    assert Stages(AllParts) == ["packages", "package-scopes", "repository", "repository-scopes", "bundles"];
    assert NoneFails(Stages(c.mode), c.stages) <==>
      forall i :: 0 <= i < |Stages(c.mode)| ==> Stages(c.mode)[i] !in c.stages;
  }

  /** Passed, ready, of inputs seen before and after and found the same, and published. */
  predicate Vouches(c: Course) {
    && c.enters && CompilerPasses(c) && c.publishes
    && c.ready.Some? && c.ready.value
    && c.before.Some? && c.after.Some?
    && c.before.value.source == c.after.value.source && c.before.value.config == c.after.value.config
  }

  /** A build replaces the receipt exactly when it vouches for its output, and then by its own. */
  lemma ReceiptIsReplacedIff(b: Books, c: Course)
    ensures var receipt := AfterBuild(b, c).receipt;
      if Vouches(c) then
        receipt.Some? && receipt.value.id == c.id && receipt.value.mode == c.mode
        && receipt.value.input == c.before.value.source && receipt.value.config == c.before.value.config
      else receipt == b.receipt
  {
    hide StagesPass, CompilerPasses, AttemptOf;
    StagesPassIff(c);
  }

  /** The inputs were seen before and after, and differ. */
  predicate InputsMoved(c: Course) {
    && c.before.Some? && c.after.Some?
    && (c.before.value.source != c.after.value.source || c.before.value.config != c.after.value.config)
  }

  /** Each build that enters adds one attempt, which says whether it passed, whether it restored, and why not. */
  lemma AttemptSays(b: Books, c: Course)
    requires c.enters
    ensures var attempts := AfterBuild(b, c).attempts;
      var last := attempts[|attempts| - 1];
      && |attempts| == |b.attempts| + 1 && attempts[..|b.attempts|] == b.attempts && last.id == c.id
      && (last.passed <==> CompilerPasses(c))
      && (last.restored <==> CompilerPasses(c) && c.ready == Some(true) && !InputsMoved(c))
      && (ScanFailed in last.reason <==> CompilerPasses(c) && c.ready.None?)
      && (InputsChanged in last.reason <==> CompilerPasses(c) && InputsMoved(c))
      && ((exists m :: StageFailed(m) in last.reason) <==> !CompilerPasses(c))
  {
    hide StagesPass, CompilerPasses, ModeFailure;
    StagesPassIff(c);
    AttemptTellsTheTruth(c);
    var failure := ModeFailure(c);
    if failure.Some? {
      assert StageFailed(failure.value) in AttemptOf(c).reason;
    }
  }

  /** A refused lock leaves the books as they were. */
  lemma RefusedLockLeavesTheBooks(b: Books, c: Course)
    requires !c.enters
    ensures AfterBuild(b, c) == b
  {
  }
}
