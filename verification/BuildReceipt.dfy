/** Repository builds under the compiler-output lock: their attempts and the receipt of the last good one. */
module BuildReceipt {
  import opened Wrappers

  datatype Mode = AllParts | Packages | Repo

  /** `sourceHash` and `configHash`. */
  datatype Snapshot = Snapshot(source: string, config: string)

  datatype Note = ScanFailed | InputsChanged | StageFailed(message: string)

  datatype Attempt = Attempt(id: string, passed: bool, restored: bool, reason: seq<Note>)

  datatype Receipt = Receipt(id: string, mode: Mode, input: string, config: string)

  datatype Stability = Unverifiable | Stable | Changed

  /**
   * How one build goes: whether the lock lets it in, and what each dependency answers. A missing snapshot is one
   * that failed or cannot be taken; `clean` and `stages` give the message of a failure; `ready` is none when the
   * scan throws; `publishes` says whether a receipt can be published and is.
   */
  datatype Course = Course(
    mode: Mode,
    enters: bool,
    id: string,
    before: Option<Snapshot>,
    clean: Option<string>,
    stages: map<string, string>,
    after: Option<Snapshot>,
    ready: Option<bool>,
    publishes: bool)

  const PACKAGE_STAGES := ["packages", "package-scopes"]
  const REPO_STAGES := ["repository", "repository-scopes", "bundles"]
  const POST_STAGES := ["knowledge-manifest", "ui", "source-shadows"]

  function Stages(mode: Mode): seq<string> {
    match mode
    case Packages => PACKAGE_STAGES
    case Repo => REPO_STAGES
    case AllParts => PACKAGE_STAGES + REPO_STAGES
  }

  function InputStability(before: Option<Snapshot>, after: Option<Snapshot>): Stability {
    if before.None? || after.None? then Unverifiable else if before == after then Stable else Changed
  }

  // ---- What makes a build good ----

  predicate StagesPass(c: Course) {
    (c.mode.AllParts? ==> c.clean.None?) && forall i :: 0 <= i < |Stages(c.mode)| ==> Stages(c.mode)[i] !in c.stages
  }

  /** Everything a receipt vouches for. */
  predicate IsGood(c: Course) {
    && c.enters && StagesPass(c)
    && c.ready == Some(true)
    && c.before.Some? && c.after == c.before
    && c.publishes
  }

  function ReceiptOf(c: Course): Receipt
    requires c.before.Some?
  {
    Receipt(c.id, c.mode, c.before.value.source, c.before.value.config)
  }

  /** The message of the first stage that fails. */
  function FirstFailure(stages: seq<string>, failing: map<string, string>): Option<string> {
    if stages == [] then None
    else if stages[0] in failing then Some(failing[stages[0]])
    else FirstFailure(stages[1..], failing)
  }

  /** The stages run, up to the first failure. */
  function RunUpTo(stages: seq<string>, failing: map<string, string>): seq<string> {
    if stages == [] then [] else if stages[0] in failing then [stages[0]]
    else [stages[0]] + RunUpTo(stages[1..], failing)
  }

  function ModeFailure(c: Course): Option<string> {
    if c.mode.AllParts? && c.clean.Some? then c.clean else FirstFailure(Stages(c.mode), c.stages)
  }

  lemma {:induction false} NoFailureIffAllPass(stages: seq<string>, failing: map<string, string>)
    ensures FirstFailure(stages, failing).None? <==> forall i :: 0 <= i < |stages| ==> stages[i] !in failing
  {
    if stages != [] {
      NoFailureIffAllPass(stages[1..], failing);
      assert stages == [stages[0]] + stages[1..];
    }
  }

  function AttemptOf(c: Course): Attempt {
    var failure, stability := ModeFailure(c), InputStability(c.before, c.after);
    if failure.Some? then Attempt(c.id, false, false, [StageFailed(failure.value)])
    else
      var scan := if c.ready.None? then [ScanFailed] else [];
      var changed := if stability == Changed then [InputsChanged] else [];
      Attempt(c.id, true, c.ready == Some(true) && stability != Changed, scan + changed)
  }

  /** What an attempt tells of its build. */
  lemma AttemptTellsTheTruth(c: Course)
    ensures AttemptOf(c).id == c.id && (AttemptOf(c).passed <==> StagesPass(c))
    ensures AttemptOf(c).restored <==>
      StagesPass(c) && c.ready == Some(true) && (c.before.None? || c.after.None? || c.before == c.after)
    ensures AttemptOf(c).reason == [] ==> StagesPass(c) && c.ready.Some?
    ensures c.enters && IsGood(c) ==> AttemptOf(c).restored && AttemptOf(c).reason == []
  {
    NoFailureIffAllPass(Stages(c.mode), c.stages);
  }

  // ---- One build ----

  datatype Books = Books(attempts: seq<Attempt>, receipt: Option<Receipt>)

  function AfterBuild(b: Books, c: Course): Books {
    if !c.enters then b
    else Books(b.attempts + [AttemptOf(c)], if IsGood(c) then Some(ReceiptOf(c)) else b.receipt)
  }

  /** The recovery records, the stored receipt and the stages run so far. */
  class Builder {
    var attempts: seq<Attempt>
    var receipt: Option<Receipt>
    var ran: seq<string>

    constructor (receipt: Option<Receipt>)
      ensures Kept() == Books([], receipt) && ran == []
    {
      attempts, this.receipt, ran := [], receipt, [];
    }

    function Kept(): Books
      reads this
    {
      Books(attempts, receipt)
    }

    method RunStages(stages: seq<string>, failing: map<string, string>) returns (error: Option<string>)
      modifies this`ran
      ensures error == FirstFailure(stages, failing)
      ensures ran == old(ran) + RunUpTo(stages, failing)
    {
      for i := 0 to |stages|
        invariant FirstFailure(stages, failing) == FirstFailure(stages[i..], failing)
        invariant ran + RunUpTo(stages[i..], failing) == old(ran) + RunUpTo(stages, failing)
      {
        assert stages[i..][1..] == stages[i + 1..];
        ran := ran + [stages[i]];
        if stages[i] in failing {
          return Some(failing[stages[i]]);
        }
      }
      error := None;
    }

    /** The part of a build whose failure is a failed attempt. */
    method RunMode(c: Course) returns (error: Option<string>)
      modifies this`ran
      ensures error == ModeFailure(c)
      ensures ran == old(ran) + if c.mode.AllParts? && c.clean.Some? then [] else RunUpTo(Stages(c.mode), c.stages)
    {
      if c.mode.AllParts? && c.clean.Some? {
        return c.clean;
      }
      error := RunStages(Stages(c.mode), c.stages);
    }

    /** A refused lock throws; a stage that fails after the record fails the build and changes nothing kept. */
    method BuildRepository(c: Course) returns (error: Option<string>)
      modifies this
      ensures Kept() == AfterBuild(old(Kept()), c)
      ensures error == if !c.enters then Some("locked")
        else if ModeFailure(c).Some? then ModeFailure(c)
        else if c.mode.AllParts? then FirstFailure(POST_STAGES, c.stages) else None
    {
      NoFailureIffAllPass(Stages(c.mode), c.stages);
      if !c.enters {
        return Some("locked");
      }
      error := RunMode(c);
      if error.Some? {
        attempts := attempts + [Attempt(c.id, false, false, [StageFailed(error.value)])];
        return;
      }
      var stability := InputStability(c.before, c.after);
      var restored := c.ready == Some(true);
      var reason := if c.ready.None? then [ScanFailed] else [];
      if stability == Changed {
        reason := reason + [InputsChanged];
      }
      assert AttemptOf(c) == Attempt(c.id, true, restored && stability != Changed, reason);
      if restored && stability == Stable && c.publishes {
        receipt := Some(ReceiptOf(c));
      }
      attempts := attempts + [Attempt(c.id, true, restored && stability != Changed, reason)];
      if c.mode.AllParts? {
        error := RunStages(POST_STAGES, c.stages);
      }
    }
  }

  // ---- Any sequence of builds ----

  function Run(b: Books, builds: seq<Course>): Books {
    if builds == [] then b else AfterBuild(Run(b, builds[..|builds| - 1]), builds[|builds| - 1])
  }

  /** The builds that entered the lock. */
  function Entered(builds: seq<Course>): seq<Course> {
    if builds == [] then [] else
      var init := Entered(builds[..|builds| - 1]);
      if builds[|builds| - 1].enters then init + [builds[|builds| - 1]] else init
  }

  /** Each build that entered the lock left exactly one attempt, in order. */
  lemma {:induction false} OneAttemptEach(b: Books, builds: seq<Course>)
    ensures |Run(b, builds).attempts| == |b.attempts| + |Entered(builds)|
    ensures b.attempts <= Run(b, builds).attempts
    ensures forall i :: 0 <= i < |Entered(builds)| ==>
      Run(b, builds).attempts[|b.attempts| + i] == AttemptOf(Entered(builds)[i])
  {
    hide AttemptOf, IsGood;
    if builds != [] {
      OneAttemptEach(b, builds[..|builds| - 1]);
    }
  }

  ghost predicate IsLastGoodAt(builds: seq<Course>, i: int) {
    0 <= i < |builds| && IsGood(builds[i]) && forall j :: i < j < |builds| ==> !IsGood(builds[j])
  }

  ghost predicate NoneIsGood(builds: seq<Course>) {
    forall i :: 0 <= i < |builds| ==> !IsGood(builds[i])
  }

  /**
   * The stored receipt is always that of the last good build: no failed, mixed or unverifiable one ever changes it.
   * Before the first good build it is the one found.
   */
  lemma {:induction false} ReceiptIsOfTheLastGood(b: Books, builds: seq<Course>)
    ensures NoneIsGood(builds) ==> Run(b, builds).receipt == b.receipt
    ensures forall i :: IsLastGoodAt(builds, i) ==>
      Run(b, builds).receipt == Some(ReceiptOf(builds[i]))
    ensures NoneIsGood(builds) || exists i :: IsLastGoodAt(builds, i)
  {
    hide AttemptOf, ModeFailure, StagesPass, ReceiptOf, InputStability;
    if builds != [] {
      var init, last := builds[..|builds| - 1], |builds| - 1;
      ReceiptIsOfTheLastGood(b, init);
      if IsGood(builds[last]) {
        assert IsLastGoodAt(builds, last);
      } else {
        forall i | IsLastGoodAt(init, i) ensures IsLastGoodAt(builds, i) {
        }
        forall i | IsLastGoodAt(builds, i) ensures IsLastGoodAt(init, i) {
        }
        assert NoneIsGood(init) ==> NoneIsGood(builds);
      }
    }
  }
}
