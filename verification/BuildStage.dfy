/** One build stage: a child process, two signal handlers, two timers and one promise, over every order of events. */
module BuildStage {
  import opened Wrappers
  import opened WhiteSpace

  const MAX_OUTPUT := 30 * 1024 * 1024
  const MAX_CHUNK := 8192

  datatype Reason = BySigint | BySigterm | ByTimeout | ByProcessError

  datatype Outcome = Resolved | SpawnThrew | SpawnFailed | Cancelled(reason: Reason) | Failed(code: Option<int>)

  datatype Signal = SIGINT | SIGTERM | SIGKILL

  /**
   * `cancelled`, `outputBytes` and `cleaned` are the closure's variables; `escalation` and `timeout` tell whether
   * the timer is pending, `handlers` whether the signal handlers are registered, `errorSeen` and `closeSeen`
   * whether the once-only listeners are used up. `settled` is what the promise came to.
   */
  datatype Stage = Stage(
    hasPid: bool,
    cancelled: Option<Reason>,
    escalation: bool,
    timeout: bool,
    handlers: bool,
    outputBytes: nat,
    cleaned: bool,
    errorSeen: bool,
    closeSeen: bool,
    settled: Option<Outcome>,
    sent: seq<Signal>,
    logged: seq<string>)

  datatype Event =
    | Interrupt                              // SIGINT reaches the builder
    | Terminate                              // SIGTERM reaches the builder
    | TimeoutFires
    | EscalationFires
    | Data(text: string, bytes: nat)         // a chunk and its encoded length
    | ChildError
    | Close(code: Option<int>)               // none when a signal ended the child

  // ---- The closure's functions ----

  function Cancel(s: Stage, reason: Reason, signal: Signal): Stage {
    if s.cancelled.Some? then s else s.(cancelled := Some(reason), sent := s.sent + [signal], escalation := true)
  }

  function Cleanup(s: Stage): Stage {
    if s.cleaned then s else s.(cleaned := true, handlers := false, timeout := false, escalation := false)
  }

  /** A promise keeps what it first came to. */
  function Settle(s: Stage, outcome: Outcome): Stage {
    if s.settled.Some? then s else s.(settled := Some(outcome))
  }

  function Min(a: int, b: int): int {
    if a < b then a else b
  }

  function Bounded(text: string, remaining: nat): string {
    text[..Min(Min(remaining, MAX_CHUNK), |text|)]
  }

  function LogOutput(s: Stage, text: string, bytes: nat): Stage {
    if s.outputBytes >= MAX_OUTPUT then s else
      var line := Trim(Bounded(text, MAX_OUTPUT - s.outputBytes));
      s.(outputBytes := s.outputBytes + bytes, logged := if line == [] then s.logged else s.logged + [line])
  }

  function OutcomeOf(s: Stage, code: Option<int>): Outcome {
    if s.cancelled.Some? then Cancelled(s.cancelled.value)
    else if code != Some(0) then Failed(code)
    else Resolved
  }

  /** Once the child is there: no event is cancelled, no timer has fired. */
  function Started(hasPid: bool): Stage {
    Stage(hasPid, None, false, true, true, 0, false, false, false, None, [], [])
  }

  /** The spawn itself threw: no listeners, no timers, rejected. */
  const NotStarted := Stage(false, None, false, false, false, 0, true, true, true, Some(SpawnThrew), [], [])

  /** An event without a listener, or a timer that is not pending, changes nothing. */
  function Do(s: Stage, e: Event): Stage {
    match e
    case Interrupt => if s.handlers then Cancel(s, BySigint, SIGINT) else s
    case Terminate => if s.handlers then Cancel(s, BySigterm, SIGTERM) else s
    case TimeoutFires => if s.timeout then Cancel(s.(timeout := false), ByTimeout, SIGTERM) else s
    case EscalationFires => if s.escalation then s.(escalation := false, sent := s.sent + [SIGKILL]) else s
    case Data(text, bytes) => LogOutput(s, text, bytes)
    case ChildError =>
      if s.errorSeen then s
      else if s.hasPid then Cancel(s.(errorSeen := true), ByProcessError, SIGTERM)
      else Settle(Cleanup(s.(errorSeen := true)), SpawnFailed)
    case Close(code) =>
      if s.closeSeen then s else Settle(Cleanup(s.(closeSeen := true)), OutcomeOf(s, code))
  }

  function Run(s: Stage, events: seq<Event>): Stage {
    if events == [] then s else Do(Run(s, events[..|events| - 1]), events[|events| - 1])
  }

  predicate IsStart(s: Stage) {
    s == Started(true) || s == Started(false) || s == NotStarted
  }

  /** Text encodes to at least a byte a character. */
  predicate Encodes(events: seq<Event>) {
    forall i :: 0 <= i < |events| && events[i].Data? ==> events[i].bytes >= |events[i].text|
  }

  // ---- The promise ----

  /** It is settled exactly when things are cleaned up, and then no handler and no twenty-minute timer is left. */
  predicate CleanIffSettled(s: Stage) {
    && (s.settled.Some? <==> s.cleaned)
    && (s.cleaned ==> !s.handlers && !s.timeout)
    && (s.escalation ==> s.cancelled.Some?)
    && (s.closeSeen ==> s.cleaned)
  }

  lemma DoKeepsClean(s: Stage, e: Event)
    requires CleanIffSettled(s)
    ensures CleanIffSettled(Do(s, e))
  {
    hide Trim, Bounded;
  }

  lemma {:induction false} EveryRunIsCleanIffSettled(s: Stage, events: seq<Event>)
    requires IsStart(s)
    ensures CleanIffSettled(Run(s, events))
  {
    hide Do;
    if events != [] {
      EveryRunIsCleanIffSettled(s, events[..|events| - 1]);
      DoKeepsClean(Run(s, events[..|events| - 1]), events[|events| - 1]);
    }
  }

  lemma OutputOnlyLogs(s: Stage, text: string, bytes: nat)
    ensures var t := LogOutput(s, text, bytes); t == s.(outputBytes := t.outputBytes, logged := t.logged)
  {
    hide Trim, Bounded;
  }

  lemma SettlesOnlyAtTheEnd(s: Stage, e: Event)
    requires s.settled.None? && Do(s, e).settled.Some?
    ensures (e.Close? && Do(s, e).settled == Some(OutcomeOf(s, e.code))) ||
      (e.ChildError? && !s.hasPid && Do(s, e).settled == Some(SpawnFailed))
  {
    hide LogOutput, OutcomeOf;
    if e.Data? {
      OutputOnlyLogs(s, e.text, e.bytes);
    }
  }

  lemma SettledIsFinal(s: Stage, e: Event)
    requires s.settled.Some?
    ensures Do(s, e).settled == s.settled
  {
    hide LogOutput;
    if e.Data? {
      OutputOnlyLogs(s, e.text, e.bytes);
    }
  }

  /** The promise settles only when the child closes or a spawn produced no process, and then for good. */
  lemma SettlesOnceAndOnlyAtTheEnd(s: Stage, e: Event)
    ensures s.settled.Some? ==> Do(s, e).settled == s.settled
    ensures s.settled.None? && Do(s, e).settled.Some? ==>
      (e.Close? && Do(s, e).settled == Some(OutcomeOf(s, e.code))) ||
      (e.ChildError? && !s.hasPid && Do(s, e).settled == Some(SpawnFailed))
    ensures s.settled.None? && Do(s, e).settled.Some? && CleanIffSettled(s) ==>
      Do(s, e).cleaned && !Do(s, e).escalation && !Do(s, e).timeout && !Do(s, e).handlers
  {
    if s.settled.Some? {
      hide Do;
      SettledIsFinal(s, e);
    } else if Do(s, e).settled.Some? {
      SettlesOnlyAtTheEnd(s, e);
    }
  }

  lemma RunInTwo(s: Stage, events: seq<Event>, more: seq<Event>)
    requires more != []
    ensures Run(s, events + more) == Do(Run(s, events + more[..|more| - 1]), more[|more| - 1])
  {
    hide Do;
    assert (events + more)[..|events + more| - 1] == events + more[..|more| - 1];
  }

  /** A run that settled stays settled the same way whatever follows. */
  lemma {:induction false} OutcomeIsFinal(s: Stage, events: seq<Event>, more: seq<Event>)
    requires Run(s, events).settled.Some?
    ensures Run(s, events + more).settled == Run(s, events).settled
    decreases |more|
  {
    hide Do, Run;
    if more == [] {
      assert events + more == events;
    } else {
      OutcomeIsFinal(s, events, more[..|more| - 1]);
      RunInTwo(s, events, more);
      SettlesOnceAndOnlyAtTheEnd(Run(s, events + more[..|more| - 1]), more[|more| - 1]);
    }
  }

  // ---- Signals ----

  function Kills(sent: seq<Signal>): nat {
    if sent == [] then 0 else Kills(sent[..|sent| - 1]) + if sent[|sent| - 1].SIGKILL? then 1 else 0
  }

  /** Nothing before a cancellation; after it one signal, and one SIGKILL once the escalation timer has fired. */
  predicate SignalsFollowCancel(s: Stage) {
    && (s.cancelled.None? ==> s.sent == [] && !s.escalation)
    && (s.cancelled.Some? ==> 1 <= |s.sent| <= 2 && !s.sent[0].SIGKILL?)
    && (|s.sent| == 2 ==> s.sent[1].SIGKILL? && !s.escalation)
  }

  lemma DoKeepsSignals(s: Stage, e: Event)
    requires SignalsFollowCancel(s)
    ensures SignalsFollowCancel(Do(s, e))
  {
    hide Trim, Bounded;
  }

  lemma {:induction false} EveryRunSignalsAfterCancel(s: Stage, events: seq<Event>)
    requires IsStart(s)
    ensures SignalsFollowCancel(Run(s, events))
  {
    hide Do;
    if events != [] {
      EveryRunSignalsAfterCancel(s, events[..|events| - 1]);
      DoKeepsSignals(Run(s, events[..|events| - 1]), events[|events| - 1]);
    }
  }

  /** However often it is interrupted, a stage sends its child at most one first signal and one SIGKILL. */
  lemma AtMostOneSignalAndOneKill(s: Stage, events: seq<Event>)
    requires IsStart(s)
    ensures var sent := Run(s, events).sent; Kills(sent) <= 1 && |sent| - Kills(sent) <= 1
  {
    hide Do, Run;
    EveryRunSignalsAfterCancel(s, events);
    var sent := Run(s, events).sent;
    if sent != [] {
      assert Kills(sent[..1]) == 0 by {
        assert sent[..1][..0] == [];
      }
      assert |sent| == 1 ==> sent[..1] == sent;
    }
  }

  // ---- Output ----

  function LoggedChars(logged: seq<string>): nat {
    if logged == [] then 0 else LoggedChars(logged[..|logged| - 1]) + |logged[|logged| - 1]|
  }

  predicate OutputIsBounded(s: Stage) {
    LoggedChars(s.logged) <= MAX_OUTPUT && LoggedChars(s.logged) <= s.outputBytes
  }

  lemma LogOutputIsBounded(s: Stage, text: string, bytes: nat)
    requires OutputIsBounded(s) && bytes >= |text|
    ensures OutputIsBounded(LogOutput(s, text, bytes))
  {
    if s.outputBytes < MAX_OUTPUT {
      var bounded := Bounded(text, MAX_OUTPUT - s.outputBytes);
      TrimStartIsSuffix(bounded);
      TrimEndIsPrefix(TrimStart(bounded));
      var more := s.logged + [Trim(bounded)];
      assert more[..|more| - 1] == s.logged;
    }
  }

  /** However much the child writes, the log gets at most 30 MiB of characters. */
  lemma {:induction false} OutputStaysBounded(s: Stage, events: seq<Event>)
    requires IsStart(s) && Encodes(events)
    ensures OutputIsBounded(Run(s, events))
  {
    hide OutputIsBounded, LogOutput;
    if events == [] {
      assert OutputIsBounded(s) by { StartIsBounded(s); }
    } else {
      var before, e := Run(s, events[..|events| - 1]), events[|events| - 1];
      OutputStaysBounded(s, events[..|events| - 1]);
      DoKeepsBounded(before, e);
    }
  }

  lemma StartIsBounded(s: Stage)
    requires IsStart(s)
    ensures OutputIsBounded(s)
  {
  }

  lemma DoKeepsBounded(s: Stage, e: Event)
    requires OutputIsBounded(s) && (e.Data? ==> e.bytes >= |e.text|)
    ensures OutputIsBounded(Do(s, e))
  {
    hide LogOutput;
    if e.Data? {
      LogOutputIsBounded(s, e.text, e.bytes);
    }
  }

  // ---- After the end ----

  predicate IsQuiet(s: Stage) {
    !s.handlers && !s.timeout && !s.escalation
  }

  /** The child had a process, nothing cancelled the stage, and the `error` listener is unused. */
  predicate CanWake(s: Stage) {
    s.hasPid && s.cancelled.None? && !s.errorSeen
  }

  predicate HasError(later: seq<Event>) {
    exists i :: 0 <= i < |later| && later[i].ChildError?
  }

  /** What becomes of a stage that was clean and quiet. */
  predicate Aftermath(s: Stage, t: Stage, woken: bool) {
    && t.cleaned && !t.handlers && !t.timeout
    && if woken then |t.sent| > |s.sent| && !CanWake(t)
      else t.sent == s.sent && !t.escalation && (CanWake(t) <==> CanWake(s))
  }

  lemma DoInTheAftermath(s: Stage, t: Stage, woken: bool, e: Event)
    requires Aftermath(s, t, woken)
    ensures Aftermath(s, Do(t, e), woken || (CanWake(s) && e.ChildError?))
  {
    hide Trim, Bounded;
  }

  lemma HasErrorStep(later: seq<Event>)
    requires later != []
    ensures HasError(later) <==> HasError(later[..|later| - 1]) || later[|later| - 1].ChildError?
  {
    if HasError(later) && !later[|later| - 1].ChildError? {
      var i :| 0 <= i < |later| && later[i].ChildError?;
      assert later[..|later| - 1][i].ChildError?;
    }
  }

  lemma {:induction false} AftermathOfRun(s: Stage, later: seq<Event>)
    requires s.cleaned && IsQuiet(s)
    ensures Aftermath(s, Run(s, later), CanWake(s) && HasError(later))
  {
    hide Do, HasError, Aftermath;
    if later == [] {
      NoErrorYet();
      StartOfAftermath(s);
    } else {
      var init := later[..|later| - 1];
      AftermathOfRun(s, init);
      HasErrorStep(later);
      DoInTheAftermath(s, Run(s, init), CanWake(s) && HasError(init), later[|later| - 1]);
    }
  }

  lemma NoErrorYet()
    ensures !HasError([])
  {
  }

  lemma StartOfAftermath(s: Stage)
    requires s.cleaned && IsQuiet(s)
    ensures Aftermath(s, s, false)
  {
  }

  /**
   * Once settled and quiet, a stage sends no signal and arms no timer exactly as long as its child does not emit
   * its first `error` then, with a process and uncancelled: cancelling is not barred by the cleanup.
   */
  lemma SettledStageIsQuietIff(s: Stage, later: seq<Event>)
    requires s.cleaned && IsQuiet(s)
    ensures Run(s, later).sent == s.sent && IsQuiet(Run(s, later)) <==> !(CanWake(s) && HasError(later))
  {
    hide Run, HasError;
    AftermathOfRun(s, later);
  }

  /** Such a child is sent SIGTERM after a build that has already succeeded, and SIGKILL when the timer fires. */
  lemma LateErrorSignalsAfterSuccess()
    ensures var s := Run(Started(true), [Close(Some(0)), ChildError, EscalationFires]);
      s.settled == Some(Resolved) && s.sent == [SIGTERM, SIGKILL]
  {
    hide Do;
    ThreeEvents(Started(true), Close(Some(0)), ChildError, EscalationFires);
    LateErrorSteps();
  }

  lemma LateErrorSteps()
    ensures var closed := Do(Started(true), Close(Some(0)));
      var late := Do(closed, ChildError);
      && closed.settled == Some(Resolved) && late.sent == [SIGTERM]
      && Do(late, EscalationFires).sent == [SIGTERM, SIGKILL] && Do(late, EscalationFires).settled == Some(Resolved)
  {
    assert [] + [SIGTERM] == [SIGTERM] && [SIGTERM] + [SIGKILL] == [SIGTERM, SIGKILL];
  }

  lemma ThreeEvents(s: Stage, a: Event, b: Event, c: Event)
    ensures Run(s, [a, b, c]) == Do(Do(Do(s, a), b), c)
  {
    hide Do;
    assert [a, b, c][..2] == [a, b] && [a, b][..1] == [a] && [a][..0] == [];
    assert Run(s, []) == s;
    assert Run(s, [a]) == Do(s, a);
    assert Run(s, [a, b]) == Do(Do(s, a), b);
  }

  // ---- The closure ----

  /** The variables of one stage's promise and its listeners. */
  class StageRun {
    var hasPid: bool
    var cancelled: Option<Reason>
    var escalation: bool
    var timeout: bool
    var handlers: bool
    var outputBytes: nat
    var cleaned: bool
    var errorSeen: bool
    var closeSeen: bool
    var settled: Option<Outcome>
    var sent: seq<Signal>
    var logged: seq<string>

    ghost function State(): Stage
      reads this
    {
      Stage(hasPid, cancelled, escalation, timeout, handlers, outputBytes, cleaned, errorSeen, closeSeen, settled,
        sent, logged)
    }

    /** The spawn throws, or gives a child with or without a process. */
    constructor (spawned: Option<bool>)
      ensures State() == if spawned.None? then NotStarted else Started(spawned.value)
    {
      cancelled, escalation, outputBytes, sent, logged := None, false, 0, [], [];
      hasPid := spawned.Some? && spawned.value;
      timeout, handlers := spawned.Some?, spawned.Some?;
      cleaned, errorSeen, closeSeen := spawned.None?, spawned.None?, spawned.None?;
      settled := if spawned.None? then Some(SpawnThrew) else None;
    }

    method CancelStage(reason: Reason, signal: Signal)
      modifies this
      ensures State() == Cancel(old(State()), reason, signal)
    {
      if cancelled.Some? {
        return;
      }
      cancelled := Some(reason);
      sent := sent + [signal];
      escalation := true;
    }

    method CleanUp()
      modifies this
      ensures State() == Cleanup(old(State()))
    {
      if cleaned {
        return;
      }
      cleaned := true;
      handlers := false;
      timeout := false;
      escalation := false;
    }

    method SettleWith(outcome: Outcome)
      modifies this
      ensures State() == Settle(old(State()), outcome)
    {
      if settled.None? {
        settled := Some(outcome);
      }
    }

    method OnSignal(signal: Signal)
      requires handlers && !signal.SIGKILL?
      modifies this
      ensures State() == Do(old(State()), if signal.SIGINT? then Interrupt else Terminate)
    {
      CancelStage(if signal.SIGINT? then BySigint else BySigterm, signal);
    }

    method OnTimeout()
      requires timeout
      modifies this
      ensures State() == Do(old(State()), TimeoutFires)
    {
      timeout := false;
      CancelStage(ByTimeout, SIGTERM);
    }

    method OnEscalation()
      requires escalation
      modifies this
      ensures State() == Do(old(State()), EscalationFires)
    {
      escalation := false;
      sent := sent + [SIGKILL];
    }

    method OnData(text: string, bytes: nat)
      modifies this
      ensures State() == Do(old(State()), Data(text, bytes))
    {
      if outputBytes >= MAX_OUTPUT {
        return;
      }
      var bounded := Bounded(text, MAX_OUTPUT - outputBytes);
      outputBytes := outputBytes + bytes;
      var line := Trim(bounded);
      if line != [] {
        logged := logged + [line];
      }
    }

    method OnError()
      requires !errorSeen
      modifies this
      ensures State() == Do(old(State()), ChildError)
    {
      errorSeen := true;
      if hasPid {
        CancelStage(ByProcessError, SIGTERM);
      } else {
        CleanUp();
        SettleWith(SpawnFailed);
      }
    }

    method OnClose(code: Option<int>)
      requires !closeSeen
      modifies this
      ensures State() == Do(old(State()), Close(code))
      ensures old(settled).None? && old(cancelled).Some? ==> settled == Some(Cancelled(old(cancelled).value))
      ensures old(settled).None? && old(cancelled).None? && code == Some(0) ==> settled == Some(Resolved)
      ensures old(settled).None? && old(cancelled).None? && code != Some(0) ==> settled == Some(Failed(code))
    {
      closeSeen := true;
      CleanUp();
      if cancelled.Some? {
        SettleWith(Cancelled(cancelled.value));
      } else if code != Some(0) {
        SettleWith(Failed(code));
      } else {
        SettleWith(Resolved);
      }
    }
  }
}
