/** Applies that run to their end: what they leave behind, and when they get there. */
module MirrorApply {
  import opened Wrappers
  import opened MirrorReplay
  import opened MirrorFiles
  import opened MirrorReconcile
  import opened MirrorMeaning
  import opened MirrorProtocol

  // ---- What the effect has dealt with ----

  /** The mirror of a finding stands as the apply leaves it: rebuilt from dated entries, or gone. */
  ghost predicate Settled(now: World, start: World, f: Finding) {
    var expected := Expected(start.log, start.markers, f.slug);
    if f.slug in start.mirrors && f.rebuild
    then f.slug in now.mirrors && now.mirrors[f.slug] == Rebuilt(expected) && AllDated(expected)
    else f.slug !in now.mirrors
  }

  ghost predicate SettledSoFar(now: World, pc: Pc)
    requires pc.Effect?
  {
    && (forall i :: 0 <= i < pc.next && i < |pc.findings| ==> Settled(now, pc.start, pc.findings[i]))
    && (pc.stage == ToRebuild && pc.next < |pc.findings| ==>
          pc.findings[pc.next].slug in pc.start.mirrors && pc.findings[pc.next].rebuild)
  }

  ghost predicate AllSettled(s: State) {
    forall p: nat {:trigger PcOf(s, p)} :: PcOf(s, p).Effect? ==> SettledSoFar(s.world, PcOf(s, p))
  }

  lemma AdvanceSettles(s: State, p: nat)
    requires Inv(s) && PcOf(s, p).Effect? && SettledSoFar(s.world, PcOf(s, p))
    ensures var t := AdvanceEffect(s, p, PcOf(s, p));
      PcOf(t, p).Effect? ==> SettledSoFar(t.world, PcOf(t, p))
  {
    hide Expected, AllDated, Rebuilt, RecordsUsable, ConsumptionsOk, EventsOk;
    var pc, t := PcOf(s, p), AdvanceEffect(s, p, PcOf(s, p));
    assert EffectOk(s, pc);
    if pc.next < |pc.findings| {
      var slug := pc.findings[pc.next].slug;
      forall i | 0 <= i < pc.next ensures Settled(t.world, pc.start, pc.findings[i]) {
        assert pc.findings[i].slug != slug;
        assert Settled(s.world, pc.start, pc.findings[i]);
      }
    }
  }

  lemma EveryActionKeepsSettled(s: State, a: Action)
    requires Inv(s) && AllSettled(s)
    ensures AllSettled(Do(s, a))
  {
    hide EffectsOk, RecordsUsable, ConsumptionsOk, EventsOk, SettledSoFar, AdvanceEffect;
    var t := Do(s, a);
    forall p: nat {:trigger PcOf(t, p)} | PcOf(t, p).Effect? ensures SettledSoFar(t.world, PcOf(t, p)) {
      if a.Advance? && PcOf(s, a.p).Effect? {
        AdvanceAlone(s, a.p, p);
        AdvanceSettles(s, a.p);
      } else if a.Consume? && PcOf(t, p) != PcOf(s, p) {
        NothingSettledYet(t.world, PcOf(t, p));
      } else {
        assert PcOf(t, p) == PcOf(s, p) && t.world == s.world;
      }
    }
  }

  /** While one process is in its effect, another is not. */
  lemma AdvanceAlone(s: State, p: nat, q: nat)
    requires LocksHeld(s) && PcOf(s, p).Effect? && PcOf(AdvanceEffect(s, p, PcOf(s, p)), q).Effect?
    ensures p == q
  {
    OthersStay(s, p, q);
    if PcOf(s, q).Effect? {
      EffectIsAlone(s, p, q);
    }
  }

  lemma OthersStay(s: State, p: nat, q: nat)
    requires PcOf(s, p).Effect?
    ensures p != q ==> PcOf(AdvanceEffect(s, p, PcOf(s, p)), q) == PcOf(s, q)
  {
    hide Expected, AllDated, Rebuilt;
  }

  lemma NothingSettledYet(now: World, pc: Pc)
    requires pc.Effect? && pc.next == 0 && pc.stage == ToArchive
    ensures SettledSoFar(now, pc)
  {
  }

  lemma {:induction false} EveryRunKeepsSettled(s: State, actions: seq<Action>)
    requires Initial(s)
    ensures AllSettled(Run(s, actions))
    decreases |actions|
  {
    if actions == [] {
      assert forall p: nat :: PcOf(s, p) == Idle;
    } else {
      var before := actions[..|actions| - 1];
      EveryRunKeepsSettled(s, before);
      EveryRunKeepsInv(s, before);
      EveryActionKeepsSettled(Run(s, before), actions[|actions| - 1]);
    }
  }

  // ---- What an apply leaves ----

  /** The apply has dealt with every finding. */
  predicate AtItsEnd(pc: Pc) {
    pc.Effect? && pc.next == |pc.findings|
  }

  /** Mirrors that drifted are rebuilt if the log gives them entries, and gone if not; the others are as they were. */
  ghost predicate IsReconciled(start: World, now: Mirrors) {
    forall slug :: IsReconciledAt(start, now, slug)
  }

  ghost predicate IsReconciledAt(start: World, now: Mirrors, slug: string) {
    var expected := Expected(start.log, start.markers, slug);
    if slug !in start.mirrors then slug !in now
    else if !Drifted(start.mirrors[slug], expected) then slug in now && now[slug] == start.mirrors[slug]
    else if |expected| > 0 then slug in now && now[slug] == Rebuilt(expected)
    else slug !in now
  }

  /** In every run, an apply that has come to its end has reconciled the mirrors it found under the lock. */
  lemma FinishedApplyHasReconciled(s: State, actions: seq<Action>, p: nat)
    requires Initial(s) && AtItsEnd(PcOf(Run(s, actions), p))
    ensures var r := Run(s, actions); IsReconciled(PcOf(r, p).start, r.world.mirrors)
  {
    var r := Run(s, actions);
    EveryRunKeepsInv(s, actions);
    EveryRunKeepsSettled(s, actions);
    EndIsReconciled(r, p);
  }

  lemma EndIsReconciled(r: State, p: nat)
    requires Inv(r) && AllSettled(r) && AtItsEnd(PcOf(r, p))
    ensures IsReconciled(PcOf(r, p).start, r.world.mirrors)
  {
    hide Expected, Rebuilt, Drifted, FindingsIn, AllDated, IsReconciledAt;
    var pc := PcOf(r, p);
    assert EffectOk(r, pc);
    assert ConsumptionOk(r, Consumed(pc.id, pc.mission, pc.findings, pc.start));
    assert SettledSoFar(r.world, pc);
    forall slug ensures IsReconciledAt(pc.start, r.world.mirrors, slug) {
      SlugIsReconciled(r, pc, slug);
    }
  }

  lemma SlugIsReconciled(r: State, pc: Pc, slug: string)
    requires pc.Effect? && pc.next == |pc.findings| && EffectOk(r, pc) && SettledSoFar(r.world, pc)
    requires pc.findings == FindingsIn(pc.start)
    ensures IsReconciledAt(pc.start, r.world.mirrors, slug)
  {
    hide Expected, Rebuilt, Drifted, Collect, AllDated;
    var start, n := pc.start, |pc.findings|;
    ReportedIff(start.log, start.markers, start.mirrors, slug);
    if ReportedIn(pc.findings, n, slug) {
      var i :| 0 <= i < n && pc.findings[i].slug == slug;
      FindingsSay(start.log, start.markers, start.mirrors, i);
      assert Settled(r.world, start, pc.findings[i]);
    } else {
      assert Untouched(r, start, slug);
    }
  }

  // ---- When it gets there ----

  predicate OnlyAdvances(actions: seq<Action>, p: nat) {
    forall i :: 0 <= i < |actions| ==> actions[i] == Advance(p)
  }

  lemma {:induction false} RunFirst(s: State, a: Action, rest: seq<Action>)
    ensures Run(s, [a] + rest) == Run(Do(s, a), rest)
    decreases |rest|
  {
    var all := [a] + rest;
    if rest == [] {
      assert all[..0] == [];
      assert Run(s, all) == Do(Run(s, []), a);
    } else {
      RunFirst(s, a, rest[..|rest| - 1]);
      assert all[..|all| - 1] == [a] + rest[..|rest| - 1];
    }
  }

  /** Every mirror still to be rebuilt has dated entries only. */
  ghost predicate RestIsDated(pc: Pc)
    requires pc.Effect?
  {
    forall i :: pc.next <= i < |pc.findings| && pc.findings[i].rebuild ==>
      AllDated(Expected(pc.start.log, pc.start.markers, pc.findings[i].slug))
  }

  function StepsLeft(pc: Pc): nat
    requires pc.Effect? && pc.next <= |pc.findings|
  {
    if pc.next == |pc.findings| then 0 else
      3 * (|pc.findings| - pc.next) - (match pc.stage case ToArchive => 0 case ToRemove => 1 case ToRebuild => 2)
  }

  lemma AdvanceGetsOn(s: State, p: nat)
    requires Inv(s) && AllSettled(s) && PcOf(s, p).Effect? && PcOf(s, p).next < |PcOf(s, p).findings|
    requires RestIsDated(PcOf(s, p))
    ensures var pc, after := PcOf(s, p), PcOf(Do(s, Advance(p)), p);
      && after.Effect? && after.start == pc.start && after.findings == pc.findings && after.next <= |after.findings|
      && RestIsDated(after) && StepsLeft(after) < StepsLeft(pc)
  {
    hide Expected, AllDated, Rebuilt, RecordsUsable, ConsumptionsOk, EventsOk;
    assert EffectOk(s, PcOf(s, p));
    assert SettledSoFar(s.world, PcOf(s, p));
  }

  /** Left alone, an effect whose rebuilds are dated comes to its end, in at most three steps a finding. */
  lemma {:induction false} EffectGetsToItsEnd(s: State, p: nat) returns (actions: seq<Action>)
    requires Inv(s) && AllSettled(s) && PcOf(s, p).Effect? && RestIsDated(PcOf(s, p))
    ensures OnlyAdvances(actions, p) && |actions| <= 3 * |PcOf(s, p).findings|
    ensures var pc, after := PcOf(s, p), PcOf(Run(s, actions), p);
      AtItsEnd(after) && after.start == pc.start && after.findings == pc.findings
    ensures PcOf(s, p).next <= |PcOf(s, p).findings| && |actions| <= StepsLeft(PcOf(s, p))
    decreases var pc := PcOf(s, p); if pc.next <= |pc.findings| then StepsLeft(pc) else 0
  {
    hide Inv, AllSettled, RestIsDated, Do;
    NextIsWithin(s, p);
    if PcOf(s, p).next == |PcOf(s, p).findings| {
      actions := [];
    } else {
      AdvanceGetsOn(s, p);
      EveryActionKeepsInv(s, Advance(p));
      EveryActionKeepsSettled(s, Advance(p));
      var rest := EffectGetsToItsEnd(Do(s, Advance(p)), p);
      actions := [Advance(p)] + rest;
      RunFirst(s, Advance(p), rest);
    }
  }

  lemma NextIsWithin(s: State, p: nat)
    requires Inv(s) && PcOf(s, p).Effect?
    ensures PcOf(s, p).next <= |PcOf(s, p).findings|
  {
    assert EffectOk(s, PcOf(s, p));
  }

  // ---- From the request to the end ----

  /** Every mirror that drifted and is to be rebuilt has dated entries only. */
  ghost predicate DriftedAreDated(w: World) {
    forall slug :: slug in w.mirrors && Drifted(w.mirrors[slug], Expected(w.log, w.markers, slug)) ==>
      AllDated(Expected(w.log, w.markers, slug))
  }

  /** A request decided for, checked, and taken through both locks. */
  function UpToConsume(id: string, mission: string, findings: seq<Finding>, p: nat): seq<Action> {
    [Request(id, Payload(mission, findings)), Decide(id, true), Check(p, id, mission, findings), LockRecord(p),
     LockAudit(p), Consume(p)]
  }

  /** What the first two actions leave: the approved request. */
  lemma RequestIsApproved(s: State, id: string, payload: Payload)
    requires Initial(s)
    ensures Do(Do(s, Request(id, payload)), Decide(id, true)) ==
      s.(approvals := map[id := Approval(true, false, false, true, payload)])
  {
    hide FindingsIn;
  }

  /** The next three check it and take both locks. */
  lemma LocksAreTaken(s: State, id: string, mission: string, findings: seq<Finding>, p: nat)
    requires s.recordLocks == map[] && s.auditLock == None && s.procs == map[]
    requires s.approvals == map[id := Approval(true, false, false, true, Payload(mission, findings))]
    ensures var t := Do(Do(Do(s, Check(p, id, mission, findings)), LockRecord(p)), LockAudit(p));
      && PcOf(t, p) == AuditLocked(id, mission, findings)
      && t.approvals == s.approvals && t.world == s.world
  {
    hide FindingsIn;
    var checked := Do(s, Check(p, id, mission, findings));
    assert checked == s.(procs := map[p := Checked(id, mission, findings)]);
    var locked := Do(checked, LockRecord(p));
    assert PcOf(locked, p) == RecordLocked(id, mission, findings) && locked.auditLock == None;
  }

  lemma ConsumeIsReached(s: State, id: string, mission: string, p: nat)
    requires Initial(s)
    ensures var r := Run(s, UpToConsume(id, mission, FindingsIn(s.world), p));
      PcOf(r, p) == Effect(id, mission, FindingsIn(s.world), s.world, 0, ToArchive) && Inv(r)
  {
    hide FindingsIn, Inv, Run, Do;
    var findings := FindingsIn(s.world);
    var actions := UpToConsume(id, mission, findings, p);
    EveryRunKeepsInv(s, actions);
    RunSix(s, actions);
    RequestIsApproved(s, id, Payload(mission, findings));
    var approved := Do(Do(s, actions[0]), actions[1]);
    LocksAreTaken(approved, id, mission, findings, p);
    ConsumeStarts(Do(Do(Do(approved, actions[2]), actions[3]), actions[4]), id, mission, p);
  }

  lemma ConsumeStarts(s: State, id: string, mission: string, p: nat)
    requires PcOf(s, p) == AuditLocked(id, mission, FindingsIn(s.world)) && id in s.approvals
    requires s.approvals[id].payload == Payload(mission, FindingsIn(s.world))
    ensures PcOf(Do(s, Consume(p)), p) == Effect(id, mission, FindingsIn(s.world), s.world, 0, ToArchive)
  {
    hide FindingsIn;
  }

  lemma RunSix(s: State, actions: seq<Action>)
    requires |actions| == 6
    ensures Run(s, actions) ==
      Do(Do(Do(Do(Do(Do(s, actions[0]), actions[1]), actions[2]), actions[3]), actions[4]), actions[5])
  {
    hide Do;
    RunThree(s, actions[..3]);
    RunThree(Run(s, actions[..3]), actions[3..]);
    RunAppend(s, actions[..3], actions[3..]);
    assert actions == actions[..3] + actions[3..];
  }

  lemma RunThree(s: State, actions: seq<Action>)
    requires |actions| == 3
    ensures Run(s, actions) == Do(Do(Do(s, actions[0]), actions[1]), actions[2])
  {
    hide Do;
    var two := actions[..2];
    assert two[..1][..0] == [] && two[..1] == actions[..1];
    assert Run(s, actions[..1]) == Do(Run(s, []), actions[0]);
    assert Run(s, two) == Do(Run(s, two[..1]), two[1]);
  }

  lemma {:induction false} RunAppend(s: State, a: seq<Action>, b: seq<Action>)
    ensures Run(s, a + b) == Run(Run(s, a), b)
    decreases |b|
  {
    if b == [] {
      assert a + b == a;
    } else {
      RunAppend(s, a, b[..|b| - 1]);
      assert (a + b)[..|a + b| - 1] == a + b[..|b| - 1];
    }
  }

  /**
   * From any world whose drifted mirrors have dated entries, some run of one apply, approved for what is found there,
   * comes to its end and reconciles the mirrors.
   */
  lemma ApprovedApplyReconciles(s: State, id: string, mission: string, p: nat) returns (actions: seq<Action>)
    requires Initial(s) && DriftedAreDated(s.world)
    ensures var r := Run(s, actions);
      AtItsEnd(PcOf(r, p)) && PcOf(r, p).start == s.world && IsReconciled(s.world, r.world.mirrors)
  {
    hide Do, Inv, AllSettled, IsReconciled, FindingsIn;
    var first := UpToConsume(id, mission, FindingsIn(s.world), p);
    ConsumeIsReached(s, id, mission, p);
    var pc := PcOf(Run(s, first), p);
    FoundAreDated(s.world, pc);
    EveryRunKeepsSettled(s, first);
    var rest := EffectGetsToItsEnd(Run(s, first), p);
    actions := first + rest;
    RunAppend(s, first, rest);
    FinishedApplyHasReconciled(s, actions, p);
  }

  lemma FoundAreDated(w: World, pc: Pc)
    requires DriftedAreDated(w) && pc.Effect? && pc.start == w && pc.findings == FindingsIn(w)
    ensures RestIsDated(pc)
  {
    hide Expected, AllDated, Drifted, Collect;
    forall i | 0 <= i < |pc.findings| ensures AllDated(Expected(w.log, w.markers, pc.findings[i].slug)) {
      FindingsSay(w.log, w.markers, w.mirrors, i);
      ReportedIff(w.log, w.markers, w.mirrors, pc.findings[i].slug);
      assert ReportedIn(pc.findings, |pc.findings|, pc.findings[i].slug);
    }
  }

  /** In every run, an apply at its end has rebuilt mirrors from dated entries only. */
  lemma FinishedApplyWasDated(s: State, actions: seq<Action>, p: nat, i: nat)
    requires Initial(s) && AtItsEnd(PcOf(Run(s, actions), p)) && i < |PcOf(Run(s, actions), p).findings|
    ensures var pc := PcOf(Run(s, actions), p);
      pc.findings[i].rebuild ==> AllDated(Expected(pc.start.log, pc.start.markers, pc.findings[i].slug))
  {
    hide Expected, Rebuilt, AllDated, FindingsIn;
    var r := Run(s, actions);
    var pc := PcOf(r, p);
    EveryRunKeepsInv(s, actions);
    EveryRunKeepsSettled(s, actions);
    assert EffectOk(r, pc);
    assert ConsumptionOk(r, Consumed(pc.id, pc.mission, pc.findings, pc.start));
    FoundAreThere(pc.start, i);
    assert Settled(r.world, pc.start, pc.findings[i]);
  }

  lemma FoundAreThere(w: World, i: nat)
    requires i < |FindingsIn(w)|
    ensures FindingsIn(w)[i].slug in w.mirrors
  {
    FindingsSay(w.log, w.markers, w.mirrors, i);
  }

  // ---- Revocations and locks ----

  ghost predicate IsRevoked(s: State, id: string) {
    id in s.approvals && s.approvals[id].revoked && !s.approvals[id].used
  }

  lemma EveryActionKeepsRevoked(s: State, a: Action, id: string)
    requires Inv(s) && IsRevoked(s, id)
    ensures IsRevoked(Do(s, a), id)
  {
    hide LocksHeld, EffectsOk, ConsumptionsOk, EventsOk, FindingsIn;
    if a.Advance? && PcOf(s, a.p).Effect? {
      assert AdvanceEffect(s, a.p, PcOf(s, a.p)).approvals == s.approvals;
    } else if a.Consume? && PcOf(s, a.p).AuditLocked? {
      assert PcOf(s, a.p).id != id;
    }
  }

  lemma {:induction false} RevokedStaysRevoked(s: State, actions: seq<Action>, n: nat, id: string)
    requires Initial(s) && n <= |actions| && IsRevoked(Run(s, actions[..n]), id)
    ensures IsRevoked(Run(s, actions), id)
    decreases |actions|
  {
    hide Do, Inv, IsRevoked;
    if n == |actions| {
      assert actions[..n] == actions;
    } else {
      var before := actions[..|actions| - 1];
      assert before[..n] == actions[..n];
      RevokedStaysRevoked(s, before, n, id);
      EveryRunKeepsInv(s, before);
      EveryActionKeepsRevoked(Run(s, before), actions[|actions| - 1], id);
    }
  }

  /** In every run, an approval revoked while it is unused and unlocked is never consumed. */
  lemma RevokedApprovalIsNeverUsed(s: State, before: seq<Action>, id: string, after: seq<Action>)
    requires Initial(s) && id in Run(s, before).approvals && id !in Run(s, before).recordLocks
    requires Run(s, before).approvals[id].approved && !Run(s, before).approvals[id].used
    ensures IsRevoked(Run(s, before + [Revoke(id)] + after), id)
  {
    var first := before + [Revoke(id)];
    var all := first + after;
    assert first[..|before|] == before && all[..|first|] == first;
    RevokedStaysRevoked(s, all, |first|, id);
  }

  /** Records change only as their state and lock allow: a lock bars every change but its holder's consumption. */
  lemma RecordChangesIff(s: State, id: string, payload: Payload, sound: bool)
    ensures Do(s, Request(id, payload)) != s <==> id !in s.approvals
    ensures Do(s, Decide(id, sound)) != s <==>
      id in s.approvals && !s.approvals[id].approved && id !in s.recordLocks
    ensures Do(s, Revoke(id)) != s <==>
      && id in s.approvals && s.approvals[id].approved && !s.approvals[id].used && !s.approvals[id].revoked
      && id !in s.recordLocks
  {
    hide FindingsIn;
    var decided, revoked := Do(s, Decide(id, sound)), Do(s, Revoke(id));
    if id in s.approvals {
      assert s.approvals[id].approved || id in s.recordLocks || decided.approvals[id].approved;
      assert decided == s || decided.approvals[id] != s.approvals[id];
      assert revoked == s || revoked.approvals[id].revoked;
      assert s.approvals[id].revoked ==> s.approvals[id := s.approvals[id].(revoked := true)] == s.approvals;
    }
  }

  /** Only a process on its way through holds a lock. */
  ghost predicate LocksAreUsed(s: State) {
    && (s.auditLock.Some? ==> PcOf(s, s.auditLock.value).AuditLocked? || PcOf(s, s.auditLock.value).Effect?)
    && (forall id :: id in s.recordLocks ==>
          HoldsRecord(PcOf(s, s.recordLocks[id])) && PcOf(s, s.recordLocks[id]).id == id)
  }

  lemma EveryActionKeepsLocksUsed(s: State, a: Action)
    requires Inv(s) && LocksAreUsed(s)
    ensures LocksAreUsed(Do(s, a))
  {
    hide Inv, AdvanceEffect, FindingsIn, LocksAreUsed;
    match a {
      case Check(p, id, mission, findings) => MoveKeepsLocksUsed(s, p, Do(s, a));
      case LockRecord(p) => MoveKeepsLocksUsed(s, p, Do(s, a));
      case LockAudit(p) => MoveKeepsLocksUsed(s, p, Do(s, a));
      case Consume(p) =>
        if PcOf(s, p).AuditLocked? && PcOf(Do(s, a), p) == Idle {
          ReleaseKeepsLocksUsed(s, p);
        } else {
          MoveKeepsLocksUsed(s, p, Do(s, a));
        }
      case Advance(p) =>
        if PcOf(s, p).Effect? {
          AdvanceKeepsLocksUsed(s, p);
        }
      case Crash(p) => ReleaseKeepsLocksUsed(s, p);
      case _ => MoveKeepsLocksUsed(s, 0, Do(s, a));
    }
  }

  /** Nothing happens to processes and locks, or one process moves on with the locks it holds and those it takes. */
  ghost predicate MovesOn(s: State, p: nat, t: State) {
    || (t.procs == s.procs && t.recordLocks == s.recordLocks && t.auditLock == s.auditLock)
    || (&& (forall q: nat :: q != p ==> PcOf(t, q) == PcOf(s, q))
        && (t.recordLocks == s.recordLocks
            || (PcOf(t, p).RecordLocked? && t.recordLocks == s.recordLocks[PcOf(t, p).id := p]))
        && (t.auditLock == s.auditLock || (PcOf(t, p).AuditLocked? && t.auditLock == Some(p)))
        && (HoldsRecord(PcOf(s, p)) ==> HoldsRecord(PcOf(t, p)) && PcOf(t, p).id == PcOf(s, p).id)
        && (PcOf(s, p).AuditLocked? || PcOf(s, p).Effect? ==> PcOf(t, p).AuditLocked? || PcOf(t, p).Effect?))
  }

  lemma MoveKeepsLocksUsed(s: State, p: nat, t: State)
    requires LocksAreUsed(s) && MovesOn(s, p, t)
    ensures LocksAreUsed(t)
  {
    if t.procs == s.procs {
      assert forall q: nat :: PcOf(t, q) == PcOf(s, q);
    }
  }

  lemma ReleaseKeepsLocksUsed(s: State, p: nat)
    requires LocksAreUsed(s)
    ensures LocksAreUsed(Released(s, p))
  {
    var t := Released(s, p);
    assert forall q: nat :: q != p ==> PcOf(t, q) == PcOf(s, q);
  }

  lemma AdvanceKeepsLocksUsed(s: State, p: nat)
    requires LocksAreUsed(s) && PcOf(s, p).Effect?
    ensures LocksAreUsed(AdvanceEffect(s, p, PcOf(s, p)))
  {
    hide Expected, AllDated, Rebuilt, LocksAreUsed, Released;
    var t := AdvanceEffect(s, p, PcOf(s, p));
    if t == Released(s, p) {
      ReleaseKeepsLocksUsed(s, p);
    } else {
      assert t.procs == s.procs[p := PcOf(t, p)] && PcOf(t, p).Effect? && PcOf(t, p).id == PcOf(s, p).id;
      MoveKeepsLocksUsed(s, p, t);
    }
  }

  /** In every run, a lock is held only by a process that needs it, so a finished or failed apply leaves none. */
  lemma {:induction false} NoLockOutlivesItsApply(s: State, actions: seq<Action>)
    requires Initial(s)
    ensures LocksAreUsed(Run(s, actions))
    decreases |actions|
  {
    hide Do, Inv, LocksAreUsed;
    if actions == [] {
      NoLockAtFirst(s);
    } else {
      var before := actions[..|actions| - 1];
      NoLockOutlivesItsApply(s, before);
      EveryRunKeepsInv(s, before);
      EveryActionKeepsLocksUsed(Run(s, before), actions[|actions| - 1]);
    }
  }

  lemma NoLockAtFirst(s: State)
    requires Initial(s)
    ensures LocksAreUsed(s)
  {
  }

  /** The last step of an apply, and a crash, make the process idle. */
  lemma LastStepMakesIdle(s: State, p: nat)
    ensures PcOf(Do(s, Crash(p)), p) == Idle
    ensures AtItsEnd(PcOf(s, p)) ==> PcOf(Do(s, Advance(p)), p) == Idle
  {
  }
}
