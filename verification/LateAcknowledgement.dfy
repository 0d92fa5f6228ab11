/**
 * Which restore an acknowledgement is taken for (src/cas/runtime_supervisor.cpp,
 * src/cas/daemon.cpp).  Only the target generation is compared, and two restores of one
 * union state have the same target, so a grandchild of an aborted restore can be taken
 * for the grandchild of a later one.
 */
module LateAcknowledgement {
  import opened CasTypes
  import opened SupervisorState
  import opened RestoreProtocol

  /** Restore l has begun and is neither acknowledged nor aborted. */
  predicate Pending(w: World, l: nat) {
    && l < |w.epochs| && w.epochs[l].runtime in w.s.runtimes && w.epochs[l].runtime in w.byRuntime
    && w.s.runtimes[w.epochs[l].runtime].hasPendingRestore && w.byRuntime[w.epochs[l].runtime] == l
  }

  /** The step was the accepted acknowledgement of restore l. */
  predicate AcceptedFor(w: World, w': World, l: nat) {
    l < |w.epochs| && l < |w'.epochs| && w'.epochs[l].accepted > w.epochs[l].accepted
  }

  predicate HoldsToken(w: World, rid: string, token: string) {
    rid in w.s.runtimes && TokenOk(w.s.runtimes[rid], token)
  }

  /** A pending restore is the latest, with the target its runtime waits for. */
  lemma PendingIsLatest(w: World, rid: string)
    requires Inv(w) && rid in w.s.runtimes && w.s.runtimes[rid].hasPendingRestore
    ensures w.epochs != [] && Pending(w, Last(w)) && w.epochs[Last(w)].runtime == rid
    ensures w.epochs[Last(w)].target == w.s.runtimes[rid].restoreTarget
    ensures forall l: nat :: Pending(w, l) && w.epochs[l].runtime == rid ==> l == Last(w)
  {
    assert RuntimeOk(w, rid, w.s.runtimes[rid]);
  }

  /** The hand-off of a restore gives out its target. */
  lemma HandOffCarriesTarget(w: World, tid: nat, token: string)
    requires Inv(w) && PollAllowed(w.s, tid, token) && PollAction(w.s, tid).Restore?
    ensures w.epochs != [] && tid in w.byTemplate && w.byTemplate[tid] == Last(w)
    ensures PollAction(w.s, tid).target == w.epochs[Last(w)].target
  {
    assert TemplateOk(w, tid, w.s.templates[tid]);
  }

  /** An acknowledgement is accepted for the pending restore with its target, or not at all. */
  lemma AcceptedForPending(w: World, a: Action, l: nat)
    requires Inv(w) && a.Ready? && Enabled(w, a)
    ensures AcceptedFor(w, Apply(w, a), l) <==>
      HoldsToken(w, a.rid, a.token) && Pending(w, l) && w.epochs[l].runtime == a.rid && w.epochs[l].target == a.generation
  {
    if a.rid in w.s.runtimes && w.s.runtimes[a.rid].hasPendingRestore {
      PendingIsLatest(w, a.rid);
    }
  }

  /**
   * In every run, when the grandchild of restore e acknowledges: it is accepted for its
   * own restore exactly when that is still pending, and for another one exactly when a
   * later restore of the same runtime to the same target is.
   */
  lemma TakenForAnotherExactly(w: World, run: seq<Action>, a: Action, e: nat)
    requires Init(w) && Legal(w, run) && Enabled(After(w, run), a) && a.Ready? && a.sender == Grandchild(e)
    ensures var v := After(w, run); var v' := Apply(v, a);
      && (AcceptedFor(v, v', e) <==> HoldsToken(v, a.rid, a.token) && Pending(v, e))
      && ((exists l :: AcceptedFor(v, v', l) && l != e) <==>
            HoldsToken(v, a.rid, a.token) &&
            exists l :: l > e && Pending(v, l) && v.epochs[l].runtime == v.epochs[e].runtime && v.epochs[l].target == v.epochs[e].target)
  {
    RunsKeepInv(w, run);
    var v := After(w, run);
    var v' := Apply(v, a);
    forall l: nat ensures AcceptedFor(v, v', l) <==>
      HoldsToken(v, a.rid, a.token) && Pending(v, l) && v.epochs[l].runtime == a.rid && v.epochs[l].target == a.generation
    {
      AcceptedForPending(v, a, l);
    }
    forall l: nat | Pending(v, l) ensures l == Last(v) {
      PendingIsLatest(v, v.epochs[l].runtime);
    }
  }

  // ---- such a run ----------------------------------------------------------------------------

  /** Two restores to generation 2; the first one times out after its hand-off. */
  function LateRun(): seq<Action> {
    [DoRegister("r", 7, 1, "t"), Other(CallBeginSnapshot("r")), Other(CallObserve("r", "t", 7, 1)), Other(CallRelease(1)),
     Begin("r", 1, 2, true), Rollback(true), Publish, Poll(1, "t"), TimeOut, Recover, Abort, Resume(true),
     Begin("r", 1, 2, true), Ready(Grandchild(0), "r", "t", 9, 9, 2)]
  }

  function Registered(): Runtime {
    NewRuntime(7, 1, "t")
  }

  /** The runtime from its pending snapshot on. */
  function Snapshotting(k: nat): Runtime {
    var r := Registered().(hasPendingSnapshot := true, pendingOp := 1);
    if k == 2 then r
    else if k == 3 then r.(pendingBoundary := 1, boundaryObserved := true)
    else r.(pendingBoundary := 1, boundaryObserved := true, templateIds := [1], pendingTemplate := 1)
  }

  function Restoring(): Runtime {
    Snapshotting(4).(hasPendingRestore := true, restoreTemplate := 1, restoreTarget := 2)
  }

  function Answered(): map<nat, Boundary> {
    map[1 := Boundary("r", 1, 7, 1, Snapshot(1, 1))]
  }

  function Parked(): Template {
    NewTemplate("r", 1)
  }

  function SupAt(k: nat): Sup {
    if k == 0 then Sup(map[], map[], map[], 0, 0, 0)
    else if k == 1 then Sup(map["r" := Registered()], map[], map[], 0, 0, 0)
    else if k == 2 then Sup(map["r" := Snapshotting(2)], map[], map[], 0, 0, 1)
    else if k == 3 then Sup(map["r" := Snapshotting(3)], map[], map[1 := Boundary("r", 1, 7, 1, Unanswered)], 0, 1, 1)
    else if k == 4 || k == 11 || k == 12 then Sup(map["r" := Snapshotting(4)], map[1 := Parked()], Answered(), 1, 1, 1)
    else if k == 5 || k == 6 || k == 13 then
      Sup(map["r" := Restoring()], map[1 := Parked().(restorePending := true, target := 2)], Answered(), 1, 1, 1)
    else if k == 7 then
      Sup(map["r" := Restoring()], map[1 := Parked().(restorePending := true, restoreReleased := true, target := 2)], Answered(), 1, 1, 1)
    else if k <= 10 then
      Sup(map["r" := Restoring()],
          map[1 := Parked().(restorePending := true, restoreReleased := true, restoreInFlight := true, target := 2)], Answered(), 1, 1, 1)
    else
      Sup(map["r" := Restoring().(retirePgid := 1, rootPid := 9, active := 9, generation := 2, generationReady := true,
                                  hasPendingRestore := false, restoreTemplate := 0)],
          map[1 := Parked().(target := 2)], Answered(), 1, 1, 1)
  }

  function DriverAt(k: nat): Driver {
    if k <= 4 || k == 12 then Idle
    else if k == 5 || k >= 13 then Began("r")
    else if k == 6 then RolledBack("r")
    else if k <= 8 then Waiting("r")
    else if k == 9 then Recovering("r")
    else if k == 10 then Aborting("r")
    else Resuming("r", 1)
  }

  /** The first restore; it keeps its record through the rest of the run. */
  function FirstEpoch(k: nat): Epoch {
    Epoch("r", 1, 2, k >= 6, if k >= 8 then 1 else 0, 0, Nobody)
  }

  function EpochsAt(k: nat): seq<Epoch> {
    if k <= 4 then []
    else if k <= 12 then [FirstEpoch(k)]
    else if k == 13 then [FirstEpoch(k), Epoch("r", 1, 2, false, 0, 0, Nobody)]
    else [FirstEpoch(k), Epoch("r", 1, 2, false, 0, 1, Grandchild(0))]
  }

  function GroupsAt(k: nat): map<int, GroupState> {
    if k == 0 then map[]
    else if k <= 4 || k == 12 then map[1 := Running]
    else if k <= 13 then map[1 := Frozen]
    else map[1 := Frozen, 9 := Running]
  }

  function WorldAt(k: nat): World {
    World(SupAt(k), GroupsAt(k), if k == 0 then map[] else if k <= 13 then map[1 := "r"] else map[1 := "r", 9 := "r"], {},
          DriverAt(k), EpochsAt(k),
          if k <= 4 then map[] else if k <= 12 then map[1 := 0] else map[1 := 1],
          if k <= 4 then map[] else if k <= 12 then map["r" := 0] else map["r" := 1], 0)
  }

  ghost predicate StepFits(k: nat)
    requires k < 14
  {
    Enabled(WorldAt(k), LateRun()[k]) && Apply(WorldAt(k), LateRun()[k]) == WorldAt(k + 1)
  }

  lemma RegisterFits()
    ensures StepFits(0)
  {
    assert WorldAt(1).s.runtimes == map["r" := Registered()];
  }

  lemma SnapshotFits(k: nat)
    requires k == 1 || k == 2
    ensures StepFits(k)
  {
    assert Snapshotting(2).pendingOp == 1;
  }

  lemma ReleaseFits()
    ensures StepFits(3)
  {
    assert [] + [1 as nat] == [1];
  }

  lemma BeginFits(k: nat)
    requires k == 4 || k == 12
    ensures StepFits(k)
  {
    assert BeginRestore(SupAt(k), "r", 1, 2, true).s == SupAt(k + 1);
    assert Stop(GroupsAt(k), 1) == map[1 := Frozen];
  }

  lemma RollbackFits()
    ensures StepFits(5)
  {}

  lemma PublishFits()
    ensures StepFits(6)
  {}

  lemma HandOffFits()
    ensures StepFits(7)
  {}

  lemma TimeOutFits(k: nat)
    requires k == 8 || k == 9
    ensures StepFits(k)
  {}

  lemma AbortFits()
    ensures StepFits(10)
  {}

  lemma ResumeFits()
    ensures StepFits(11)
  {}

  lemma LateReadyFits()
    ensures StepFits(13)
  {
    var o := GenerationReady(SupAt(13), "r", "t", 9, 9, 2);
    assert o == Outcome(SupAt(14), "");
  }

  lemma EveryStepFits(k: nat)
    requires k < 14
    ensures StepFits(k)
  {
    if k == 0 {
      RegisterFits();
    } else if k <= 2 {
      SnapshotFits(k);
    } else if k == 3 {
      ReleaseFits();
    } else if k == 4 || k == 12 {
      BeginFits(k);
    } else if k == 5 {
      RollbackFits();
    } else if k == 6 {
      PublishFits();
    } else if k == 7 {
      HandOffFits();
    } else if k <= 9 {
      TimeOutFits(k);
    } else if k == 10 {
      AbortFits();
    } else if k == 11 {
      ResumeFits();
    } else {
      LateReadyFits();
    }
  }

  lemma {:induction false} LateRunFrom(k: nat)
    requires k <= 14
    ensures Legal(WorldAt(k), LateRun()[k..]) && After(WorldAt(k), LateRun()[k..]) == WorldAt(14)
    decreases 14 - k
  {
    var rest := LateRun()[k..];
    if k < 14 {
      EveryStepFits(k);
      LateRunFrom(k + 1);
      assert rest[0] == LateRun()[k] && rest[1..] == LateRun()[k + 1..];
    }
  }

  lemma WholeRun() returns (w: World, run: seq<Action>)
    ensures Init(w) && Legal(w, run) && After(w, run) == WorldAt(14)
  {
    w, run := WorldAt(0), LateRun()[0..];
    LateRunFrom(0);
  }

  /** What the second restore looks like at the end. */
  ghost predicate TakenTooEarly(v: World) {
    && |v.epochs| == 2 && v.epochs[1].accepted == 1 && v.epochs[1].ackBy == Grandchild(0)
    && !v.epochs[1].rolledBack && v.epochs[1].handOffs == 0
    && "r" in v.s.runtimes && v.s.runtimes["r"].active == 9 && 9 in v.groups && v.groups[9].Running?
  }

  lemma LastWorld()
    ensures TakenTooEarly(WorldAt(14))
  {}

  /**
   * There is a run in which the grandchild of a first, aborted restore is accepted for the
   * second one, before the second one has rolled the branch back or handed anything off,
   * and runs.
   */
  lemma LateGrandchildIsAccepted() returns (w: World, run: seq<Action>)
    ensures Init(w) && Legal(w, run) && TakenTooEarly(After(w, run))
  {
    w, run := WholeRun();
    LastWorld();
  }
}
