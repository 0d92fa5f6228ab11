/**
 * The runtime supervisor's records and, for every operation, the state it leaves
 * behind (src/cas/runtime_supervisor.cpp).  Ids that the source prints from counters
 * are the counters themselves; 0 is the empty id.
 */
module SupervisorState {
  import opened CasTypes

  datatype Runtime = Runtime(
    rootPid: int, active: int, generation: nat, token: string, templateIds: seq<nat>,
    hasPendingSnapshot: bool, pendingOp: nat, pendingBoundary: nat, boundaryObserved: bool, pendingTemplate: nat,
    hasPendingRestore: bool, restoreTemplate: nat, restoreTarget: nat, generationReady: bool, retirePgid: int)

  datatype Template = Template(
    runtime: string, pid: int, pgid: int, generation: nat, ready: bool, published: bool, publishError: string,
    unionState: string, fsCommit: Hash,
    restorePending: bool, restoreReleased: bool, restoreInFlight: bool, target: nat, dropped: bool)

  datatype BoundaryAction = Unanswered | Snapshot(op: nat, template: nat) | Refused(op: nat, error: string)

  datatype Boundary = Boundary(runtime: string, op: nat, pid: int, generation: nat, action: BoundaryAction)

  datatype TemplateAction = Wait | Restore(target: nat) | Drop

  datatype Sup = Sup(
    runtimes: map<string, Runtime>, templates: map<nat, Template>, boundaries: map<nat, Boundary>,
    templateCounter: nat, boundaryCounter: nat, opCounter: nat)

  /** The state an operation leaves, and its error; empty means success. */
  datatype Outcome = Outcome(s: Sup, error: string)
  {
    predicate Ok() { error == "" }
  }

  function PutRuntime(s: Sup, rid: string, r: Runtime): Sup {
    s.(runtimes := s.runtimes[rid := r])
  }

  function PutTemplate(s: Sup, tid: nat, t: Template): Sup {
    s.(templates := s.templates[tid := t])
  }

  function PutBoundary(s: Sup, bid: nat, b: Boundary): Sup {
    s.(boundaries := s.boundaries[bid := b])
  }

  predicate TokenOk(r: Runtime, token: string) {
    r.token != "" && token == r.token
  }

  // ---- registry and snapshots ---------------------------------------------------------

  function NewRuntime(rootPid: int, pgid: int, token: string): Runtime {
    Runtime(rootPid, pgid, 1, token, [], false, 0, 0, false, 0, false, 0, 0, false, 0)
  }

  function Register(s: Sup, rid: string, rootPid: int, pgid: int, token: string): Outcome {
    if rid in s.runtimes then Outcome(s, "runtime already registered")
    else Outcome(PutRuntime(s, rid, NewRuntime(rootPid, pgid, token)), "")
  }

  function BeginSnapshot(s: Sup, rid: string): Outcome {
    if rid !in s.runtimes then Outcome(s, "unknown runtime")
    else if s.runtimes[rid].hasPendingSnapshot then Outcome(s, "snapshot already in progress")
    else
      var op := s.opCounter + 1;
      var r := s.runtimes[rid].(hasPendingSnapshot := true, pendingOp := op, pendingBoundary := 0, boundaryObserved := false);
      Outcome(PutRuntime(s, rid, r).(opCounter := op), "")
  }

  function ClearSnapshot(r: Runtime): Runtime {
    r.(hasPendingSnapshot := false, pendingOp := 0, pendingBoundary := 0, boundaryObserved := false)
  }

  /** An observed boundary that still waits is answered with an error. */
  function AnswerCancelled(s: Sup, r: Runtime): Sup {
    var bid := r.pendingBoundary;
    if r.boundaryObserved && bid != 0 && bid in s.boundaries && s.boundaries[bid].action.Unanswered? then
      var b := s.boundaries[bid];
      PutBoundary(s, bid, b.(action := Refused(b.op, "snapshot cancelled")))
    else s
  }

  function CancelSnapshot(s: Sup, rid: string): Outcome {
    if rid !in s.runtimes then Outcome(s, "unknown runtime")
    else
      var r := s.runtimes[rid];
      Outcome(PutRuntime(AnswerCancelled(s, r), rid, ClearSnapshot(r)), "")
  }

  function ObserveBoundary(s: Sup, rid: string, token: string, pid: int, generation: nat): Outcome {
    if rid !in s.runtimes then Outcome(s, "unknown runtime")
    else
      var r := s.runtimes[rid];
      if !TokenOk(r, token) then Outcome(s, "invalid control token")
      else if !r.hasPendingSnapshot || r.boundaryObserved then Outcome(s, "no pending snapshot")
      else
        var bid := s.boundaryCounter + 1;
        var s1 := PutBoundary(s, bid, Boundary(rid, r.pendingOp, pid, generation, Unanswered));
        Outcome(PutRuntime(s1, rid, r.(pendingBoundary := bid, boundaryObserved := true)).(boundaryCounter := bid), "")
  }

  function NewTemplate(rid: string, generation: nat): Template {
    Template(rid, -1, -1, generation, false, false, "", "", ZERO_HASH, false, false, false, 0, false)
  }

  /** The pending snapshot stays pending until its union state is durable. */
  function ReleaseForSnapshot(s: Sup, bid: nat): Outcome {
    if bid !in s.boundaries then Outcome(s, "unknown boundary")
    else if !s.boundaries[bid].action.Unanswered? then Outcome(s, "boundary already released")
    else
      var b := s.boundaries[bid];
      var tid := s.templateCounter + 1;
      var s1 := PutTemplate(s, tid, NewTemplate(b.runtime, b.generation)).(templateCounter := tid);
      var s2 := PutBoundary(s1, bid, b.(action := Snapshot(b.op, tid)));
      if b.runtime !in s.runtimes then Outcome(s2, "")
      else
        var r := s.runtimes[b.runtime];
        Outcome(PutRuntime(s2, b.runtime, r.(templateIds := r.templateIds + [tid], pendingTemplate := tid)), "")
  }

  function ReleaseWithError(s: Sup, bid: nat, message: string): Outcome {
    if bid !in s.boundaries then Outcome(s, "unknown boundary")
    else if !s.boundaries[bid].action.Unanswered? then Outcome(s, "boundary already released")
    else
      var b := s.boundaries[bid];
      var s1 := PutBoundary(s, bid, b.(action := Refused(b.op, message)));
      if b.runtime !in s.runtimes then Outcome(s1, "")
      else Outcome(PutRuntime(s1, b.runtime, ClearSnapshot(s.runtimes[b.runtime])), "")
  }

  /** The boundary's handler takes its answer, or gives up; either way the record is gone. */
  function ConsumeBoundary(s: Sup, bid: nat): Outcome {
    if bid !in s.boundaries then Outcome(s, "unknown boundary")
    else Outcome(s.(boundaries := s.boundaries - {bid}),
                 if s.boundaries[bid].action.Unanswered? then "snapshot timeout" else "")
  }

  function TemplateReady(s: Sup, rid: string, token: string, tid: nat, pid: int, pgid: int, generation: nat): Outcome {
    if tid !in s.templates then Outcome(s, "unknown template")
    else
      var t := s.templates[tid];
      if rid != "" && t.runtime != rid then Outcome(s, "template runtime mismatch")
      else if t.runtime !in s.runtimes then Outcome(s, "unknown runtime")
      else if !TokenOk(s.runtimes[t.runtime], token) then Outcome(s, "invalid control token")
      else Outcome(PutTemplate(s, tid, t.(pid := pid, pgid := pgid, generation := generation, ready := true)), "")
  }

  function AttachUnionState(s: Sup, tid: nat, unionState: string, fsCommit: Hash): Outcome {
    if tid !in s.templates then Outcome(s, "unknown template")
    else Outcome(PutTemplate(s, tid, s.templates[tid].(unionState := unionState, fsCommit := fsCommit,
                                                       published := true, publishError := "")), "")
  }

  function FailTemplatePublish(s: Sup, tid: nat, message: string): Outcome {
    if tid !in s.templates then Outcome(s, "unknown template")
    else Outcome(PutTemplate(s, tid, s.templates[tid].(publishError := message)), "")
  }

  // ---- restores -----------------------------------------------------------------------

  /** freezeOk is the process controller's answer for the active group. */
  function BeginRestore(s: Sup, rid: string, tid: nat, target: nat, freezeOk: bool): Outcome {
    if rid !in s.runtimes then Outcome(s, "unknown runtime")
    else if tid !in s.templates || s.templates[tid].runtime != rid then Outcome(s, "unknown template")
    else if s.runtimes[rid].active > 0 && !freezeOk then Outcome(s, "freeze failed")
    else
      var r := s.runtimes[rid].(hasPendingRestore := true, restoreTemplate := tid, restoreTarget := target,
                                generationReady := false, retirePgid := 0);
      var t := s.templates[tid].(restorePending := true, restoreReleased := false, restoreInFlight := false, target := target);
      Outcome(PutTemplate(PutRuntime(s, rid, r), tid, t), "")
  }

  function PublishRestore(s: Sup, rid: string): Outcome {
    if rid !in s.runtimes then Outcome(s, "unknown runtime")
    else
      var r := s.runtimes[rid];
      var tid := r.restoreTemplate;
      if !r.hasPendingRestore || tid == 0 then Outcome(s, "no pending restore")
      else if tid !in s.templates then Outcome(s, "unknown template")
      else if !s.templates[tid].restorePending || s.templates[tid].runtime != rid then Outcome(s, "no pending restore")
      else Outcome(PutTemplate(s, tid, s.templates[tid].(restoreReleased := true)), "")
  }

  function ClearIntent(s: Sup, tid: nat, keepTarget: bool): Sup {
    if tid == 0 || tid !in s.templates then s
    else
      var t := s.templates[tid].(restorePending := false, restoreReleased := false, restoreInFlight := false);
      PutTemplate(s, tid, if keepTarget then t else t.(target := 0))
  }

  /** The part of an abort that runs under the lock; the active group is resumed afterwards. */
  function AbortRestore(s: Sup, rid: string): Outcome {
    if rid !in s.runtimes then Outcome(s, "unknown runtime")
    else
      var r := s.runtimes[rid];
      var r' := r.(hasPendingRestore := false, generationReady := false, restoreTemplate := 0, restoreTarget := 0);
      Outcome(PutRuntime(ClearIntent(s, r.restoreTemplate, false), rid, r'), "")
  }

  function PollAction(s: Sup, tid: nat): TemplateAction
    requires tid in s.templates
  {
    var t := s.templates[tid];
    if t.dropped then Drop
    else if t.restorePending && t.restoreReleased && !t.restoreInFlight then Restore(t.target)
    else Wait
  }

  predicate PollAllowed(s: Sup, tid: nat, token: string) {
    tid in s.templates && s.templates[tid].runtime in s.runtimes && TokenOk(s.runtimes[s.templates[tid].runtime], token)
  }

  function TemplatePoll(s: Sup, tid: nat, token: string): Outcome {
    if tid !in s.templates then Outcome(s, "unknown template")
    else if s.templates[tid].runtime !in s.runtimes then Outcome(s, "unknown runtime")
    else if !PollAllowed(s, tid, token) then Outcome(s, "invalid control token")
    else
      match PollAction(s, tid)
      case Drop => Outcome(s.(templates := s.templates - {tid}), "")
      case Restore(_) => Outcome(PutTemplate(s, tid, s.templates[tid].(restoreInFlight := true)), "")
      case Wait => Outcome(s, "")
  }

  function GenerationReady(s: Sup, rid: string, token: string, pid: int, pgid: int, generation: nat): Outcome {
    if rid !in s.runtimes then Outcome(s, "unknown runtime")
    else
      var r := s.runtimes[rid];
      if !TokenOk(r, token) then Outcome(s, "invalid control token")
      else if !r.hasPendingRestore || r.restoreTarget != generation then Outcome(s, "restore aborted or stale")
      else
        var r' := r.(retirePgid := r.active, rootPid := pid, active := pgid, generation := generation,
                     generationReady := true, hasPendingRestore := false, restoreTemplate := 0);
        Outcome(PutRuntime(ClearIntent(s, r.restoreTemplate, true), rid, r'), "")
  }

  /** The part of a retirement that runs under the lock; the stashed group is terminated afterwards. */
  function RetirePending(s: Sup, rid: string): Outcome {
    if rid !in s.runtimes then Outcome(s, "unknown runtime")
    else Outcome(PutRuntime(s, rid, s.runtimes[rid].(retirePgid := 0)), "")
  }

  function Without(ids: seq<nat>, tid: nat): (r: seq<nat>)
    ensures forall i :: 0 <= i < |r| ==> r[i] != tid && r[i] in ids
  {
    if ids == [] then []
    else if ids[0] == tid then Without(ids[1..], tid)
    else [ids[0]] + Without(ids[1..], tid)
  }

  function DropTemplate(s: Sup, tid: nat): Outcome {
    if tid !in s.templates then Outcome(s, "unknown template")
    else
      var rid := s.templates[tid].runtime;
      var s1 := PutTemplate(s, tid, s.templates[tid].(dropped := true));
      if rid !in s.runtimes then Outcome(s1, "")
      else
        var r := s.runtimes[rid];
        if r.hasPendingRestore && r.restoreTemplate == tid then Outcome(s, "template restore in progress")
        else
          var r' := r.(templateIds := Without(r.templateIds, tid),
                       pendingTemplate := if r.pendingTemplate == tid then 0 else r.pendingTemplate);
          Outcome(PutRuntime(s1, rid, r'), "")
  }
}
