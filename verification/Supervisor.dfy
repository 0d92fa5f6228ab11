/**
 * The supervisor as the object whose records its methods update
 * (src/cas/runtime_supervisor.cpp).  Each method leaves exactly the state that the
 * protocol in RestoreProtocol reasons about.
 */
module Supervisor {
  import opened Bytes
  import opened CasTypes
  import opened LineCodec
  import opened SupervisorState

  // ---- generated ids and reports ---------------------------------------------------------

  /** The last k hexadecimal digits of a number, with leading zeros. */
  function HexDigits16(n: nat, k: nat): (s: string)
    ensures |s| == k
  {
    if k == 0 then "" else HexDigits16(n / 16, k - 1) + [HexDigit(n % 16)]
  }

  function RuntimeId(n: nat): string {
    "rt-" + HexDigits16(n, 16)
  }

  function Pow16(k: nat): (p: nat)
    ensures p > 0
  {
    if k == 0 then 1 else 16 * Pow16(k - 1)
  }

  lemma {:induction false} DigitsDiffer(n: nat, m: nat, k: nat)
    requires n < Pow16(k) && m < Pow16(k) && n != m
    ensures HexDigits16(n, k) != HexDigits16(m, k)
  {
    var a, b := HexDigits16(n, k), HexDigits16(m, k);
    HexDigits(n % 16);
    HexDigits(m % 16);
    assert a[k - 1] == HexDigit(n % 16) && b[k - 1] == HexDigit(m % 16);
    if n % 16 == m % 16 {
      assert n / 16 != m / 16;
      DigitsDiffer(n / 16, m / 16, k - 1);
      assert a[..k - 1] == HexDigits16(n / 16, k - 1) && b[..k - 1] == HexDigits16(m / 16, k - 1);
    }
  }

  /** No two values of the 64-bit counter give the same runtime id. */
  lemma GeneratedIdsDiffer(n: nat, m: nat)
    requires n < TWO64 && m < TWO64 && n != m
    ensures RuntimeId(n) != RuntimeId(m)
  {
    assert Pow16(4) == TWO16;
    assert Pow16(8) == TWO32;
    assert Pow16(12) == TWO16 * TWO32;
    assert Pow16(16) == TWO64;
    DigitsDiffer(n, m, 16);
    assert RuntimeId(n)[3..] == HexDigits16(n, 16) && RuntimeId(m)[3..] == HexDigits16(m, 16);
  }

  /** The process controller's answer, with its message on failure. */
  datatype Signalled = Signalled(ok: bool, message: string)

  /** A group is only signalled when there is one, and a failure is reported without failing the call. */
  function Report(pgid: int, answer: Signalled, prefix: string, unknown: string): string {
    if pgid <= 0 || answer.ok then ""
    else prefix + (if answer.message == "" then unknown else answer.message)
  }

  class RuntimeSupervisor {
    var runtimes: map<string, Runtime>
    var templates: map<nat, Template>
    var boundaries: map<nat, Boundary>
    var templateCounter: nat
    var boundaryCounter: nat
    var opCounter: nat
    var runtimeCounter: nat

    ghost function S(): Sup
      reads this
    {
      Sup(runtimes, templates, boundaries, templateCounter, boundaryCounter, opCounter)
    }

    constructor ()
      ensures S() == Sup(map[], map[], map[], 0, 0, 0) && runtimeCounter == 0
    {
      runtimes, templates, boundaries := map[], map[], map[];
      templateCounter, boundaryCounter, opCounter, runtimeCounter := 0, 0, 0, 0;
    }

    /**
     * Refused on a platform that the process controller does not support; a runtime
     * without a name gets the next generated one.
     */
    method RegisterRuntime(rid: string, rootPid: int, pgid: int, token: string, platform: Signalled)
      returns (ok: bool, error: string)
      modifies this`runtimes, this`runtimeCounter
      ensures !platform.ok ==> !ok && error == platform.message && S() == old(S()) && runtimeCounter == old(runtimeCounter)
      ensures platform.ok ==>
        && runtimeCounter == old(runtimeCounter) + (if rid == "" then 1 else 0)
        && ok == (error == "")
        && Outcome(S(), error) == Register(old(S()), if rid == "" then RuntimeId(runtimeCounter) else rid, rootPid, pgid, token)
    {
      if !platform.ok {
        return false, platform.message;
      }
      var id := rid;
      if id == "" {
        runtimeCounter := runtimeCounter + 1;
        id := RuntimeId(runtimeCounter);
      }
      if id in runtimes {
        return false, "runtime already registered";
      }
      runtimes := runtimes[id := NewRuntime(rootPid, pgid, token)];
      ok, error := true, "";
    }

    // ---- snapshots -------------------------------------------------------------------

    method BeginSnapshot(rid: string) returns (op: nat, error: string)
      modifies this`runtimes, this`opCounter
      ensures Outcome(S(), error) == SupervisorState.BeginSnapshot(old(S()), rid)
      ensures error == "" ==> rid in runtimes && op == runtimes[rid].pendingOp
    {
      op := 0;
      if rid !in runtimes {
        return 0, "unknown runtime";
      }
      var r := runtimes[rid];
      if r.hasPendingSnapshot {
        return 0, "snapshot already in progress";
      }
      opCounter := opCounter + 1;
      op := opCounter;
      r := r.(hasPendingSnapshot := true);
      r := r.(pendingOp := op);
      r := r.(pendingBoundary := 0);
      r := r.(boundaryObserved := false);
      runtimes := runtimes[rid := r];
      error := "";
    }

    method CancelSnapshot(rid: string) returns (error: string)
      modifies this`runtimes, this`boundaries
      ensures Outcome(S(), error) == SupervisorState.CancelSnapshot(old(S()), rid)
    {
      if rid !in runtimes {
        return "unknown runtime";
      }
      var r := runtimes[rid];
      if r.boundaryObserved && r.pendingBoundary != 0 && r.pendingBoundary in boundaries {
        var b := boundaries[r.pendingBoundary];
        if b.action.Unanswered? {
          boundaries := boundaries[r.pendingBoundary := b.(action := Refused(b.op, "snapshot cancelled"))];
        }
      }
      r := r.(hasPendingSnapshot := false);
      r := r.(pendingOp := 0, pendingBoundary := 0);
      r := r.(boundaryObserved := false);
      runtimes := runtimes[rid := r];
      error := "";
    }

    method ObserveBoundary(rid: string, token: string, pid: int, generation: nat) returns (bid: nat, error: string)
      modifies this`runtimes, this`boundaries, this`boundaryCounter
      ensures Outcome(S(), error) == SupervisorState.ObserveBoundary(old(S()), rid, token, pid, generation)
      ensures error == "" ==> rid in runtimes && bid == runtimes[rid].pendingBoundary
    {
      bid := 0;
      if rid !in runtimes {
        return 0, "unknown runtime";
      }
      var r := runtimes[rid];
      if r.token == "" || token != r.token {
        return 0, "invalid control token";
      }
      if !r.hasPendingSnapshot || r.boundaryObserved {
        return 0, "no pending snapshot";
      }
      boundaryCounter := boundaryCounter + 1;
      bid := boundaryCounter;
      boundaries := boundaries[bid := Boundary(rid, r.pendingOp, pid, generation, Unanswered)];
      r := r.(pendingBoundary := bid);
      r := r.(boundaryObserved := true);
      runtimes := runtimes[rid := r];
      error := "";
    }

    method ReleaseBoundaryForSnapshot(bid: nat) returns (out: BoundaryAction, error: string)
      modifies this`runtimes, this`templates, this`boundaries, this`templateCounter
      ensures Outcome(S(), error) == ReleaseForSnapshot(old(S()), bid)
      ensures error == "" ==> bid in boundaries && out == boundaries[bid].action && out.Snapshot?
    {
      out := Unanswered;
      if bid !in boundaries {
        return out, "unknown boundary";
      }
      var b := boundaries[bid];
      if !b.action.Unanswered? {
        return out, "boundary already released";
      }
      templateCounter := templateCounter + 1;
      var tid := templateCounter;
      templates := templates[tid := NewTemplate(b.runtime, b.generation)];
      if b.runtime in runtimes {
        var r := runtimes[b.runtime];
        r := r.(templateIds := r.templateIds + [tid]);
        r := r.(pendingTemplate := tid);
        runtimes := runtimes[b.runtime := r];
      }
      out := Snapshot(b.op, tid);
      boundaries := boundaries[bid := b.(action := out)];
      error := "";
    }

    method ReleaseBoundaryWithError(bid: nat, message: string) returns (out: BoundaryAction, error: string)
      modifies this`runtimes, this`boundaries
      ensures Outcome(S(), error) == ReleaseWithError(old(S()), bid, message)
      ensures error == "" ==> bid in boundaries && out == boundaries[bid].action && out.Refused? && out.error == message
    {
      out := Unanswered;
      if bid !in boundaries {
        return out, "unknown boundary";
      }
      var b := boundaries[bid];
      if !b.action.Unanswered? {
        return out, "boundary already released";
      }
      if b.runtime in runtimes {
        var r := runtimes[b.runtime];
        r := r.(hasPendingSnapshot := false, boundaryObserved := false);
        r := r.(pendingOp := 0, pendingBoundary := 0);
        runtimes := runtimes[b.runtime := r];
      }
      out := Refused(b.op, message);
      boundaries := boundaries[bid := b.(action := out)];
      error := "";
    }

    /** The end of the boundary handler's wait: it takes the answer, or gives up. */
    method WaitBoundaryAction(bid: nat) returns (out: BoundaryAction, error: string)
      modifies this`boundaries
      ensures Outcome(S(), error) == ConsumeBoundary(old(S()), bid)
      ensures error == "" ==> bid in old(boundaries) && out == old(boundaries)[bid].action && !out.Unanswered?
    {
      out := Unanswered;
      if bid !in boundaries {
        return out, "unknown boundary";
      }
      var b := boundaries[bid];
      boundaries := boundaries - {bid};
      if b.action.Unanswered? {
        return out, "snapshot timeout";
      }
      return b.action, "";
    }

    method AttachUnionState(tid: nat, unionState: string, fsCommit: Hash) returns (error: string)
      modifies this`templates
      ensures Outcome(S(), error) == SupervisorState.AttachUnionState(old(S()), tid, unionState, fsCommit)
    {
      if tid !in templates {
        return "unknown template";
      }
      var t := templates[tid];
      t := t.(unionState := unionState);
      t := t.(fsCommit := fsCommit);
      t := t.(published := true);
      t := t.(publishError := "");
      templates := templates[tid := t];
      error := "";
    }

    method FailTemplatePublish(tid: nat, message: string) returns (error: string)
      modifies this`templates
      ensures Outcome(S(), error) == SupervisorState.FailTemplatePublish(old(S()), tid, message)
    {
      if tid !in templates {
        return "unknown template";
      }
      templates := templates[tid := templates[tid].(publishError := message)];
      error := "";
    }

    method TemplateReady(rid: string, token: string, tid: nat, pid: int, pgid: int, generation: nat) returns (error: string)
      modifies this`templates
      ensures Outcome(S(), error) == SupervisorState.TemplateReady(old(S()), rid, token, tid, pid, pgid, generation)
    {
      if tid !in templates {
        return "unknown template";
      }
      var t := templates[tid];
      if rid != "" && t.runtime != rid {
        return "template runtime mismatch";
      }
      if t.runtime !in runtimes {
        return "unknown runtime";
      }
      if runtimes[t.runtime].token == "" || token != runtimes[t.runtime].token {
        return "invalid control token";
      }
      t := t.(pid := pid, pgid := pgid);
      t := t.(generation := generation);
      t := t.(ready := true);
      templates := templates[tid := t];
      error := "";
    }

    // ---- restores --------------------------------------------------------------------

    /** freezeOk is the process controller's answer for the active group. */
    method BeginRestore(rid: string, tid: nat, target: nat, freezeOk: bool) returns (error: string)
      modifies this`runtimes, this`templates
      ensures Outcome(S(), error) == SupervisorState.BeginRestore(old(S()), rid, tid, target, freezeOk)
    {
      if rid !in runtimes {
        return "unknown runtime";
      }
      var r := runtimes[rid];
      if tid !in templates {
        return "unknown template";
      }
      var t := templates[tid];
      if t.runtime != rid {
        return "unknown template";
      }
      if r.active > 0 {
        if !freezeOk {
          return "freeze failed";
        }
      }
      r := r.(hasPendingRestore := true);
      r := r.(restoreTemplate := tid);
      r := r.(restoreTarget := target);
      r := r.(generationReady := false);
      r := r.(retirePgid := 0);
      runtimes := runtimes[rid := r];
      t := t.(restorePending := true);
      t := t.(restoreReleased := false);
      t := t.(restoreInFlight := false);
      t := t.(target := target);
      templates := templates[tid := t];
      error := "";
    }

    method PublishRestore(rid: string) returns (error: string)
      modifies this`templates
      ensures Outcome(S(), error) == SupervisorState.PublishRestore(old(S()), rid)
    {
      if rid !in runtimes {
        return "unknown runtime";
      }
      var r := runtimes[rid];
      if !r.hasPendingRestore || r.restoreTemplate == 0 {
        return "no pending restore";
      }
      if r.restoreTemplate !in templates {
        return "unknown template";
      }
      var t := templates[r.restoreTemplate];
      if !t.restorePending || t.runtime != rid {
        return "no pending restore";
      }
      templates := templates[r.restoreTemplate := t.(restoreReleased := true)];
      error := "";
    }

    /**
     * Under the lock the intent is withdrawn; then the active group is resumed, and a
     * group that cannot be resumed is reported but does not fail the call.
     */
    method AbortRestore(rid: string, resume: Signalled) returns (ok: bool, frozenPgid: int, error: string)
      modifies this`runtimes, this`templates
      ensures S() == SupervisorState.AbortRestore(old(S()), rid).s && ok == (rid in old(runtimes))
      ensures !ok ==> error == "unknown runtime"
      ensures ok ==> rid in runtimes && frozenPgid == runtimes[rid].active
      ensures ok ==> error == Report(frozenPgid, resume, "resume failed: ", "unknown resume error")
    {
      frozenPgid := 0;
      if rid !in runtimes {
        return false, 0, "unknown runtime";
      }
      var r := runtimes[rid];
      frozenPgid := r.active;
      r := r.(hasPendingRestore := false);
      r := r.(generationReady := false);
      if r.restoreTemplate != 0 {
        if r.restoreTemplate in templates {
          var t := templates[r.restoreTemplate];
          t := t.(restorePending := false, restoreReleased := false, restoreInFlight := false);
          t := t.(target := 0);
          templates := templates[r.restoreTemplate := t];
        }
        r := r.(restoreTemplate := 0);
      }
      r := r.(restoreTarget := 0);
      runtimes := runtimes[rid := r];
      ok, error := true, "";
      if frozenPgid > 0 {
        if !resume.ok {
          var message := if resume.message == "" then "unknown resume error" else resume.message;
          error := "resume failed: " + message;
        }
      }
    }

    method TemplatePoll(tid: nat, token: string) returns (out: TemplateAction, error: string)
      modifies this`templates
      ensures Outcome(S(), error) == SupervisorState.TemplatePoll(old(S()), tid, token)
      ensures error == "" ==> PollAllowed(old(S()), tid, token) && out == PollAction(old(S()), tid)
    {
      out := Wait;
      if tid !in templates {
        return out, "unknown template";
      }
      var t := templates[tid];
      if t.runtime !in runtimes {
        return out, "unknown runtime";
      }
      if runtimes[t.runtime].token == "" || token != runtimes[t.runtime].token {
        return out, "invalid control token";
      }
      if t.dropped {
        templates := templates - {tid};
        return Drop, "";
      }
      if t.restorePending && t.restoreReleased && !t.restoreInFlight {
        out := Restore(t.target);
        templates := templates[tid := t.(restoreInFlight := true)];
      }
      error := "";
    }

    method GenerationReady(rid: string, token: string, pid: int, pgid: int, generation: nat) returns (error: string)
      modifies this`runtimes, this`templates
      ensures Outcome(S(), error) == SupervisorState.GenerationReady(old(S()), rid, token, pid, pgid, generation)
    {
      if rid !in runtimes {
        return "unknown runtime";
      }
      var r := runtimes[rid];
      if r.token == "" || token != r.token {
        return "invalid control token";
      }
      if !r.hasPendingRestore || r.restoreTarget != generation {
        return "restore aborted or stale";
      }
      r := r.(retirePgid := r.active);
      r := r.(rootPid := pid, active := pgid);
      r := r.(generation := generation);
      r := r.(generationReady := true, hasPendingRestore := false);
      if r.restoreTemplate != 0 {
        if r.restoreTemplate in templates {
          var t := templates[r.restoreTemplate];
          t := t.(restorePending := false, restoreReleased := false, restoreInFlight := false);
          templates := templates[r.restoreTemplate := t];
        }
        r := r.(restoreTemplate := 0);
      }
      runtimes := runtimes[rid := r];
      error := "";
    }

    /**
     * Under the lock the stashed group is taken out; then it is terminated, and a group
     * that cannot be terminated is reported but does not fail the call.
     */
    method RetirePendingGeneration(rid: string, terminate: Signalled) returns (ok: bool, priorPgid: int, error: string)
      modifies this`runtimes
      ensures S() == RetirePending(old(S()), rid).s && ok == (rid in old(runtimes))
      ensures !ok ==> error == "unknown runtime"
      ensures ok ==> priorPgid == old(runtimes)[rid].retirePgid
      ensures ok ==> error == Report(priorPgid, terminate, "terminate failed: ", "unknown terminate error")
    {
      priorPgid := 0;
      if rid !in runtimes {
        return false, 0, "unknown runtime";
      }
      priorPgid := runtimes[rid].retirePgid;
      runtimes := runtimes[rid := runtimes[rid].(retirePgid := 0)];
      ok, error := true, "";
      if priorPgid > 0 {
        if !terminate.ok {
          var message := if terminate.message == "" then "unknown terminate error" else terminate.message;
          error := "terminate failed: " + message;
        }
      }
    }

    method DropTemplate(tid: nat) returns (error: string)
      modifies this`runtimes, this`templates
      ensures Outcome(S(), error) == SupervisorState.DropTemplate(old(S()), tid)
    {
      if tid !in templates {
        return "unknown template";
      }
      var t := templates[tid];
      if t.runtime in runtimes {
        var r := runtimes[t.runtime];
        if r.hasPendingRestore && r.restoreTemplate == tid {
          return "template restore in progress";
        }
      }
      templates := templates[tid := t.(dropped := true)];
      if t.runtime in runtimes {
        var r := runtimes[t.runtime];
        r := r.(templateIds := Without(r.templateIds, tid));
        if r.pendingTemplate == tid {
          r := r.(pendingTemplate := 0);
        }
        runtimes := runtimes[t.runtime := r];
      }
      error := "";
    }
  }
}
