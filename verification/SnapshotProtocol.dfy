/**
 * Snapshots as several clients drive them at once (src/cas/runtime_supervisor.cpp): a
 * requester begins and cancels, the runtime reports its boundary and waits there, and
 * the daemon answers it with a template or an error.  Each call is one locked section;
 * calls come in any order, with any arguments.
 */
module SnapshotProtocol {
  import opened CasTypes
  import opened SupervisorState

  datatype Call =
    | Begin(rid: string)
    | Cancel(rid: string)
    | Observe(rid: string, token: string, pid: int, generation: nat)
    | Release(bid: nat)
    | Refuse(bid: nat, message: string)
    | Consume(bid: nat)
    | Enroll(rid: string, rootPid: int, pgid: int, token: string)
    | Ready(rid: string, token: string, tid: nat, pid: int, pgid: int, generation: nat)
    | Attach(tid: nat, unionState: string, fsCommit: Hash)
    | FailPublish(tid: nat, message: string)
    | StartRestore(rid: string, tid: nat, target: nat, freezeOk: bool)
    | Publish(rid: string)
    | Abort(rid: string)
    | Poll(tid: nat, token: string)
    | Acknowledge(rid: string, token: string, pid: int, pgid: int, generation: nat)
    | Retire(rid: string)
    | DropOne(tid: nat)

  function Do(s: Sup, c: Call): Outcome {
    match c
    case Begin(rid) => BeginSnapshot(s, rid)
    case Cancel(rid) => CancelSnapshot(s, rid)
    case Observe(rid, token, pid, generation) => ObserveBoundary(s, rid, token, pid, generation)
    case Release(bid) => ReleaseForSnapshot(s, bid)
    case Refuse(bid, message) => ReleaseWithError(s, bid, message)
    case Consume(bid) => ConsumeBoundary(s, bid)
    case Enroll(rid, rootPid, pgid, token) => Register(s, rid, rootPid, pgid, token)
    case Ready(rid, token, tid, pid, pgid, generation) => TemplateReady(s, rid, token, tid, pid, pgid, generation)
    case Attach(tid, unionState, fsCommit) => AttachUnionState(s, tid, unionState, fsCommit)
    case FailPublish(tid, message) => FailTemplatePublish(s, tid, message)
    case StartRestore(rid, tid, target, freezeOk) => BeginRestore(s, rid, tid, target, freezeOk)
    case Publish(rid) => PublishRestore(s, rid)
    case Abort(rid) => AbortRestore(s, rid)
    case Poll(tid, token) => TemplatePoll(s, tid, token)
    case Acknowledge(rid, token, pid, pgid, generation) => GenerationReady(s, rid, token, pid, pgid, generation)
    case Retire(rid) => RetirePending(s, rid)
    case DropOne(tid) => DropTemplate(s, tid)
  }

  /** What happened so far, by operation: boundaries observed, boundaries answered, templates made. */
  datatype World = World(s: Sup, observed: multiset<nat>, answered: multiset<nat>, released: multiset<nat>)

  /** The boundary that a cancellation has to answer. */
  predicate Waits(s: Sup, rid: string) {
    rid in s.runtimes && s.runtimes[rid].boundaryObserved && s.runtimes[rid].pendingBoundary != 0 &&
    s.runtimes[rid].pendingBoundary in s.boundaries && s.boundaries[s.runtimes[rid].pendingBoundary].action.Unanswered?
  }

  function Once(happened: bool, op: nat): multiset<nat> {
    if happened then multiset{op} else multiset{}
  }

  function Apply(w: World, c: Call): World {
    var o := Do(w.s, c);
    match c
    case Observe(rid, _, _, _) =>
      World(o.s, w.observed + Once(o.Ok() && rid in w.s.runtimes, if rid in w.s.runtimes then w.s.runtimes[rid].pendingOp else 0),
            w.answered, w.released)
    case Release(bid) =>
      var made := Once(o.Ok() && bid in w.s.boundaries, if bid in w.s.boundaries then w.s.boundaries[bid].op else 0);
      World(o.s, w.observed, w.answered + made, w.released + made)
    case Refuse(bid, _) =>
      World(o.s, w.observed,
            w.answered + Once(o.Ok() && bid in w.s.boundaries, if bid in w.s.boundaries then w.s.boundaries[bid].op else 0), w.released)
    case Cancel(rid) =>
      World(o.s, w.observed,
            w.answered + Once(Waits(w.s, rid), if Waits(w.s, rid) then w.s.boundaries[w.s.runtimes[rid].pendingBoundary].op else 0),
            w.released)
    case _ => World(o.s, w.observed, w.answered, w.released)
  }

  // ---- the invariant ----------------------------------------------------------------------

  /**
   * A pending snapshot has an operation of its own, still without a boundary if none was
   * observed; a runtime's boundary is of that runtime.
   */
  predicate RuntimeOk(w: World, rid: string, r: Runtime) {
    && (r.hasPendingSnapshot ==>
          1 <= r.pendingOp <= w.s.opCounter && (!r.boundaryObserved ==> w.observed[r.pendingOp] == 0))
    && r.pendingBoundary <= w.s.boundaryCounter
    && (r.pendingBoundary in w.s.boundaries ==> w.s.boundaries[r.pendingBoundary].runtime == rid)
  }

  /** A boundary that waits is the one its runtime's pending snapshot observed. */
  predicate WaitsRightly(s: Sup, bid: nat, b: Boundary) {
    && b.runtime in s.runtimes
    && s.runtimes[b.runtime].hasPendingSnapshot && s.runtimes[b.runtime].boundaryObserved
    && s.runtimes[b.runtime].pendingBoundary == bid && s.runtimes[b.runtime].pendingOp == b.op
  }

  /** An answer names the boundary's own operation, and a template of its own runtime. */
  predicate AnsweredRightly(s: Sup, b: Boundary) {
    match b.action
    case Unanswered => true
    case Snapshot(op, tid) => op == b.op && tid <= s.templateCounter && (tid in s.templates ==> s.templates[tid].runtime == b.runtime)
    case Refused(op, _) => op == b.op
  }

  predicate BoundaryOk(w: World, bid: nat, b: Boundary) {
    && 1 <= bid <= w.s.boundaryCounter && w.observed[b.op] == 1
    && (b.action.Unanswered? ==> w.answered[b.op] == 0 && WaitsRightly(w.s, bid, b))
    && AnsweredRightly(w.s, b)
  }

  predicate CountsOk(w: World, op: nat) {
    && w.released[op] <= w.answered[op] <= w.observed[op] <= 1
    && (w.observed[op] == 1 ==> op <= w.s.opCounter)
  }

  ghost predicate Distinct(s: Sup) {
    && (forall rid, rid' | rid in s.runtimes && rid' in s.runtimes && rid != rid' ::
          s.runtimes[rid].hasPendingSnapshot && s.runtimes[rid'].hasPendingSnapshot ==>
          s.runtimes[rid].pendingOp != s.runtimes[rid'].pendingOp)
    && (forall bid, bid' | bid in s.boundaries && bid' in s.boundaries && bid != bid' ::
          s.boundaries[bid].op != s.boundaries[bid'].op)
  }

  ghost predicate Inv(w: World) {
    && (forall rid | rid in w.s.runtimes :: RuntimeOk(w, rid, w.s.runtimes[rid]))
    && (forall bid | bid in w.s.boundaries :: BoundaryOk(w, bid, w.s.boundaries[bid]))
    && (forall op: nat :: CountsOk(w, op))
    && (forall tid | tid in w.s.templates :: tid <= w.s.templateCounter)
    && Distinct(w.s)
  }

  // ---- calls outside a snapshot ------------------------------------------------------------

  predicate SameSnapshot(r: Runtime, r': Runtime) {
    && r'.hasPendingSnapshot == r.hasPendingSnapshot && r'.pendingOp == r.pendingOp
    && r'.pendingBoundary == r.pendingBoundary && r'.boundaryObserved == r.boundaryObserved
  }

  /** New runtimes have no snapshot, known ones keep theirs, and templates keep their runtime. */
  ghost predicate Inert(s: Sup, s': Sup) {
    && s'.boundaries == s.boundaries && s'.opCounter == s.opCounter
    && s'.boundaryCounter == s.boundaryCounter && s'.templateCounter == s.templateCounter
    && (forall rid | rid in s.runtimes :: rid in s'.runtimes && SameSnapshot(s.runtimes[rid], s'.runtimes[rid]))
    && (forall rid | rid in s'.runtimes && rid !in s.runtimes ::
          !s'.runtimes[rid].hasPendingSnapshot && s'.runtimes[rid].pendingBoundary == 0)
    && (forall tid | tid in s'.templates :: tid in s.templates && s'.templates[tid].runtime == s.templates[tid].runtime)
  }

  predicate Outside(c: Call) {
    !c.Begin? && !c.Cancel? && !c.Observe? && !c.Release? && !c.Refuse? && !c.Consume?
  }

  lemma ReadyCallsAreInert(s: Sup, c: Call)
    requires c.Ready? || c.Attach? || c.FailPublish?
    ensures Inert(s, Do(s, c).s)
  {}

  lemma PollIsInert(s: Sup, c: Call)
    requires c.Poll? || c.Publish?
    ensures Inert(s, Do(s, c).s)
  {}

  lemma DropIsInert(s: Sup, c: Call)
    requires c.DropOne? || c.Retire?
    ensures Inert(s, Do(s, c).s)
  {}

  lemma StartRestoreIsInert(s: Sup, c: Call)
    requires c.StartRestore?
    ensures Inert(s, Do(s, c).s)
  {}

  lemma AbortIsInert(s: Sup, c: Call)
    requires c.Abort? || c.Enroll?
    ensures Inert(s, Do(s, c).s)
  {}

  lemma AcknowledgeIsInert(s: Sup, c: Call)
    requires c.Acknowledge?
    ensures Inert(s, Do(s, c).s)
  {}

  lemma OutsideIsInert(s: Sup, c: Call)
    requires Outside(c)
    ensures Inert(s, Do(s, c).s)
  {
    if c.Ready? || c.Attach? || c.FailPublish? {
      ReadyCallsAreInert(s, c);
    } else if c.Poll? || c.Publish? {
      PollIsInert(s, c);
    } else if c.DropOne? || c.Retire? {
      DropIsInert(s, c);
    } else if c.StartRestore? {
      StartRestoreIsInert(s, c);
    } else if c.Abort? || c.Enroll? {
      AbortIsInert(s, c);
    } else {
      AcknowledgeIsInert(s, c);
    }
  }

  lemma InertKeepsInv(w: World, s': Sup)
    requires Inv(w) && Inert(w.s, s')
    ensures Inv(w.(s := s'))
  {
    var v := w.(s := s');
    forall rid | rid in s'.runtimes ensures RuntimeOk(v, rid, s'.runtimes[rid]) {
      if rid in w.s.runtimes {
        assert RuntimeOk(w, rid, w.s.runtimes[rid]);
      }
    }
    forall bid | bid in s'.boundaries ensures BoundaryOk(v, bid, s'.boundaries[bid]) {
      assert BoundaryOk(w, bid, w.s.boundaries[bid]);
    }
    forall op: nat ensures CountsOk(v, op) {
      assert CountsOk(w, op);
    }
  }

  // ---- the calls of a snapshot --------------------------------------------------------------

  lemma BeginKeepsInv(w: World, rid: string)
    requires Inv(w)
    ensures Inv(Apply(w, Begin(rid)))
  {
    var v := Apply(w, Begin(rid));
    assert CountsOk(w, w.s.opCounter + 1);
    forall x | x in v.s.runtimes ensures RuntimeOk(v, x, v.s.runtimes[x]) {
      assert RuntimeOk(w, x, w.s.runtimes[x]);
    }
    forall bid | bid in v.s.boundaries ensures BoundaryOk(v, bid, v.s.boundaries[bid]) {
      assert BoundaryOk(w, bid, w.s.boundaries[bid]);
    }
    forall op: nat ensures CountsOk(v, op) {
      assert CountsOk(w, op);
    }
  }

  lemma ObserveKeepsInv(w: World, rid: string, token: string, pid: int, generation: nat)
    requires Inv(w)
    ensures Inv(Apply(w, Observe(rid, token, pid, generation)))
  {
    var v := Apply(w, Observe(rid, token, pid, generation));
    if Do(w.s, Observe(rid, token, pid, generation)).Ok() {
      var op := w.s.runtimes[rid].pendingOp;
      assert RuntimeOk(w, rid, w.s.runtimes[rid]);
      assert CountsOk(w, op);
      forall x | x in v.s.runtimes ensures RuntimeOk(v, x, v.s.runtimes[x]) {
        assert RuntimeOk(w, x, w.s.runtimes[x]);
      }
      forall bid | bid in w.s.boundaries ensures BoundaryOk(v, bid, w.s.boundaries[bid]) && w.s.boundaries[bid].op != op {
        assert BoundaryOk(w, bid, w.s.boundaries[bid]);
      }
      forall x: nat ensures CountsOk(v, x) {
        assert CountsOk(w, x);
      }
    } else {
      assert v.s == w.s && v.observed == w.observed;
    }
  }

  /** Answering a waiting boundary, in any way, keeps everything about the others. */
  lemma AnswerKeepsBoundaries(w: World, v: World, bid: nat, op: nat)
    requires Inv(w) && bid in w.s.boundaries && w.s.boundaries[bid].action.Unanswered? && op == w.s.boundaries[bid].op
    requires v.answered == w.answered + multiset{op} && v.observed == w.observed
    requires v.s.boundaryCounter == w.s.boundaryCounter && v.s.templateCounter >= w.s.templateCounter
    requires v.s.boundaries.Keys == w.s.boundaries.Keys
    requires forall x | x in w.s.boundaries && x != bid :: v.s.boundaries[x] == w.s.boundaries[x]
    requires forall rid | rid in w.s.runtimes && rid != w.s.boundaries[bid].runtime ::
               rid in v.s.runtimes && SameSnapshot(w.s.runtimes[rid], v.s.runtimes[rid])
    requires forall tid | tid in v.s.templates && tid <= w.s.templateCounter ::
               tid in w.s.templates && v.s.templates[tid].runtime == w.s.templates[tid].runtime
    ensures forall x | x in v.s.boundaries && x != bid :: BoundaryOk(v, x, v.s.boundaries[x])
  {
    assert BoundaryOk(w, bid, w.s.boundaries[bid]);
    forall x | x in v.s.boundaries && x != bid ensures BoundaryOk(v, x, v.s.boundaries[x]) {
      assert BoundaryOk(w, x, w.s.boundaries[x]);
      assert w.s.boundaries[x].op != op;
    }
  }

  lemma ReleaseKeepsInv(w: World, bid: nat)
    requires Inv(w)
    ensures Inv(Apply(w, Release(bid)))
  {
    var v := Apply(w, Release(bid));
    if Do(w.s, Release(bid)).Ok() {
      var op := w.s.boundaries[bid].op;
      assert BoundaryOk(w, bid, w.s.boundaries[bid]);
      AnswerKeepsBoundaries(w, v, bid, op);
      AnsweredCounts(w, v, op);
      forall x | x in v.s.runtimes ensures RuntimeOk(v, x, v.s.runtimes[x]) {
        assert RuntimeOk(w, x, w.s.runtimes[x]);
      }
    } else {
      assert v.s == w.s && v.answered == w.answered && v.released == w.released;
    }
  }

  /** One more answer, and perhaps one more template, for an operation that had none. */
  lemma AnsweredCounts(w: World, v: World, op: nat)
    requires (forall x: nat :: CountsOk(w, x)) && w.observed[op] == 1 && w.answered[op] == 0
    requires v.observed == w.observed && v.answered == w.answered + multiset{op} && v.s.opCounter == w.s.opCounter
    requires v.released == w.released || v.released == w.released + multiset{op}
    ensures forall x: nat :: CountsOk(v, x)
  {
    forall x: nat ensures CountsOk(v, x) {
      assert CountsOk(w, x);
    }
  }

  lemma RefuseKeepsInv(w: World, bid: nat, message: string)
    requires Inv(w)
    ensures Inv(Apply(w, Refuse(bid, message)))
  {
    var v := Apply(w, Refuse(bid, message));
    if Do(w.s, Refuse(bid, message)).Ok() {
      var op := w.s.boundaries[bid].op;
      assert BoundaryOk(w, bid, w.s.boundaries[bid]);
      AnswerKeepsBoundaries(w, v, bid, op);
      AnsweredCounts(w, v, op);
      forall x | x in v.s.runtimes ensures RuntimeOk(v, x, v.s.runtimes[x]) {
        assert RuntimeOk(w, x, w.s.runtimes[x]);
      }
    } else {
      assert v.s == w.s && v.answered == w.answered;
    }
  }

  lemma CancelKeepsInv(w: World, rid: string)
    requires Inv(w)
    ensures Inv(Apply(w, Cancel(rid)))
  {
    var v := Apply(w, Cancel(rid));
    if rid !in w.s.runtimes {
      assert v.s == w.s && v.answered == w.answered;
    } else if Waits(w.s, rid) {
      CancelAnswers(w, rid);
    } else {
      forall x | x in v.s.runtimes ensures RuntimeOk(v, x, v.s.runtimes[x]) {
        assert RuntimeOk(w, x, w.s.runtimes[x]);
      }
      forall bid | bid in v.s.boundaries ensures BoundaryOk(v, bid, v.s.boundaries[bid]) {
        assert BoundaryOk(w, bid, w.s.boundaries[bid]);
      }
      assert v.answered == w.answered;
      forall op: nat ensures CountsOk(v, op) {
        assert CountsOk(w, op);
      }
    }
  }

  lemma CancelAnswers(w: World, rid: string)
    requires Inv(w) && Waits(w.s, rid)
    ensures Inv(Apply(w, Cancel(rid)))
  {
    var v := Apply(w, Cancel(rid));
    var bid := w.s.runtimes[rid].pendingBoundary;
    var op := w.s.boundaries[bid].op;
    assert BoundaryOk(w, bid, w.s.boundaries[bid]);
    CancelledIsItsOwn(w, rid);
    AnswerKeepsBoundaries(w, v, bid, op);
    AnsweredCounts(w, v, op);
    forall x | x in v.s.runtimes ensures RuntimeOk(v, x, v.s.runtimes[x]) {
      assert RuntimeOk(w, x, w.s.runtimes[x]);
    }
  }

  /** A boundary that a runtime still waits for is of that runtime. */
  lemma CancelledIsItsOwn(w: World, rid: string)
    requires Inv(w) && Waits(w.s, rid)
    ensures w.s.boundaries[w.s.runtimes[rid].pendingBoundary].runtime == rid
  {
    assert RuntimeOk(w, rid, w.s.runtimes[rid]);
  }

  lemma ConsumeKeepsInv(w: World, bid: nat)
    requires Inv(w)
    ensures Inv(Apply(w, Consume(bid)))
  {
    var v := Apply(w, Consume(bid));
    forall x | x in v.s.runtimes ensures RuntimeOk(v, x, v.s.runtimes[x]) {
      assert RuntimeOk(w, x, w.s.runtimes[x]);
    }
    forall x | x in v.s.boundaries ensures BoundaryOk(v, x, v.s.boundaries[x]) {
      assert BoundaryOk(w, x, w.s.boundaries[x]);
    }
    forall op: nat ensures CountsOk(v, op) {
      assert CountsOk(w, op);
    }
  }

  lemma StepKeepsInv(w: World, c: Call)
    requires Inv(w)
    ensures Inv(Apply(w, c))
  {
    match c
    case Begin(rid) => BeginKeepsInv(w, rid);
    case Cancel(rid) => CancelKeepsInv(w, rid);
    case Observe(rid, token, pid, generation) => ObserveKeepsInv(w, rid, token, pid, generation);
    case Release(bid) => ReleaseKeepsInv(w, bid);
    case Refuse(bid, message) => RefuseKeepsInv(w, bid, message);
    case Consume(bid) => ConsumeKeepsInv(w, bid);
    case _ =>
      OutsideIsInert(w.s, c);
      InertKeepsInv(w, Do(w.s, c).s);
      assert Apply(w, c) == w.(s := Do(w.s, c).s);
  }

  // ---- over whole runs ------------------------------------------------------------------------

  function After(w: World, run: seq<Call>): World
    decreases |run|
  {
    if run == [] then w else After(Apply(w, run[0]), run[1..])
  }

  function Fresh(): World {
    World(Sup(map[], map[], map[], 0, 0, 0), multiset{}, multiset{}, multiset{})
  }

  lemma {:induction false} RunsKeepInv(w: World, run: seq<Call>)
    requires Inv(w)
    ensures Inv(After(w, run))
    decreases |run|
  {
    if run != [] {
      StepKeepsInv(w, run[0]);
      RunsKeepInv(Apply(w, run[0]), run[1..]);
    }
  }

  lemma FreshIsFine()
    ensures Inv(Fresh())
  {
    forall op: nat ensures CountsOk(Fresh(), op) {}
  }

  /**
   * In every run each snapshot operation is observed at one boundary at most, answered
   * once at most and given one template at most, each only after the one before.
   */
  lemma EachSnapshotIsAnsweredOnce(run: seq<Call>, op: nat)
    ensures var v := After(Fresh(), run); v.released[op] <= v.answered[op] <= v.observed[op] <= 1
  {
    FreshIsFine();
    RunsKeepInv(Fresh(), run);
    assert CountsOk(After(Fresh(), run), op);
  }

  /** In every run an answered boundary is told its own operation, and a template of its own runtime. */
  lemma AnswersAreTheirOwn(run: seq<Call>, bid: nat)
    requires bid in After(Fresh(), run).s.boundaries
    ensures AnsweredRightly(After(Fresh(), run).s, After(Fresh(), run).s.boundaries[bid])
  {
    FreshIsFine();
    RunsKeepInv(Fresh(), run);
    var v := After(Fresh(), run);
    assert BoundaryOk(v, bid, v.s.boundaries[bid]);
  }

  /** In every run a snapshot that is no longer pending, cancelled or refused, leaves no boundary waiting. */
  lemma NoBoundaryIsForgotten(run: seq<Call>, bid: nat)
    requires bid in After(Fresh(), run).s.boundaries && After(Fresh(), run).s.boundaries[bid].action.Unanswered?
    ensures WaitsRightly(After(Fresh(), run).s, bid, After(Fresh(), run).s.boundaries[bid])
  {
    FreshIsFine();
    RunsKeepInv(Fresh(), run);
    var v := After(Fresh(), run);
    assert BoundaryOk(v, bid, v.s.boundaries[bid]);
  }
}
