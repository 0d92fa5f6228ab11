/**
 * Restores as the daemon drives them (src/cas/daemon.cpp), against everything the
 * runtime processes and other clients may do meanwhile (src/cas/runtime_supervisor.cpp).
 * One mutex serializes the drivers; each step below is atomic.
 */
module RestoreProtocol {
  import opened CasTypes
  import opened SupervisorState

  datatype GroupState = Running | Frozen | Dead

  /** Where the one restore driver stands. */
  datatype Driver =
    | Idle
    | Began(rid: string)
    | RolledBack(rid: string)
    | Waiting(rid: string)
    | Recovering(rid: string)
    | Aborting(rid: string)
    | Resuming(rid: string, group: int)
    | Retiring(rid: string)
    | Killing(rid: string, group: int)

  /** Who acknowledges: the grandchild that some hand-off made, or any other process with the token. */
  datatype Sender = Nobody | Grandchild(epoch: nat) | Stranger

  /** What became of one successful begin_restore; `ackBy` is who sent the acknowledgement it accepted. */
  datatype Epoch = Epoch(runtime: string, template: nat, target: nat, rolledBack: bool, handOffs: nat, accepted: nat, ackBy: Sender)

  datatype World = World(
    s: Sup,
    groups: map<int, GroupState>,
    owner: map<int, string>,          // every group that was ever active, and its runtime
    stuck: set<int>,                  // groups whose resumption failed
    driver: Driver,
    epochs: seq<Epoch>,
    byTemplate: map<nat, nat>,        // the last begin_restore on a template, on a runtime
    byRuntime: map<string, nat>,
    strays: nat)                      // hand-offs or acknowledgements that belong to no begin_restore

  /** Calls that never touch a restore. */
  datatype Call =
    | CallBeginSnapshot(rid: string)
    | CallCancelSnapshot(rid: string)
    | CallObserve(rid: string, token: string, pid: int, generation: nat)
    | CallRelease(bid: nat)
    | CallRefuse(bid: nat, message: string)
    | CallConsume(bid: nat)
    | CallTemplateReady(rid: string, token: string, tid: nat, pid: int, pgid: int, generation: nat)
    | CallAttach(tid: nat, unionState: string, fsCommit: Hash)
    | CallFailPublish(tid: nat, message: string)
    | CallDrop(tid: nat)

  datatype Action =
    | Other(call: Call)
    | DoRegister(rid: string, rootPid: int, pgid: int, token: string)
    | Poll(tid: nat, token: string)
    | Ready(sender: Sender, rid: string, token: string, pid: int, pgid: int, generation: nat)
    | Die(group: int)
    | Begin(rid: string, tid: nat, target: nat, freezeOk: bool)
    | Rollback(ok: bool)
    | Publish
    | SeeReady
    | TimeOut
    | Recover
    | Abort
    | Resume(ok: bool)
    | Retire
    | Kill(ok: bool)

  function Answer(s: Sup, c: Call): Outcome {
    match c
    case CallBeginSnapshot(rid) => BeginSnapshot(s, rid)
    case CallCancelSnapshot(rid) => CancelSnapshot(s, rid)
    case CallObserve(rid, token, pid, generation) => ObserveBoundary(s, rid, token, pid, generation)
    case CallRelease(bid) => ReleaseForSnapshot(s, bid)
    case CallRefuse(bid, message) => ReleaseWithError(s, bid, message)
    case CallConsume(bid) => ConsumeBoundary(s, bid)
    case CallTemplateReady(rid, token, tid, pid, pgid, generation) => TemplateReady(s, rid, token, tid, pid, pgid, generation)
    case CallAttach(tid, unionState, fsCommit) => AttachUnionState(s, tid, unionState, fsCommit)
    case CallFailPublish(tid, message) => FailTemplatePublish(s, tid, message)
    case CallDrop(tid) => DropTemplate(s, tid)
  }

  // ---- steps ---------------------------------------------------------------------------

  /** A group id that no runtime has been active under; 0 and below name no group. */
  predicate Fresh(w: World, pgid: int) {
    pgid <= 0 || pgid !in w.owner
  }

  /** A grandchild was handed off, and asks for the runtime and the target it was handed. */
  predicate Sends(w: World, sender: Sender, rid: string, generation: nat) {
    match sender
    case Nobody => false
    case Stranger => true
    case Grandchild(e) =>
      e < |w.epochs| && w.epochs[e].handOffs > 0 && w.epochs[e].runtime == rid && w.epochs[e].target == generation
  }

  predicate Enabled(w: World, a: Action) {
    match a
    case Other(_) => true
    case DoRegister(_, _, pgid, _) => Fresh(w, pgid)
    case Poll(_, _) => true
    case Ready(sender, rid, _, _, pgid, generation) => Fresh(w, pgid) && Sends(w, sender, rid, generation)
    case Die(_) => true
    case Begin(_, _, _, _) => w.driver.Idle?
    case Rollback(_) => w.driver.Began?
    case Publish => w.driver.RolledBack?
    case SeeReady => w.driver.Waiting? && w.driver.rid in w.s.runtimes && w.s.runtimes[w.driver.rid].generationReady
    case TimeOut => w.driver.Waiting?
    case Recover => w.driver.Recovering?
    case Abort => w.driver.Aborting?
    case Resume(_) => w.driver.Resuming?
    case Retire => w.driver.Retiring?
    case Kill(_) => w.driver.Killing?
  }

  function Apply(w: World, a: Action): World
    requires Enabled(w, a)
  {
    match a
    case Other(c) => w.(s := Answer(w.s, c).s)
    case DoRegister(rid, rootPid, pgid, token) => DidRegister(w, rid, rootPid, pgid, token)
    case Poll(tid, token) => DidPoll(w, tid, token)
    case Ready(sender, rid, token, pid, pgid, generation) => DidReady(w, sender, rid, token, pid, pgid, generation)
    case Die(g) => if g in w.groups then w.(groups := w.groups[g := Dead]) else w
    case Begin(rid, tid, target, freezeOk) => DidBegin(w, rid, tid, target, freezeOk)
    case Rollback(ok) => DidRollback(w, ok)
    case Publish =>
      var o := PublishRestore(w.s, w.driver.rid);
      w.(s := o.s, driver := if o.Ok() then Waiting(w.driver.rid) else Recovering(w.driver.rid))
    case SeeReady => w.(driver := Retiring(w.driver.rid))
    case TimeOut => w.(driver := Recovering(w.driver.rid))
    case Recover => w.(driver := Aborting(w.driver.rid))
    case Abort => DidAbort(w, w.driver.rid)
    case Resume(ok) => DidResume(w, ok)
    case Retire => DidRetire(w, w.driver.rid)
    case Kill(ok) =>
      var g := w.driver.group;
      w.(driver := Idle, groups := if ok && g > 0 && g in w.groups then w.groups[g := Dead] else w.groups)
  }

  function Activate(w: World, rid: string, pgid: int): World {
    if pgid > 0 then w.(groups := w.groups[pgid := Running], owner := w.owner[pgid := rid]) else w
  }

  function DidRegister(w: World, rid: string, rootPid: int, pgid: int, token: string): World {
    var o := Register(w.s, rid, rootPid, pgid, token);
    if o.Ok() then Activate(w.(s := o.s), rid, pgid) else w
  }

  function Stop(groups: map<int, GroupState>, g: int): map<int, GroupState> {
    if g in groups && groups[g].Running? then groups[g := Frozen] else groups
  }

  function DidBegin(w: World, rid: string, tid: nat, target: nat, freezeOk: bool): World {
    var o := BeginRestore(w.s, rid, tid, target, freezeOk);
    if !o.Ok() || rid !in w.s.runtimes then w
    else
      var n := |w.epochs|;
      w.(s := o.s, groups := Stop(w.groups, w.s.runtimes[rid].active), driver := Began(rid),
         epochs := w.epochs + [Epoch(rid, tid, target, false, 0, 0, Nobody)],
         byTemplate := w.byTemplate[tid := n], byRuntime := w.byRuntime[rid := n])
  }

  function Last(w: World): nat
    requires w.epochs != []
  {
    |w.epochs| - 1
  }

  function DidRollback(w: World, ok: bool): World
    requires w.driver.Began?
  {
    if ok && w.epochs != [] then
      w.(driver := RolledBack(w.driver.rid), epochs := w.epochs[Last(w) := w.epochs[Last(w)].(rolledBack := true)])
    else w.(driver := Aborting(w.driver.rid))
  }

  function CountHandOff(w: World, tid: nat): World {
    if tid in w.byTemplate && w.byTemplate[tid] < |w.epochs| then
      var e := w.byTemplate[tid];
      w.(epochs := w.epochs[e := w.epochs[e].(handOffs := w.epochs[e].handOffs + 1)])
    else w.(strays := w.strays + 1)
  }

  function CountAccepted(w: World, rid: string, sender: Sender): World {
    if rid in w.byRuntime && w.byRuntime[rid] < |w.epochs| then
      var e := w.byRuntime[rid];
      w.(epochs := w.epochs[e := w.epochs[e].(accepted := w.epochs[e].accepted + 1, ackBy := sender)])
    else w.(strays := w.strays + 1)
  }

  function DidPoll(w: World, tid: nat, token: string): World {
    var w' := w.(s := TemplatePoll(w.s, tid, token).s);
    if PollAllowed(w.s, tid, token) && PollAction(w.s, tid).Restore? then CountHandOff(w', tid) else w'
  }

  function DidReady(w: World, sender: Sender, rid: string, token: string, pid: int, pgid: int, generation: nat): World {
    var o := GenerationReady(w.s, rid, token, pid, pgid, generation);
    if o.Ok() then CountAccepted(Activate(w.(s := o.s), rid, pgid), rid, sender) else w
  }

  function DidAbort(w: World, rid: string): World {
    if rid in w.s.runtimes then w.(s := AbortRestore(w.s, rid).s, driver := Resuming(rid, w.s.runtimes[rid].active))
    else w.(driver := Idle)
  }

  function DidRetire(w: World, rid: string): World {
    if rid in w.s.runtimes then w.(s := RetirePending(w.s, rid).s, driver := Killing(rid, w.s.runtimes[rid].retirePgid))
    else w.(driver := Aborting(rid))
  }

  function DidResume(w: World, ok: bool): World
    requires w.driver.Resuming?
  {
    var g := w.driver.group;
    if g <= 0 || g !in w.groups then w.(driver := Idle)
    else if !ok then w.(driver := Idle, stuck := w.stuck + {g})
    else w.(driver := Idle, groups := if w.groups[g].Frozen? then w.groups[g := Running] else w.groups)
  }

  // ---- the invariant -----------------------------------------------------------------------

  /** Between begin_restore and abort_restore. */
  predicate Engaged(d: Driver, rid: string) {
    (d.Began? || d.RolledBack? || d.Waiting? || d.Recovering? || d.Aborting?) && d.rid == rid
  }

  predicate Quiet(w: World, g: int) {
    g > 0 ==> g in w.groups && !w.groups[g].Running?
  }

  predicate OwnedBy(w: World, g: int, rid: string) {
    g > 0 ==> g in w.owner && w.owner[g] == rid && g in w.groups
  }

  /** A pending restore has a driver, a stopped group and an epoch without acknowledgement. */
  predicate RuntimeOk(w: World, rid: string, r: Runtime) {
    && OwnedBy(w, r.active, rid) && OwnedBy(w, r.retirePgid, rid)
    && (r.retirePgid > 0 ==> r.retirePgid != r.active)
    && (r.hasPendingRestore ==>
          && Engaged(w.driver, rid) && Quiet(w, r.active)
          && w.epochs != [] && rid in w.byRuntime && w.byRuntime[rid] == Last(w) && w.epochs[Last(w)].accepted == 0
          && w.epochs[Last(w)].runtime == rid && w.epochs[Last(w)].target == r.restoreTarget)
    && (r.active > 0 && w.groups[r.active].Frozen? ==>
          !r.generationReady && (r.active in w.stuck || Engaged(w.driver, rid) || w.driver == Resuming(rid, r.active)))
    && (r.generationReady ==> !r.hasPendingRestore)
  }

  /** A pending intent is the one of its runtime's pending restore, not yet handed off twice. */
  predicate TemplateOk(w: World, tid: nat, t: Template) {
    t.restorePending ==>
      && tid != 0 && t.runtime in w.s.runtimes
      && w.s.runtimes[t.runtime].hasPendingRestore && w.s.runtimes[t.runtime].restoreTemplate == tid
      && w.epochs != [] && tid in w.byTemplate && w.byTemplate[tid] == Last(w)
      && w.epochs[Last(w)].target == t.target
      && (!t.restoreInFlight ==> w.epochs[Last(w)].handOffs == 0)
      && (t.restoreReleased ==> w.epochs[Last(w)].rolledBack)
  }

  predicate EpochOk(e: Epoch) {
    e.handOffs <= 1 && e.accepted <= 1 && (e.handOffs > 0 ==> e.rolledBack) && (e.accepted == 0 <==> e.ackBy.Nobody?)
  }

  /** A grandchild's acknowledgement is of a restore of the same runtime to the same target, this one or one before. */
  predicate AckOk(epochs: seq<Epoch>, i: nat)
    requires i < |epochs|
  {
    epochs[i].ackBy.Grandchild? ==>
      && epochs[i].ackBy.epoch <= i && epochs[epochs[i].ackBy.epoch].handOffs > 0
      && epochs[epochs[i].ackBy.epoch].runtime == epochs[i].runtime && epochs[epochs[i].ackBy.epoch].target == epochs[i].target
  }

  predicate DriverOk(w: World) {
    match w.driver
    case RolledBack(_) => w.epochs != [] && w.epochs[Last(w)].rolledBack
    case Resuming(rid, g) => rid in w.s.runtimes && w.s.runtimes[rid].active == g
    case Killing(rid, g) => rid in w.s.runtimes && OwnedBy(w, g, rid) && (g > 0 ==> w.s.runtimes[rid].active != g)
    case _ => true
  }

  /** Of all groups a runtime was ever active under, only the present one may run. */
  predicate GroupOk(w: World, g: int)
    requires g in w.owner
  {
    && g > 0 && g in w.groups && w.owner[g] in w.s.runtimes
    && (w.s.runtimes[w.owner[g]].active != g ==> !w.groups[g].Running?)
  }

  ghost predicate RuntimesOk(w: World) {
    forall rid | rid in w.s.runtimes :: RuntimeOk(w, rid, w.s.runtimes[rid])
  }

  ghost predicate TemplatesOk(w: World) {
    forall tid | tid in w.s.templates :: TemplateOk(w, tid, w.s.templates[tid])
  }

  ghost predicate GroupsOk(w: World) {
    forall g | g in w.owner :: GroupOk(w, g)
  }

  ghost predicate EpochsOk(w: World) {
    (forall i :: 0 <= i < |w.epochs| ==> EpochOk(w.epochs[i]) && AckOk(w.epochs, i)) && w.strays == 0
  }

  ghost predicate Inv(w: World) {
    RuntimesOk(w) && TemplatesOk(w) && GroupsOk(w) && EpochsOk(w) && DriverOk(w) && 0 !in w.s.templates
  }

  ghost predicate Init(w: World) {
    w.s.runtimes == map[] && w.s.templates == map[] && w.owner == map[] && w.driver.Idle? && w.epochs == [] && w.strays == 0
  }

  // ---- frames -------------------------------------------------------------------------------

  predicate SameRuntime(r: Runtime, r': Runtime) {
    && r'.active == r.active && r'.retirePgid == r.retirePgid && r'.hasPendingRestore == r.hasPendingRestore
    && r'.restoreTemplate == r.restoreTemplate && r'.restoreTarget == r.restoreTarget && r'.generationReady == r.generationReady
  }

  predicate SamePending(r: Runtime, r': Runtime) {
    r'.hasPendingRestore == r.hasPendingRestore && r'.restoreTemplate == r.restoreTemplate && r'.restoreTarget == r.restoreTarget
  }

  predicate SameIntent(t: Template, t': Template) {
    && t'.runtime == t.runtime && t'.restorePending == t.restorePending && t'.target == t.target
    && t'.restoreReleased == t.restoreReleased && t'.restoreInFlight == t.restoreInFlight
  }

  /** Groups only slow down, and active groups stay active. */
  lemma GroupsKept(w: World, w': World)
    requires GroupsOk(w) && w'.owner == w.owner && w.groups.Keys <= w'.groups.Keys
    requires forall g | g in w.groups :: w'.groups[g].Running? ==> w.groups[g].Running?
    requires forall rid | rid in w.s.runtimes :: rid in w'.s.runtimes && w'.s.runtimes[rid].active == w.s.runtimes[rid].active
    ensures GroupsOk(w')
  {
    forall g | g in w'.owner ensures GroupOk(w', g) {
      assert GroupOk(w, g);
    }
  }

  /** What is still pending was pending before, under the same runtime record. */
  ghost predicate IntentsFrom(s: Sup, s': Sup) {
    forall tid | tid in s'.templates && s'.templates[tid].restorePending ::
      && tid in s.templates && SameIntent(s.templates[tid], s'.templates[tid])
      && (s.templates[tid].runtime in s.runtimes ==>
            && s.templates[tid].runtime in s'.runtimes
            && SamePending(s.runtimes[s.templates[tid].runtime], s'.runtimes[s.templates[tid].runtime]))
  }

  lemma TemplatesKept(w: World, w': World)
    requires TemplatesOk(w) && IntentsFrom(w.s, w'.s) && w'.epochs == w.epochs && w'.byTemplate == w.byTemplate
    ensures TemplatesOk(w')
  {
    forall tid | tid in w'.s.templates ensures TemplateOk(w', tid, w'.s.templates[tid]) {
      if w'.s.templates[tid].restorePending {
        assert TemplateOk(w, tid, w.s.templates[tid]);
      }
    }
  }

  /** Everything a runtime's condition depends on, apart from its own record. */
  ghost predicate SameSurroundings(w: World, w': World) {
    && w'.groups == w.groups && w'.owner == w.owner && w'.stuck == w.stuck
    && w'.epochs == w.epochs && w'.byRuntime == w.byRuntime && w'.driver == w.driver
  }

  lemma RuntimesKept(w: World, w': World)
    requires RuntimesOk(w) && SameSurroundings(w, w') && w'.s.runtimes.Keys == w.s.runtimes.Keys
    requires forall rid | rid in w.s.runtimes :: SameRuntime(w.s.runtimes[rid], w'.s.runtimes[rid])
    ensures RuntimesOk(w')
  {
    forall rid | rid in w'.s.runtimes ensures RuntimeOk(w', rid, w'.s.runtimes[rid]) {
      assert RuntimeOk(w, rid, w.s.runtimes[rid]);
    }
  }

  // ---- calls that do not touch restores ------------------------------------------------------

  ghost predicate SameRestores(s: Sup, s': Sup) {
    && s'.runtimes.Keys == s.runtimes.Keys && 0 !in s'.templates
    && (forall rid | rid in s.runtimes :: SameRuntime(s.runtimes[rid], s'.runtimes[rid]))
    && (forall tid | tid in s'.templates ::
          (tid in s.templates && SameIntent(s.templates[tid], s'.templates[tid])) || !s'.templates[tid].restorePending)
  }

  lemma SnapshotCallsAreInert(s: Sup, c: Call)
    requires (c.CallBeginSnapshot? || c.CallCancelSnapshot?) && 0 !in s.templates
    ensures SameRestores(s, Answer(s, c).s)
  {}

  lemma BoundaryCallsAreInert(s: Sup, c: Call)
    requires (c.CallObserve? || c.CallConsume?) && 0 !in s.templates
    ensures SameRestores(s, Answer(s, c).s)
  {}

  lemma ReleaseCallsAreInert(s: Sup, c: Call)
    requires (c.CallRelease? || c.CallRefuse?) && 0 !in s.templates
    ensures SameRestores(s, Answer(s, c).s)
  {}

  lemma TemplateCallsAreInert(s: Sup, c: Call)
    requires c.CallTemplateReady? && 0 !in s.templates
    ensures SameRestores(s, Answer(s, c).s)
  {}

  lemma DropCallsAreInert(s: Sup, c: Call)
    requires c.CallDrop? && 0 !in s.templates
    ensures SameRestores(s, Answer(s, c).s)
  {}

  lemma PublishCallsAreInert(s: Sup, c: Call)
    requires (c.CallAttach? || c.CallFailPublish?) && 0 !in s.templates
    ensures SameRestores(s, Answer(s, c).s)
  {}

  lemma InertKeepsInv(w: World, s': Sup)
    requires Inv(w) && SameRestores(w.s, s')
    ensures Inv(w.(s := s'))
  {
    var w' := w.(s := s');
    RuntimesKept(w, w');
    TemplatesKept(w, w');
    GroupsKept(w, w');
  }

  lemma OtherKeepsInv(w: World, c: Call)
    requires Inv(w)
    ensures Inv(Apply(w, Other(c)))
  {
    if c.CallRelease? || c.CallRefuse? {
      ReleaseCallsAreInert(w.s, c);
    } else if c.CallTemplateReady? {
      TemplateCallsAreInert(w.s, c);
    } else if c.CallDrop? {
      DropCallsAreInert(w.s, c);
    } else if c.CallAttach? || c.CallFailPublish? {
      PublishCallsAreInert(w.s, c);
    } else if c.CallObserve? || c.CallConsume? {
      BoundaryCallsAreInert(w.s, c);
    } else {
      SnapshotCallsAreInert(w.s, c);
    }
    InertKeepsInv(w, Answer(w.s, c).s);
  }

  // ---- the runtime processes' side -------------------------------------------------------------

  lemma RegisterKeepsInv(w: World, rid: string, rootPid: int, pgid: int, token: string)
    requires Inv(w) && Fresh(w, pgid)
    ensures Inv(DidRegister(w, rid, rootPid, pgid, token))
  {
    if rid !in w.s.runtimes {
      var w' := DidRegister(w, rid, rootPid, pgid, token);
      RegisteredRuntimes(w, w', rid, rootPid, pgid, token);
      TemplatesKept(w, w');
      RegisteredGroups(w, w', rid, rootPid, pgid, token);
    }
  }

  lemma RegisteredRuntimes(w: World, w': World, rid: string, rootPid: int, pgid: int, token: string)
    requires RuntimesOk(w) && Fresh(w, pgid) && rid !in w.s.runtimes
    requires w' == DidRegister(w, rid, rootPid, pgid, token)
    ensures RuntimesOk(w')
  {
    forall x | x in w'.s.runtimes ensures RuntimeOk(w', x, w'.s.runtimes[x]) {
      if x in w.s.runtimes {
        assert RuntimeOk(w, x, w.s.runtimes[x]);
      }
    }
  }

  lemma RegisteredGroups(w: World, w': World, rid: string, rootPid: int, pgid: int, token: string)
    requires GroupsOk(w) && Fresh(w, pgid) && rid !in w.s.runtimes
    requires w' == DidRegister(w, rid, rootPid, pgid, token)
    ensures GroupsOk(w')
  {
    forall g | g in w'.owner ensures GroupOk(w', g) {
      if g in w.owner {
        assert GroupOk(w, g);
      }
    }
  }

  /** Only one intent can be pending, so a hand-off is counted where it belongs. */
  lemma OnePendingIntent(w: World, tid: nat, tid': nat)
    requires RuntimesOk(w) && TemplatesOk(w) && tid in w.s.templates && tid' in w.s.templates
    requires w.s.templates[tid].restorePending && w.s.templates[tid'].restorePending
    ensures tid == tid'
  {
    var t, t' := w.s.templates[tid], w.s.templates[tid'];
    assert TemplateOk(w, tid, t) && TemplateOk(w, tid', t');
    assert RuntimeOk(w, t.runtime, w.s.runtimes[t.runtime]) && RuntimeOk(w, t'.runtime, w.s.runtimes[t'.runtime]);
  }

  lemma PollKeepsInv(w: World, tid: nat, token: string)
    requires Inv(w)
    ensures Inv(DidPoll(w, tid, token))
  {
    if PollAllowed(w.s, tid, token) {
      match PollAction(w.s, tid)
      case Wait =>
      case Drop => InertKeepsInv(w, TemplatePoll(w.s, tid, token).s);
      case Restore(_) => HandOffKeepsInv(w, tid, token);
    }
  }

  lemma HandOffKeepsInv(w: World, tid: nat, token: string)
    requires Inv(w) && PollAllowed(w.s, tid, token) && PollAction(w.s, tid).Restore?
    ensures Inv(DidPoll(w, tid, token))
  {
    var w' := DidPoll(w, tid, token);
    assert TemplateOk(w, tid, w.s.templates[tid]);
    assert EpochOk(w.epochs[Last(w)]);
    forall x | x in w'.s.runtimes ensures RuntimeOk(w', x, w'.s.runtimes[x]) {
      assert RuntimeOk(w, x, w.s.runtimes[x]);
    }
    forall x | x in w'.s.templates ensures TemplateOk(w', x, w'.s.templates[x]) {
      if w.s.templates[x].restorePending {
        OnePendingIntent(w, x, tid);
      }
    }
    GroupsKept(w, w');
  }

  lemma ReadyKeepsInv(w: World, sender: Sender, rid: string, token: string, pid: int, pgid: int, generation: nat)
    requires Inv(w) && Fresh(w, pgid) && Sends(w, sender, rid, generation)
    ensures Inv(DidReady(w, sender, rid, token, pid, pgid, generation))
  {
    if GenerationReady(w.s, rid, token, pid, pgid, generation).Ok() {
      var w' := DidReady(w, sender, rid, token, pid, pgid, generation);
      assert RuntimeOk(w, rid, w.s.runtimes[rid]);
      assert EpochOk(w.epochs[Last(w)]);
      NothingPendingLeft(w, rid, w.s.runtimes[rid].restoreTemplate);
      AcceptedRuntimes(w, w', sender, rid, token, pid, pgid, generation);
      AcceptedGroups(w, w', sender, rid, token, pid, pgid, generation);
    }
  }

  /** Clearing the intent of the pending restore clears them all. */
  lemma NothingPendingLeft(w: World, rid: string, tid: nat)
    requires RuntimesOk(w) && TemplatesOk(w) && rid in w.s.runtimes && Engaged(w.driver, rid)
    requires w.s.runtimes[rid].restoreTemplate == tid
    ensures forall keep, x | x in ClearIntent(w.s, tid, keep).templates :: !ClearIntent(w.s, tid, keep).templates[x].restorePending
  {
    forall x | x in w.s.templates && w.s.templates[x].restorePending ensures x == tid && tid != 0 {
      var t := w.s.templates[x];
      assert TemplateOk(w, x, t);
      assert RuntimeOk(w, t.runtime, w.s.runtimes[t.runtime]);
    }
  }

  lemma AcceptedRuntimes(w: World, w': World, sender: Sender, rid: string, token: string, pid: int, pgid: int, generation: nat)
    requires RuntimesOk(w) && Fresh(w, pgid) && GenerationReady(w.s, rid, token, pid, pgid, generation).Ok()
    requires w' == DidReady(w, sender, rid, token, pid, pgid, generation)
    ensures RuntimesOk(w')
  {
    assert RuntimeOk(w, rid, w.s.runtimes[rid]);
    forall x | x in w'.s.runtimes ensures RuntimeOk(w', x, w'.s.runtimes[x]) {
      assert RuntimeOk(w, x, w.s.runtimes[x]);
    }
  }

  /** The stopped group steps down, the fresh one is active. */
  lemma AcceptedGroups(w: World, w': World, sender: Sender, rid: string, token: string, pid: int, pgid: int, generation: nat)
    requires RuntimesOk(w) && GroupsOk(w) && Fresh(w, pgid)
    requires GenerationReady(w.s, rid, token, pid, pgid, generation).Ok()
    requires w' == DidReady(w, sender, rid, token, pid, pgid, generation)
    ensures GroupsOk(w')
  {
    assert RuntimeOk(w, rid, w.s.runtimes[rid]);
    var was := w.s.runtimes[rid].active;
    assert Quiet(w, was);
    forall g | g in w'.owner ensures GroupOk(w', g) {
      if g in w.owner {
        assert GroupOk(w, g);
        assert w'.owner[g] == w.owner[g];
        assert w'.groups[g] == w.groups[g];
      }
    }
  }

  /** Killing groups breaks nothing. */
  lemma KilledKeepsInv(w: World, g: int)
    requires Inv(w)
    ensures g in w.groups ==> Inv(w.(groups := w.groups[g := Dead]))
  {
    if g in w.groups {
      var w' := w.(groups := w.groups[g := Dead]);
      forall x | x in w'.s.runtimes ensures RuntimeOk(w', x, w'.s.runtimes[x]) {
        assert RuntimeOk(w, x, w.s.runtimes[x]);
      }
      TemplatesKept(w, w');
      GroupsKept(w, w');
    }
  }

  // ---- the driver's side -------------------------------------------------------------------------

  /** While the driver is idle nothing is pending. */
  lemma IdleMeansNothingPending(w: World, rid: string)
    requires RuntimesOk(w) && w.driver.Idle? && rid in w.s.runtimes
    ensures !w.s.runtimes[rid].hasPendingRestore
  {
    assert RuntimeOk(w, rid, w.s.runtimes[rid]);
  }

  lemma BeginKeepsInv(w: World, rid: string, tid: nat, target: nat, freezeOk: bool)
    requires Inv(w) && w.driver.Idle?
    ensures Inv(DidBegin(w, rid, tid, target, freezeOk))
  {
    var w' := DidBegin(w, rid, tid, target, freezeOk);
    if BeginRestore(w.s, rid, tid, target, freezeOk).Ok() {
      BegunRuntimes(w, w', rid, tid, target, freezeOk);
      BegunTemplates(w, w', rid, tid, target, freezeOk);
      BegunEpochs(w, w', Epoch(rid, tid, target, false, 0, 0, Nobody));
      GroupsKept(w, w');
    }
  }

  /** A new restore has nothing to its record yet. */
  lemma BegunEpochs(w: World, w': World, e: Epoch)
    requires EpochsOk(w) && w'.strays == w.strays && w'.epochs == w.epochs + [e]
    requires EpochOk(e) && e.ackBy.Nobody?
    ensures EpochsOk(w')
  {
    forall i | 0 <= i < |w'.epochs| ensures EpochOk(w'.epochs[i]) && AckOk(w'.epochs, i) {
      if i < |w.epochs| {
        assert EpochOk(w.epochs[i]) && AckOk(w.epochs, i);
      }
    }
  }

  lemma BegunRuntimes(w: World, w': World, rid: string, tid: nat, target: nat, freezeOk: bool)
    requires RuntimesOk(w) && w.driver.Idle? && BeginRestore(w.s, rid, tid, target, freezeOk).Ok()
    requires w' == DidBegin(w, rid, tid, target, freezeOk)
    ensures RuntimesOk(w')
  {
    assert RuntimeOk(w, rid, w.s.runtimes[rid]);
    forall x | x in w'.s.runtimes ensures RuntimeOk(w', x, w'.s.runtimes[x]) {
      assert RuntimeOk(w, x, w.s.runtimes[x]);
    }
  }

  lemma BegunTemplates(w: World, w': World, rid: string, tid: nat, target: nat, freezeOk: bool)
    requires RuntimesOk(w) && TemplatesOk(w) && w.driver.Idle? && 0 !in w.s.templates
    requires BeginRestore(w.s, rid, tid, target, freezeOk).Ok() && w' == DidBegin(w, rid, tid, target, freezeOk)
    ensures TemplatesOk(w')
  {
    forall x | x in w'.s.templates ensures TemplateOk(w', x, w'.s.templates[x]) {
      if x != tid && w.s.templates[x].restorePending {
        assert TemplateOk(w, x, w.s.templates[x]);
        IdleMeansNothingPending(w, w.s.templates[x].runtime);
      }
    }
  }

  lemma RollbackKeepsInv(w: World, ok: bool)
    requires Inv(w) && w.driver.Began?
    ensures Inv(DidRollback(w, ok))
  {
    var w' := DidRollback(w, ok);
    forall x | x in w'.s.runtimes ensures RuntimeOk(w', x, w'.s.runtimes[x]) {
      assert RuntimeOk(w, x, w.s.runtimes[x]);
    }
    forall x | x in w'.s.templates ensures TemplateOk(w', x, w'.s.templates[x]) {
      assert TemplateOk(w, x, w.s.templates[x]);
    }
    GroupsKept(w, w');
  }

  lemma PublishKeepsInv(w: World)
    requires Inv(w) && w.driver.RolledBack?
    ensures Inv(Apply(w, Publish))
  {
    var w' := Apply(w, Publish);
    assert w'.s.runtimes == w.s.runtimes;
    forall x | x in w'.s.runtimes ensures RuntimeOk(w', x, w'.s.runtimes[x]) {
      assert RuntimeOk(w, x, w.s.runtimes[x]);
    }
    forall x | x in w'.s.templates ensures TemplateOk(w', x, w'.s.templates[x]) {
      assert TemplateOk(w, x, w.s.templates[x]);
    }
    GroupsKept(w, w');
  }

  lemma WaitKeepsInv(w: World, a: Action)
    requires Inv(w) && Enabled(w, a) && (a.SeeReady? || a.TimeOut? || a.Recover?)
    ensures Inv(Apply(w, a))
  {
    var w' := Apply(w, a);
    forall x | x in w'.s.runtimes ensures RuntimeOk(w', x, w'.s.runtimes[x]) {
      assert RuntimeOk(w, x, w.s.runtimes[x]);
    }
    TemplatesKept(w, w');
    GroupsKept(w, w');
  }

  lemma AbortKeepsInv(w: World)
    requires Inv(w) && w.driver.Aborting?
    ensures Inv(DidAbort(w, w.driver.rid))
  {
    var w', rid := DidAbort(w, w.driver.rid), w.driver.rid;
    AbortedRuntimes(w, w');
    if rid in w.s.runtimes {
      NothingPendingLeft(w, rid, w.s.runtimes[rid].restoreTemplate);
      assert w'.s.templates == ClearIntent(w.s, w.s.runtimes[rid].restoreTemplate, false).templates;
    }
    TemplatesKept(w, w');
    GroupsKept(w, w');
  }

  lemma AbortedRuntimes(w: World, w': World)
    requires RuntimesOk(w) && w.driver.Aborting? && w' == DidAbort(w, w.driver.rid)
    ensures RuntimesOk(w')
  {
    var rid := w.driver.rid;
    if rid in w.s.runtimes {
      var r := w.s.runtimes[rid];
      assert ClearIntent(w.s, r.restoreTemplate, false).runtimes == w.s.runtimes;
      assert w'.driver == Resuming(rid, r.active);
      assert RuntimeOk(w, rid, r);
      assert RuntimeOk(w', rid, w'.s.runtimes[rid]);
    }
    forall x | x in w'.s.runtimes && x != rid ensures RuntimeOk(w', x, w'.s.runtimes[x]) {
      assert w'.s.runtimes[x] == w.s.runtimes[x];
      assert RuntimeOk(w, x, w.s.runtimes[x]);
    }
  }

  lemma ResumeKeepsInv(w: World, ok: bool)
    requires Inv(w) && w.driver.Resuming?
    ensures Inv(DidResume(w, ok))
  {
    var w' := DidResume(w, ok);
    assert RuntimeOk(w, w.driver.rid, w.s.runtimes[w.driver.rid]);
    forall x | x in w'.s.runtimes ensures RuntimeOk(w', x, w'.s.runtimes[x]) {
      assert RuntimeOk(w, x, w.s.runtimes[x]);
    }
    TemplatesKept(w, w');
    forall g | g in w'.owner ensures GroupOk(w', g) {
      assert GroupOk(w, g);
    }
  }

  lemma RetireKeepsInv(w: World)
    requires Inv(w) && w.driver.Retiring?
    ensures Inv(DidRetire(w, w.driver.rid))
  {
    var w' := DidRetire(w, w.driver.rid);
    RetiredRuntimes(w, w');
    RetiredSup(w, w');
    TemplatesKept(w, w');
    GroupsKept(w, w');
  }

  /** The retirement touches one field of one runtime. */
  lemma RetiredSup(w: World, w': World)
    requires w.driver.Retiring? && w' == DidRetire(w, w.driver.rid)
    ensures IntentsFrom(w.s, w'.s) && w'.s.templates == w.s.templates
    ensures w'.s.runtimes.Keys == w.s.runtimes.Keys
    ensures forall rid | rid in w.s.runtimes :: w'.s.runtimes[rid].active == w.s.runtimes[rid].active
    ensures w' == w.(s := w'.s, driver := w'.driver)
  {}

  lemma RetiredRuntimes(w: World, w': World)
    requires RuntimesOk(w) && w.driver.Retiring? && w' == DidRetire(w, w.driver.rid)
    ensures RuntimesOk(w') && DriverOk(w')
  {
    forall x | x in w'.s.runtimes ensures RuntimeOk(w', x, w'.s.runtimes[x]) {
      assert RuntimeOk(w, x, w.s.runtimes[x]);
    }
    if w.driver.rid in w.s.runtimes {
      assert RuntimeOk(w, w.driver.rid, w.s.runtimes[w.driver.rid]);
    }
  }

  lemma KillKeepsInv(w: World, ok: bool)
    requires Inv(w) && w.driver.Killing?
    ensures Inv(Apply(w, Kill(ok)))
  {
    var w1 := w.(driver := Idle);
    forall x | x in w1.s.runtimes ensures RuntimeOk(w1, x, w1.s.runtimes[x]) {
      assert RuntimeOk(w, x, w.s.runtimes[x]);
    }
    TemplatesKept(w, w1);
    GroupsKept(w, w1);
    KilledKeepsInv(w1, w.driver.group);
  }

  lemma StepKeepsInv(w: World, a: Action)
    requires Inv(w) && Enabled(w, a)
    ensures Inv(Apply(w, a))
  {
    match a
    case Other(c) => OtherKeepsInv(w, c);
    case DoRegister(rid, rootPid, pgid, token) => RegisterKeepsInv(w, rid, rootPid, pgid, token);
    case Poll(tid, token) => PollKeepsInv(w, tid, token);
    case Ready(sender, rid, token, pid, pgid, generation) => ReadyKeepsInv(w, sender, rid, token, pid, pgid, generation);
    case Die(g) => KilledKeepsInv(w, g);
    case Begin(rid, tid, target, freezeOk) => BeginKeepsInv(w, rid, tid, target, freezeOk);
    case Rollback(ok) => RollbackKeepsInv(w, ok);
    case Publish => PublishKeepsInv(w);
    case SeeReady => WaitKeepsInv(w, a);
    case TimeOut => WaitKeepsInv(w, a);
    case Recover => WaitKeepsInv(w, a);
    case Abort => AbortKeepsInv(w);
    case Resume(ok) => ResumeKeepsInv(w, ok);
    case Retire => RetireKeepsInv(w);
    case Kill(ok) => KillKeepsInv(w, ok);
  }

  // ---- over whole runs ---------------------------------------------------------------------------

  predicate Legal(w: World, run: seq<Action>)
    decreases |run|
  {
    run == [] || (Enabled(w, run[0]) && Legal(Apply(w, run[0]), run[1..]))
  }

  function After(w: World, run: seq<Action>): World
    requires Legal(w, run)
    decreases |run|
  {
    if run == [] then w else After(Apply(w, run[0]), run[1..])
  }

  lemma {:induction false} RunsKeepInv(w: World, run: seq<Action>)
    requires Inv(w) && Legal(w, run)
    ensures Inv(After(w, run))
    decreases |run|
  {
    if run != [] {
      StepKeepsInv(w, run[0]);
      RunsKeepInv(Apply(w, run[0]), run[1..]);
    }
  }

  /**
   * In every run each successful begin_restore leads to at most one hand-off, only after
   * its rollback, and to at most one accepted acknowledgement; no hand-off or
   * acknowledgement happens without a begin_restore; and an acknowledgement that a
   * grandchild sends is of a restore of the same runtime to the same target, handed off
   * before: this one or an earlier one.
   */
  lemma EachRestoreHandsOffOnce(w: World, run: seq<Action>)
    requires Init(w) && Legal(w, run)
    ensures After(w, run).strays == 0
    ensures forall i :: 0 <= i < |After(w, run).epochs| ==> EpochOk(After(w, run).epochs[i]) && AckOk(After(w, run).epochs, i)
  {
    RunsKeepInv(w, run);
  }

  /** In every run, of all groups a runtime was ever active under only its present one may be running. */
  lemma OnlyTheActiveGroupRuns(w: World, run: seq<Action>, g: int)
    requires Init(w) && Legal(w, run) && g in After(w, run).owner
    ensures var v := After(w, run);
      && v.owner[g] in v.s.runtimes && g in v.groups
      && (v.s.runtimes[v.owner[g]].active != g ==> v.groups[g].Frozen? || v.groups[g].Dead?)
  {
    RunsKeepInv(w, run);
    assert GroupOk(After(w, run), g);
  }

  /** With the driver idle no runtime is left stopped, unless resuming it failed. */
  lemma NobodyIsLeftFrozen(w: World, run: seq<Action>, rid: string)
    requires Init(w) && Legal(w, run) && After(w, run).driver.Idle? && rid in After(w, run).s.runtimes
    ensures var v := After(w, run); var g := v.s.runtimes[rid].active;
      && !v.s.runtimes[rid].hasPendingRestore
      && (g > 0 ==> g in v.groups && (v.groups[g].Frozen? ==> g in v.stuck))
  {
    RunsKeepInv(w, run);
    var v := After(w, run);
    assert RuntimeOk(v, rid, v.s.runtimes[rid]);
  }

  /** The group that a retirement kills is a former one. */
  lemma RetirementSparesTheActive(w: World, run: seq<Action>)
    requires Init(w) && Legal(w, run) && After(w, run).driver.Killing?
    ensures var v := After(w, run); var g := v.driver.group;
      g > 0 ==> v.driver.rid in v.s.runtimes && g in v.groups && g in v.owner && v.owner[g] == v.driver.rid && v.s.runtimes[v.driver.rid].active != g && !v.groups[g].Running?
  {
    RunsKeepInv(w, run);
    var v := After(w, run);
    assert DriverOk(v);
    if v.driver.group > 0 {
      assert GroupOk(v, v.driver.group);
    }
  }
}
