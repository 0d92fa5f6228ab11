/**
 * Concurrent resolves, registrations and migrations (src/cas/branch_router.cpp).
 * Every step is one locked section or one read of outside state.  A cgroup path
 * keeps its inode, and a change of a tracked process's cgroup and the fence's
 * bump are one step.
 */
module RoutingProtocol {
  import opened CasTypes
  import opened BranchRouter

  datatype Pc =
    | Begun
    | FenceRead(gen: nat)
    | Missed
    | Tracked
    | Sampled(fence: Option<nat>)
    | HavePath(fence: Option<nat>, rel: string)
    | HaveLeaf(fence: Option<nat>, rel: string, check: bool, leaf: CgroupId)
    | Walking(fence: Option<nat>, rel: string, missGeneration: nat)
    | Walked(fence: Option<nat>, rel: string, leaf: CgroupId, missGeneration: nat, walked: seq<CgroupId>)
    | Done(branch: nat)

  /** visited: the cgroups the process was in at some moment since the call began. */
  datatype Call = Call(pid: int, pc: Pc, visited: set<Option<string>>)

  datatype World = World(r: Router, member: map<int, string>, fence: nat, tracked: set<int>, calls: map<nat, Call>)

  /** The fixed surroundings: inodes, and whether a fence is attached. */
  datatype Setup = Setup(ids: string -> CgroupId, fenceOn: bool)

  datatype Action =
    | RegisterAt(path: string, branch: nat)
    | UnregisterAt(path: string)
    | EvictId(id: CgroupId)
    | DropAll(branch: nat)
    | Migrate(pid: int, to: Option<string>)
    | Start(c: nat, pid: int)
    | ReadGeneration(c: nat)
    | Fast(c: nat)
    | Track(c: nat, ok: bool)
    | Sample(c: nat)
    | ReadMembership(c: nat)
    | ReadLeaf(c: nat, check: bool)
    | Consult(c: nat)
    | Walk(c: nat)
    | Finish(c: nat)

  function MemberOf(w: World, pid: int): Option<string> {
    if pid in w.member then Some(w.member[pid]) else None
  }

  predicate Enabled(s: Setup, w: World, a: Action) {
    match a
    case Start(c, _) => c !in w.calls
    case ReadGeneration(c) => c in w.calls && w.calls[c].pc.Begun?
    case Fast(c) => c in w.calls && w.calls[c].pc.FenceRead?
    case Track(c, _) => c in w.calls && w.calls[c].pc.Missed?
    case Sample(c) => c in w.calls && w.calls[c].pc.Tracked?
    case ReadMembership(c) => c in w.calls && w.calls[c].pc.Sampled?
    case ReadLeaf(c, _) => c in w.calls && w.calls[c].pc.HavePath?
    case Consult(c) => c in w.calls && w.calls[c].pc.HaveLeaf?
    case Walk(c) => c in w.calls && w.calls[c].pc.Walking?
    case Finish(c) => c in w.calls && w.calls[c].pc.Walked?
    case _ => true
  }

  function Goto(w: World, c: nat, pc: Pc): World
    requires c in w.calls
  {
    w.(calls := w.calls[c := w.calls[c].(pc := pc)])
  }

  function Apply(s: Setup, w: World, a: Action): World
    requires Enabled(s, w, a)
  {
    match a
    case RegisterAt(path, branch) => if s.ids(path) == 0 then w else w.(r := Register(w.r, s.ids(path), branch))
    case UnregisterAt(path) => if s.ids(path) == 0 then w else w.(r := Unregister(w.r, s.ids(path)))
    case EvictId(id) => w.(r := Evict(w.r, id))
    case DropAll(branch) => w.(r := DropBranch(w.r, branch))
    case Migrate(pid, to) => Moved(w, pid, to)
    case Start(c, pid) => w.(calls := w.calls[c := Call(pid, Begun, {MemberOf(w, pid)})])
    case ReadGeneration(c) => Goto(w, c, if s.fenceOn then FenceRead(w.fence) else Missed)
    case Fast(c) => Goto(w, c, FastResult(w, c))
    case Track(c, ok) =>
      if s.fenceOn && ok then Goto(w, c, Tracked).(tracked := w.tracked + {w.calls[c].pid})
      else Goto(w, c, Sampled(None))
    case Sample(c) => Goto(w, c, Sampled(Some(w.fence)))
    case ReadMembership(c) => Goto(w, c, MembershipResult(w, c))
    case ReadLeaf(c, check) =>
      var pc := w.calls[c].pc;
      Goto(w, c, HaveLeaf(pc.fence, pc.rel, check, if check then s.ids(Abs(pc.rel)) else 0))
    case Consult(c) => Consulted(w, c)
    case Walk(c) =>
      var pc := w.calls[c].pc;
      Goto(w, c, Walked(pc.fence, pc.rel, s.ids(Abs(pc.rel)), pc.missGeneration, IdsOf(s.ids, Chain(Abs(pc.rel)))))
    case Finish(c) => Finished(w, c)
  }

  function Moved(w: World, pid: int, to: Option<string>): World {
    w.(member := if to.Some? then w.member[pid := to.value] else w.member - {pid},
       fence := if pid in w.tracked then w.fence + 1 else w.fence,
       calls := map c | c in w.calls :: if w.calls[c].pid == pid then w.calls[c].(visited := w.calls[c].visited + {to}) else w.calls[c])
  }

  function FastResult(w: World, c: nat): Pc
    requires c in w.calls && w.calls[c].pc.FenceRead?
  {
    if PidHit(w.r, w.calls[c].pid, w.calls[c].pc.gen) then Done(w.r.pids[w.calls[c].pid].branch) else Missed
  }

  function MembershipResult(w: World, c: nat): Pc
    requires c in w.calls && w.calls[c].pc.Sampled?
  {
    match MemberOf(w, w.calls[c].pid)
    case None => Done(0)
    case Some(rel) => if rel == "" then Done(0) else HavePath(w.calls[c].pc.fence, rel)
  }

  function Consulted(w: World, c: nat): World
    requires c in w.calls && w.calls[c].pc.HaveLeaf?
  {
    var pc := w.calls[c].pc;
    if PathHit(w.r, pc.rel, pc.check, pc.leaf) then
      Goto(w, c, Done(w.r.paths[pc.rel].branch)).(r := AfterHit(w.r, w.calls[c].pid, pc.rel, pc.fence))
    else Goto(w, c, Walking(pc.fence, pc.rel, w.r.generation))
  }

  function Finished(w: World, c: nat): World
    requires c in w.calls && w.calls[c].pc.Walked?
  {
    var pc := w.calls[c].pc;
    Goto(w, c, Done(FirstBranch(w.r.map_, pc.walked))).
      (r := AfterWalk(w.r, w.calls[c].pid, pc.rel, pc.leaf, pc.walked, pc.missGeneration, pc.fence))
  }

  // ---- the invariant -----------------------------------------------------------------------------

  /** Since the fence stood at gen the process has not changed its cgroup. */
  predicate SettledSince(w: World, pid: int, gen: nat, rel: string) {
    gen <= w.fence && (gen == w.fence ==> pid in w.tracked && MemberOf(w, pid) == Some(rel))
  }

  predicate PathOk(s: Setup, w: World, rel: string, e: PathEntry) {
    e.branch == Route(s.ids, w.r.map_, rel)
  }

  predicate PidOk(s: Setup, w: World, pid: int, e: FenceEntry) {
    e.branch == Route(s.ids, w.r.map_, e.path) && SettledSince(w, pid, e.generation, e.path)
  }

  /** The membership a call has read, and the fence generation it was read under. */
  predicate Carries(pc: Pc) {
    pc.HavePath? || pc.HaveLeaf? || pc.Walking? || pc.Walked?
  }

  predicate CallOk(s: Setup, w: World, call: Call) {
    && (!call.pc.Done? ==> MemberOf(w, call.pid) in call.visited)
    && (call.pc.FenceRead? ==> call.pc.gen <= w.fence)
    && (call.pc.FenceRead? && PidHit(w.r, call.pid, call.pc.gen) ==> Some(w.r.pids[call.pid].path) in call.visited)
    && (call.pc.Tracked? ==> call.pid in w.tracked)
    && (call.pc.Sampled? && call.pc.fence.Some? ==> call.pc.fence.value <= w.fence && call.pid in w.tracked)
    && (Carries(call.pc) ==> Some(call.pc.rel) in call.visited)
    && (Carries(call.pc) && call.pc.fence.Some? ==> SettledSince(w, call.pid, call.pc.fence.value, call.pc.rel))
    && (call.pc.Walked? ==> call.pc.walked == IdsOf(s.ids, Chain(Abs(call.pc.rel))))
  }

  /** What one call may still cache, another that waits on the same generation has seen. */
  predicate PairOk(a: Call, b: Call) {
    a.pid == b.pid && a.pc.FenceRead? && Carries(b.pc) && b.pc.fence == Some(a.pc.gen) ==> Some(b.pc.rel) in a.visited
  }

  ghost predicate Inv(s: Setup, w: World) {
    && (forall rel | rel in w.r.paths :: PathOk(s, w, rel, w.r.paths[rel]))
    && (forall pid | pid in w.r.pids :: PidOk(s, w, pid, w.r.pids[pid]))
    && (forall c | c in w.calls :: CallOk(s, w, w.calls[c]))
    && (forall c, c' | c in w.calls && c' in w.calls :: PairOk(w.calls[c], w.calls[c']))
  }

  /** The answer is the uncached route of a cgroup the process was in during the call. */
  ghost predicate Justified(s: Setup, w: World, call: Call, branch: nat) {
    || (branch == 0 && (None in call.visited || Some("") in call.visited))
    || (exists rel :: Some(rel) in call.visited && branch == Route(s.ids, w.r.map_, rel))
  }

  // ---- the steps keep it ----------------------------------------------------------------------------

  lemma RegistrationKeepsInv(s: Setup, w: World, r': Router)
    requires Inv(s, w) && r'.paths == map[] && r'.pids == map[]
    ensures Inv(s, w.(r := r'))
  {
    var w' := w.(r := r');
    forall c | c in w'.calls ensures CallOk(s, w', w'.calls[c]) {
      assert CallOk(s, w, w.calls[c]);
    }
  }

  lemma MigrationKeepsInv(s: Setup, w: World, pid: int, to: Option<string>)
    requires Inv(s, w)
    ensures Inv(s, Moved(w, pid, to))
  {
    var w' := Moved(w, pid, to);
    forall rel | rel in w'.r.paths ensures PathOk(s, w', rel, w'.r.paths[rel]) {
      assert PathOk(s, w, rel, w.r.paths[rel]);
    }
    forall p | p in w'.r.pids ensures PidOk(s, w', p, w'.r.pids[p]) {
      assert PidOk(s, w, p, w.r.pids[p]);
    }
    forall c | c in w'.calls ensures CallOk(s, w', w'.calls[c]) {
      assert CallOk(s, w, w.calls[c]);
    }
    forall c, c' | c in w'.calls && c' in w'.calls ensures PairOk(w'.calls[c], w'.calls[c']) {
      assert PairOk(w.calls[c], w.calls[c']);
    }
  }

  /** A step of one call that changes nothing shared but the set of tracked processes. */
  lemma CallStepKeepsInv(s: Setup, w: World, c: nat, w': World)
    requires Inv(s, w) && w' == w.(calls := w'.calls, tracked := w'.tracked) && w.tracked <= w'.tracked
    requires c in w'.calls && w'.calls == w.calls[c := w'.calls[c]]
    requires CallOk(s, w', w'.calls[c])
    requires forall c' | c' in w'.calls :: PairOk(w'.calls[c], w'.calls[c']) && PairOk(w'.calls[c'], w'.calls[c])
    ensures Inv(s, w')
  {
    forall rel | rel in w'.r.paths ensures PathOk(s, w', rel, w'.r.paths[rel]) {
      assert PathOk(s, w, rel, w.r.paths[rel]);
    }
    forall p | p in w'.r.pids ensures PidOk(s, w', p, w'.r.pids[p]) {
      assert PidOk(s, w, p, w.r.pids[p]);
    }
    forall x | x in w'.calls ensures CallOk(s, w', w'.calls[x]) {
      if x != c {
        assert CallOk(s, w, w.calls[x]);
      }
    }
    forall x, y | x in w'.calls && y in w'.calls ensures PairOk(w'.calls[x], w'.calls[y]) {
      if x != c && y != c {
        assert PairOk(w.calls[x], w.calls[y]);
      }
    }
  }

  lemma BeginKeepsInv(s: Setup, w: World, a: Action)
    requires Inv(s, w) && Enabled(s, w, a) && (a.Start? || a.Fast? || a.Track? || a.Sample?)
    ensures Inv(s, Apply(s, w, a))
  {
    if a.c in w.calls {
      assert CallOk(s, w, w.calls[a.c]);
    }
    CallStepKeepsInv(s, w, a.c, Apply(s, w, a));
  }

  /** Whoever is settled at the present generation is where the process is now. */
  lemma ReadGenerationKeepsInv(s: Setup, w: World, c: nat)
    requires Inv(s, w) && Enabled(s, w, ReadGeneration(c))
    ensures Inv(s, Apply(s, w, ReadGeneration(c)))
  {
    var w' := Apply(s, w, ReadGeneration(c));
    var call := w.calls[c];
    assert CallOk(s, w, call);
    if call.pid in w.r.pids {
      assert PidOk(s, w, call.pid, w.r.pids[call.pid]);
    }
    forall c' | c' in w'.calls ensures PairOk(w'.calls[c], w'.calls[c']) && PairOk(w'.calls[c'], w'.calls[c]) {
      if c' in w.calls && c' != c {
        assert CallOk(s, w, w.calls[c']);
      }
    }
    CallStepKeepsInv(s, w, c, w');
  }

  /** What is read now has been visited by every call of the process that is still running. */
  lemma ReadMembershipKeepsInv(s: Setup, w: World, c: nat)
    requires Inv(s, w) && Enabled(s, w, ReadMembership(c))
    ensures Inv(s, Apply(s, w, ReadMembership(c)))
  {
    var w' := Apply(s, w, ReadMembership(c));
    assert CallOk(s, w, w.calls[c]);
    forall c' | c' in w'.calls ensures PairOk(w'.calls[c], w'.calls[c']) && PairOk(w'.calls[c'], w'.calls[c]) {
      assert CallOk(s, w, w.calls[c']);
    }
    CallStepKeepsInv(s, w, c, w');
  }

  /** Going on with what was read. */
  lemma CarryOnKeepsInv(s: Setup, w: World, c: nat, pc: Pc)
    requires Inv(s, w) && c in w.calls && Carries(w.calls[c].pc) && Carries(pc)
    requires pc.fence == w.calls[c].pc.fence && pc.rel == w.calls[c].pc.rel
    requires pc.Walked? ==> pc.walked == IdsOf(s.ids, Chain(Abs(pc.rel)))
    ensures Inv(s, Goto(w, c, pc))
  {
    var w' := Goto(w, c, pc);
    assert CallOk(s, w, w.calls[c]);
    forall c' | c' in w'.calls ensures PairOk(w'.calls[c], w'.calls[c']) && PairOk(w'.calls[c'], w'.calls[c]) {
      assert PairOk(w.calls[c'], w.calls[c]);
    }
    CallStepKeepsInv(s, w, c, w');
  }

  /** Caches that gain only the right entry for this call's process and cgroup. */
  ghost predicate StoredFor(s: Setup, w: World, call: Call, r': Router) {
    && r'.map_ == w.r.map_ && Carries(call.pc)
    && (forall rel | rel in r'.paths :: PathOk(s, w, rel, r'.paths[rel]))
    && (forall p | p in r'.pids :: (p in w.r.pids && r'.pids[p] == w.r.pids[p]) ||
          (p == call.pid && call.pc.fence.Some? &&
           r'.pids[p] == FenceEntry(Route(s.ids, w.r.map_, call.pc.rel), call.pc.fence.value, call.pc.rel)))
  }

  lemma StoreKeepsInv(s: Setup, w: World, c: nat, r': Router, branch: nat)
    requires Inv(s, w) && c in w.calls && StoredFor(s, w, w.calls[c], r')
    ensures Inv(s, Goto(w, c, Done(branch)).(r := r'))
  {
    var w' := Goto(w, c, Done(branch)).(r := r');
    var call := w.calls[c];
    assert CallOk(s, w, call);
    forall p | p in w'.r.pids ensures PidOk(s, w', p, w'.r.pids[p]) {
      if p in w.r.pids {
        assert PidOk(s, w, p, w.r.pids[p]);
      }
    }
    forall x | x in w'.calls ensures CallOk(s, w', w'.calls[x]) {
      assert CallOk(s, w, w.calls[x]);
      assert PairOk(w.calls[x], call);
    }
    forall x, y | x in w'.calls && y in w'.calls ensures PairOk(w'.calls[x], w'.calls[y]) {
      assert PairOk(w.calls[x], w.calls[y]);
    }
  }

  lemma ConsultKeepsInv(s: Setup, w: World, c: nat)
    requires Inv(s, w) && Enabled(s, w, Consult(c))
    ensures Inv(s, Consulted(w, c))
  {
    var call, pc := w.calls[c], w.calls[c].pc;
    if PathHit(w.r, pc.rel, pc.check, pc.leaf) {
      assert PathOk(s, w, pc.rel, w.r.paths[pc.rel]);
      StoreKeepsInv(s, w, c, AfterHit(w.r, call.pid, pc.rel, pc.fence), w.r.paths[pc.rel].branch);
    } else {
      CarryOnKeepsInv(s, w, c, Walking(pc.fence, pc.rel, w.r.generation));
    }
  }

  lemma FinishKeepsInv(s: Setup, w: World, c: nat)
    requires Inv(s, w) && Enabled(s, w, Finish(c))
    ensures Inv(s, Finished(w, c))
  {
    var call, pc := w.calls[c], w.calls[c].pc;
    assert CallOk(s, w, call);
    var r' := AfterWalk(w.r, call.pid, pc.rel, pc.leaf, pc.walked, pc.missGeneration, pc.fence);
    StoreKeepsInv(s, w, c, r', FirstBranch(w.r.map_, pc.walked));
  }

  lemma StepKeepsInv(s: Setup, w: World, a: Action)
    requires Inv(s, w) && Enabled(s, w, a)
    ensures Inv(s, Apply(s, w, a))
  {
    match a
    case RegisterAt(path, branch) => RegistrationKeepsInv(s, w, Register(w.r, s.ids(path), branch));
    case UnregisterAt(path) => RegistrationKeepsInv(s, w, Unregister(w.r, s.ids(path)));
    case EvictId(id) => RegistrationKeepsInv(s, w, Evict(w.r, id));
    case DropAll(branch) => RegistrationKeepsInv(s, w, DropBranch(w.r, branch));
    case Migrate(pid, to) => MigrationKeepsInv(s, w, pid, to);
    case ReadGeneration(c) => ReadGenerationKeepsInv(s, w, c);
    case ReadMembership(c) => ReadMembershipKeepsInv(s, w, c);
    case ReadLeaf(c, check) =>
      var pc := w.calls[c].pc;
      CarryOnKeepsInv(s, w, c, HaveLeaf(pc.fence, pc.rel, check, if check then s.ids(Abs(pc.rel)) else 0));
    case Consult(c) => ConsultKeepsInv(s, w, c);
    case Walk(c) =>
      var pc := w.calls[c].pc;
      CarryOnKeepsInv(s, w, c, Walked(pc.fence, pc.rel, s.ids(Abs(pc.rel)), pc.missGeneration, IdsOf(s.ids, Chain(Abs(pc.rel)))));
    case Finish(c) => FinishKeepsInv(s, w, c);
    case _ => BeginKeepsInv(s, w, a);
  }

  // ---- over whole runs ---------------------------------------------------------------------------------

  predicate Legal(s: Setup, w: World, run: seq<Action>)
    decreases |run|
  {
    run == [] || (Enabled(s, w, run[0]) && Legal(s, Apply(s, w, run[0]), run[1..]))
  }

  function After(s: Setup, w: World, run: seq<Action>): World
    requires Legal(s, w, run)
    decreases |run|
  {
    if run == [] then w else After(s, Apply(s, w, run[0]), run[1..])
  }

  /** Any registrations, no cache entries, no calls. */
  predicate Init(w: World) {
    w.r.paths == map[] && w.r.pids == map[] && w.calls == map[]
  }

  lemma {:induction false} RunsKeepInv(s: Setup, w: World, run: seq<Action>)
    requires Inv(s, w) && Legal(s, w, run)
    ensures Inv(s, After(s, w, run))
    decreases |run|
  {
    if run != [] {
      StepKeepsInv(s, w, run[0]);
      RunsKeepInv(s, Apply(s, w, run[0]), run[1..]);
    }
  }

  /** In every run each cached path agrees with the present registrations. */
  lemma PathCacheAgrees(s: Setup, w: World, run: seq<Action>, rel: string)
    requires Init(w) && Legal(s, w, run) && rel in After(s, w, run).r.paths
    ensures var v := After(s, w, run); v.r.paths[rel].branch == Route(s.ids, v.r.map_, rel)
  {
    RunsKeepInv(s, w, run);
    assert PathOk(s, After(s, w, run), rel, After(s, w, run).r.paths[rel]);
  }

  /** In every run a process entry that the fence would let through is the uncached answer for where the process is. */
  lemma PidCacheAgrees(s: Setup, w: World, run: seq<Action>, pid: int)
    requires Init(w) && Legal(s, w, run) && PidHit(After(s, w, run).r, pid, After(s, w, run).fence)
    ensures var v := After(s, w, run);
      pid in v.member && v.r.pids[pid].branch == Route(s.ids, v.r.map_, v.member[pid])
  {
    RunsKeepInv(s, w, run);
    assert PidOk(s, After(s, w, run), pid, After(s, w, run).r.pids[pid]);
  }

  /**
   * In every run, a step with which a resolve answers gives the uncached route, under the
   * registrations of that moment, of a cgroup the process was in during the call.
   */
  lemma EveryAnswerIsJustified(s: Setup, w: World, run: seq<Action>, a: Action, c: nat)
    requires Init(w) && Legal(s, w, run) && Enabled(s, After(s, w, run), a)
    requires var v, v' := After(s, w, run), Apply(s, After(s, w, run), a);
      c in v.calls && c in v'.calls && !v.calls[c].pc.Done? && v'.calls[c].pc.Done?
    ensures var v' := Apply(s, After(s, w, run), a); Justified(s, v', v'.calls[c], v'.calls[c].pc.branch)
  {
    RunsKeepInv(s, w, run);
    var v := After(s, w, run);
    var call, pc := v.calls[c], v.calls[c].pc;
    assert CallOk(s, v, call);
    if a.Fast? {
      assert PidOk(s, v, call.pid, v.r.pids[call.pid]);
    } else if a.Consult? {
      assert PathOk(s, v, pc.rel, v.r.paths[pc.rel]);
    }
  }
}
