/**
 * One store, any number of writers, and collections that run beside them
 * (src/cas/object_store.cpp, src/cas/gc.cpp, src/cas/daemon.cpp).
 *
 * A writer takes a branch's checkpoint lock, publishes or adopts an object, puts
 * its hash into the branch's tree and lets go of the lock.  A collection takes
 * every lock once to list the live hashes, releases them, reads its start time,
 * and then removes what is neither listed nor young, one object at a time.  Times
 * are whole seconds, as `stat` and `time` give them.  Every step below happens
 * while its mutex is held, so runs are sequences of steps.
 */
module GcHandshake {
  import opened CasTypes

  type Branch = nat
  type Writer = nat

  datatype WriterPc =
    | Resting
    | Holding(b: Branch)
    | Writing(b: Branch, h: Hash, writtenAt: int)   // the temporary file is complete
    | Published(b: Branch, h: Hash)

  datatype Phase =
    | Idle
    | Locking(held: set<Branch>)
    | Listed(roots: set<Hash>, at: int)
    | Sweeping(marked: set<Hash>, at: int, markStart: int, candidate: Option<Hash>)

  datatype State = State(
    mtime: map<Hash, int>, pending: set<Hash>, clock: int,
    live: map<Branch, set<Hash>>, writers: map<Writer, WriterPc>, gc: Phase)
  {
    ghost predicate HeldByWriter(b: Branch) {
      exists w :: w in writers && !writers[w].Resting? && writers[w].b == b
    }

    function LiveHashes(): set<Hash> {
      set b, h | b in live && h in live[b] :: h
    }
  }

  datatype Action =
    | Tick(seconds: nat)
    | Acquire(w: Writer, b: Branch)
    | Adopt(w: Writer, h: Hash)
    | Publish(w: Writer)
    | Insert(w: Writer)
    | Forget(w: Writer, h: Hash)
    | Release(w: Writer)
    | Load(b: Branch, hashes: set<Hash>)
    | Drain
    | RestorePending(hashes: set<Hash>)
    | GcBegin
    | GcLock(b: Branch)
    | GcList
    | GcMark(reached: set<Hash>)
    | GcLook(h: Hash)
    | GcRemove
    | GcEnd

  predicate HeldByGc(s: State, b: Branch) {
    s.gc.Locking? && b in s.gc.held
  }

  /** When a step can be taken; gap bounds the delay between listing and reading the start time. */
  ghost predicate Enabled(gap: nat, s: State, a: Action) {
    match a
    case Tick(_) => true
    case Acquire(w, b) =>
      w in s.writers && s.writers[w].Resting? && b in s.live && !s.HeldByWriter(b) && !HeldByGc(s, b)
    case Adopt(w, h) => w in s.writers && s.writers[w].Holding?
    case Publish(w) => w in s.writers && s.writers[w].Writing?
    case Insert(w) => w in s.writers && s.writers[w].Published? && s.writers[w].b in s.live
    case Forget(w, h) => w in s.writers && s.writers[w].Holding? && s.writers[w].b in s.live
    case Release(w) => w in s.writers
    // Branch creation, rollback and checkpoints hold the mutex that a collection holds throughout.
    case Load(b, hashes) => s.gc.Idle? && !s.HeldByWriter(b) && hashes <= s.mtime.Keys
    case Drain => s.gc.Idle?
    case RestorePending(_) => s.gc.Idle?
    case GcBegin => s.gc.Idle?
    case GcLock(b) => s.gc.Locking? && b in s.live && !s.HeldByWriter(b)
    case GcList => s.gc.Locking? && s.gc.held == s.live.Keys
    case GcMark(_) => s.gc.Listed? && s.clock <= s.gc.at + gap
    case GcLook(h) => s.gc.Sweeping? && h in s.mtime
    case GcRemove => s.gc.Sweeping? && s.gc.candidate.Some?
    case GcEnd => true
  }

  function Apply(s: State, a: Action): State {
    match a
    case Tick(n) => s.(clock := s.clock + n)
    case Acquire(w, b) => s.(writers := s.writers[w := Holding(b)])
    case Adopt(w, h) => if w in s.writers && s.writers[w].Holding? then AdoptOr(s, w, h) else s
    case Publish(w) => if w in s.writers && s.writers[w].Writing? then PublishOr(s, w) else s
    case Insert(w) =>
      if w in s.writers && s.writers[w].Published? && s.writers[w].b in s.live then
        var b := s.writers[w].b;
        s.(live := s.live[b := s.live[b] + {s.writers[w].h}], writers := s.writers[w := Holding(b)])
      else s
    case Forget(w, h) =>
      if w in s.writers && s.writers[w].Holding? && s.writers[w].b in s.live then
        s.(live := s.live[s.writers[w].b := s.live[s.writers[w].b] - {h}])
      else s
    case Release(w) => s.(writers := s.writers[w := Resting])
    case Load(b, hashes) => s.(live := s.live[b := hashes])
    case Drain => s.(pending := {})
    case RestorePending(hashes) => s.(pending := s.pending + hashes)
    case GcBegin => s.(gc := Locking({}))
    case GcLock(b) => if s.gc.Locking? then s.(gc := Locking(s.gc.held + {b})) else s
    case GcList => s.(gc := Listed(s.LiveHashes() + s.pending, s.clock))
    case GcMark(reached) =>
      if s.gc.Listed? then s.(gc := Sweeping(s.gc.roots + reached, s.gc.at, s.clock, None)) else s
    case GcLook(h) => if s.gc.Sweeping? then Look(s, h) else s
    case GcRemove => if s.gc.Sweeping? && s.gc.candidate.Some? then Remove(s, s.gc.candidate.value) else s
    case GcEnd => s.(gc := Idle)
  }

  /** A duplicate is adopted by refreshing its time; otherwise a temporary file is written. */
  function AdoptOr(s: State, w: Writer, h: Hash): State
    requires w in s.writers && s.writers[w].Holding?
  {
    var b := s.writers[w].b;
    if h in s.mtime then s.(mtime := s.mtime[h := s.clock], writers := s.writers[w := Published(b, h)])
    else s.(writers := s.writers[w := Writing(b, h, s.clock)])
  }

  /** The rename keeps the temporary file's time; a file that appeared meanwhile is adopted. */
  function PublishOr(s: State, w: Writer): State
    requires w in s.writers && s.writers[w].Writing?
  {
    var pc := s.writers[w];
    var s' := s.(writers := s.writers[w := Published(pc.b, pc.h)]);
    if pc.h in s.mtime then s'.(mtime := s.mtime[pc.h := s.clock])
    else s'.(mtime := s.mtime[pc.h := pc.writtenAt], pending := s.pending + {pc.h})
  }

  /** The enumeration's stat: marked and young objects are passed over. */
  function Look(s: State, h: Hash): State
    requires s.gc.Sweeping?
  {
    if h in s.mtime && h !in s.gc.marked && s.mtime[h] + 2 < s.gc.markStart then s.(gc := s.gc.(candidate := Some(h)))
    else s
  }

  /** The removal looks again, under the publication mutex. */
  function Remove(s: State, h: Hash): State
    requires s.gc.Sweeping?
  {
    var s' := s.(gc := s.gc.(candidate := None));
    if h !in s.pending && h in s.mtime && s.mtime[h] < s.gc.markStart - 2 then s'.(mtime := s.mtime - {h}) else s'
  }

  // ---- runs ------------------------------------------------------------------------------

  /** The daemon before any of this starts: no locks held, every live hash stored. */
  ghost predicate Init(s: State) {
    s.gc.Idle? && (forall w | w in s.writers :: s.writers[w].Resting?) && NothingDangles(s)
  }

  ghost predicate NothingDangles(s: State) {
    forall b, h | b in s.live && h in s.live[b] :: h in s.mtime
  }

  ghost predicate Legal(gap: nat, s: State, run: seq<Action>)
    decreases |run|
  {
    run == [] || (Enabled(gap, s, run[0]) && Legal(gap, Apply(s, run[0]), run[1..]))
  }

  function After(s: State, run: seq<Action>): State
    decreases |run|
  {
    if run == [] then s else After(Apply(s, run[0]), run[1..])
  }

  // ---- the invariant -----------------------------------------------------------------------

  /** What a collection cannot take: listed before, or touched since the listing. */
  predicate Shielded(s: State, h: Hash) {
    match s.gc
    case Idle => true
    case Locking(_) => true
    case Listed(roots, at) => h in roots || (h in s.mtime && s.mtime[h] >= at)
    case Sweeping(marked, at, _, _) => h in marked || (h in s.mtime && s.mtime[h] >= at)
  }

  predicate Sheltered(s: State, h: Hash) {
    h in s.mtime && Shielded(s, h)
  }

  /** The moment after which all writers have to start over. */
  predicate Since(s: State, t: int) {
    (s.gc.Listed? || s.gc.Sweeping?) ==> t >= s.gc.at
  }

  predicate WriterOk(s: State, pc: WriterPc) {
    match pc
    case Resting => true
    case Holding(b) => true
    case Writing(b, h, t) => Since(s, t)
    case Published(b, h) => Sheltered(s, h)
  }

  ghost predicate LocksOk(s: State) {
    && (forall w | w in s.writers && !s.writers[w].Resting? ::
          s.writers[w].b in s.live && !HeldByGc(s, s.writers[w].b))
    && (forall w, w' | w in s.writers && w' in s.writers && !s.writers[w].Resting? && !s.writers[w'].Resting? ::
          s.writers[w].b == s.writers[w'].b ==> w == w')
  }

  ghost predicate Inv(s: State) {
    && (forall b, h | b in s.live && h in s.live[b] :: Sheltered(s, h))
    && (forall w | w in s.writers :: WriterOk(s, s.writers[w]))
    && LocksOk(s)
    && Since(s, s.clock)
    && (s.gc.Sweeping? ==> s.gc.markStart <= s.gc.at + 2)
    && (s.gc.Sweeping? && s.gc.candidate.Some? ==> s.gc.candidate.value !in s.gc.marked)
  }

  // ---- the steps keep it --------------------------------------------------------------------

  lemma WriterStep(gap: nat, s: State, a: Action)
    requires Inv(s) && Enabled(gap, s, a)
    requires a.Acquire? || a.Adopt? || a.Publish? || a.Insert? || a.Forget? || a.Release?
    ensures Inv(Apply(s, a))
  {
    var s' := Apply(s, a);
    forall h | Sheltered(s, h) ensures Sheltered(s', h) {}
    forall w | w in s'.writers ensures WriterOk(s', s'.writers[w]) {
      if w in s.writers && s.writers[w] == s'.writers[w] {
        assert WriterOk(s, s.writers[w]);
      } else if a.Adopt? || a.Publish? {
        assert w == a.w && WriterOk(s, s.writers[w]);
      }
    }
    LocksKept(gap, s, a);
  }

  lemma LocksKept(gap: nat, s: State, a: Action)
    requires Inv(s) && Enabled(gap, s, a)
    requires a.Acquire? || a.Adopt? || a.Publish? || a.Insert? || a.Forget? || a.Release?
    ensures LocksOk(Apply(s, a))
  {
    var s' := Apply(s, a);
    forall w | w in s'.writers && !s'.writers[w].Resting?
      ensures s'.writers[w].b in s'.live && !HeldByGc(s', s'.writers[w].b)
    {
      assert w in s.writers;
    }
  }

  /** With every lock held there is no writer between publishing and inserting. */
  lemma ListingStep(gap: nat, s: State, a: Action)
    requires Inv(s) && Enabled(gap, s, a)
    requires a.GcLock? || a.GcList? || a.GcMark? || a.GcBegin? || a.GcEnd?
    requires gap <= 2
    ensures Inv(Apply(s, a))
  {
    var s' := Apply(s, a);
    forall b, h | b in s'.live && h in s'.live[b] ensures Sheltered(s', h) {
      assert Sheltered(s, h);
      assert h in s.LiveHashes();
    }
    forall w | w in s'.writers ensures WriterOk(s', s'.writers[w]) {
      assert WriterOk(s, s.writers[w]);
    }
  }

  /** Only what nobody needs is removed. */
  lemma RemoveStep(s: State, h: Hash)
    requires Inv(s) && s.gc.Sweeping? && s.gc.candidate == Some(h)
    requires h !in s.gc.marked
    ensures Inv(Remove(s, h))
  {
    var s' := Remove(s, h);
    forall x | Sheltered(s, x) ensures Sheltered(s', x) {}
    forall w | w in s'.writers ensures WriterOk(s', s'.writers[w]) {
      assert WriterOk(s, s.writers[w]);
    }
  }

  lemma OtherStep(gap: nat, s: State, a: Action)
    requires Inv(s) && Enabled(gap, s, a)
    requires a.Tick? || a.Load? || a.Drain? || a.RestorePending? || a.GcLook?
    ensures Inv(Apply(s, a))
  {
    var s' := Apply(s, a);
    forall h | Sheltered(s, h) ensures Sheltered(s', h) {}
    forall w | w in s'.writers ensures WriterOk(s', s'.writers[w]) {
      assert WriterOk(s, s.writers[w]);
    }
  }

  lemma StepKeepsInv(gap: nat, s: State, a: Action)
    requires Inv(s) && Enabled(gap, s, a) && gap <= 2
    ensures Inv(Apply(s, a))
  {
    match a
    case Acquire(_, _) => WriterStep(gap, s, a);
    case Adopt(_, _) => WriterStep(gap, s, a);
    case Publish(_) => WriterStep(gap, s, a);
    case Insert(_) => WriterStep(gap, s, a);
    case Forget(_, _) => WriterStep(gap, s, a);
    case Release(_) => WriterStep(gap, s, a);
    case GcBegin => ListingStep(gap, s, a);
    case GcLock(_) => ListingStep(gap, s, a);
    case GcList => ListingStep(gap, s, a);
    case GcMark(_) => ListingStep(gap, s, a);
    case GcEnd => ListingStep(gap, s, a);
    case GcRemove => RemoveStep(s, s.gc.candidate.value);
    case _ => OtherStep(gap, s, a);
  }

  lemma {:induction false} RunsKeepInv(gap: nat, s: State, run: seq<Action>)
    requires Inv(s) && Legal(gap, s, run) && gap <= 2
    ensures Inv(After(s, run))
    decreases |run|
  {
    if run != [] {
      StepKeepsInv(gap, s, run[0]);
      RunsKeepInv(gap, Apply(s, run[0]), run[1..]);
    }
  }

  /** In every run with a short delay every hash in a live tree keeps its object. */
  lemma NoLiveObjectIsSwept(gap: nat, s: State, run: seq<Action>)
    requires Init(s) && Legal(gap, s, run) && gap <= 2
    ensures NothingDangles(After(s, run))
  {
    assert Inv(s);
    RunsKeepInv(gap, s, run);
    forall b, h | b in After(s, run).live && h in After(s, run).live[b] ensures h in After(s, run).mtime {
      assert Sheltered(After(s, run), h);
    }
  }

  // ---- the delay is the exact condition -------------------------------------------------------

  ghost predicate SafeFor(gap: nat) {
    forall s, run :: Init(s) && Legal(gap, s, run) ==> NothingDangles(After(s, run))
  }

  function OldObject(): State {
    State(map[ZERO_HASH := 0], {}, 10, map[0 := {}], map[0 := Resting], Idle)
  }

  /** List, adopt an old object, three seconds later start the sweep, insert, remove. */
  function SlowRun(): seq<Action> {
    [GcBegin, GcLock(0), GcList, Acquire(0, 0), Adopt(0, ZERO_HASH), Tick(3), GcMark({}),
     Insert(0), GcLook(ZERO_HASH), GcRemove]
  }

  /** The states SlowRun passes through. */
  function SlowState(k: nat): State {
    var h := ZERO_HASH;
    var aged, young := map[h := 0], map[h := 10];
    var swept := Sweeping({}, 10, 13, None);
    if k == 0 then OldObject()
    else if k == 1 then State(aged, {}, 10, map[0 := {}], map[0 := Resting], Locking({}))
    else if k == 2 then State(aged, {}, 10, map[0 := {}], map[0 := Resting], Locking({0}))
    else if k == 3 then State(aged, {}, 10, map[0 := {}], map[0 := Resting], Listed({}, 10))
    else if k == 4 then State(aged, {}, 10, map[0 := {}], map[0 := Holding(0)], Listed({}, 10))
    else if k == 5 then State(young, {}, 10, map[0 := {}], map[0 := Published(0, h)], Listed({}, 10))
    else if k == 6 then State(young, {}, 13, map[0 := {}], map[0 := Published(0, h)], Listed({}, 10))
    else if k == 7 then State(young, {}, 13, map[0 := {}], map[0 := Published(0, h)], swept)
    else if k == 8 then State(young, {}, 13, map[0 := {h}], map[0 := Holding(0)], swept)
    else if k == 9 then State(young, {}, 13, map[0 := {h}], map[0 := Holding(0)], swept.(candidate := Some(h)))
    else State(map[], {}, 13, map[0 := {h}], map[0 := Holding(0)], swept)
  }

  lemma SlowStep(gap: nat, k: nat)
    requires gap >= 3 && k < 10
    ensures Enabled(gap, SlowState(k), SlowRun()[k]) && Apply(SlowState(k), SlowRun()[k]) == SlowState(k + 1)
  {
    var s, a, h := SlowState(k), SlowRun()[k], ZERO_HASH;
    if k == 1 {
      assert {} + {0 as Branch} == {0};
    } else if k == 2 {
      assert s.LiveHashes() + s.pending == {};
      assert s.live.Keys == {0};
    } else if k == 3 {
      assert !s.HeldByWriter(0);
      assert s.writers[0 := Holding(0)] == map[0 := Holding(0)];
    } else if k == 4 {
      assert s.mtime[h := 10] == map[h := 10];
      assert s.writers[0 := Published(0, h)] == map[0 := Published(0, h)];
    } else if k == 6 {
      assert s.gc.roots + {} == {};
    } else if k == 7 {
      assert s.live[0] + {h} == {h};
      assert s.live[0 := s.live[0] + {h}] == map[0 := {h}];
      assert s.writers[0 := Holding(0)] == map[0 := Holding(0)];
    } else if k == 9 {
      assert s.mtime - {h} == map[];
    }
  }

  lemma {:induction false} SlowRunFrom(gap: nat, k: nat)
    requires gap >= 3 && k <= 10
    ensures Legal(gap, SlowState(k), SlowRun()[k..]) && After(SlowState(k), SlowRun()[k..]) == SlowState(10)
    decreases 10 - k
  {
    var rest := SlowRun()[k..];
    if k < 10 {
      SlowStep(gap, k);
      SlowRunFrom(gap, k + 1);
      assert rest[0] == SlowRun()[k] && rest[1..] == SlowRun()[k + 1..];
    }
  }

  /** Two seconds are exactly what the fence affords. */
  lemma SafeExactlyWithinTheFence(gap: nat)
    ensures SafeFor(gap) <==> gap <= 2
  {
    if gap <= 2 {
      forall s, run | Init(s) && Legal(gap, s, run) ensures NothingDangles(After(s, run)) {
        NoLiveObjectIsSwept(gap, s, run);
      }
    } else {
      SlowRunFrom(gap, 0);
      assert SlowRun()[0..] == SlowRun();
      assert 0 in SlowState(10).live && ZERO_HASH in SlowState(10).live[0];
      assert !NothingDangles(SlowState(10));
      assert Init(OldObject());
    }
  }
}
