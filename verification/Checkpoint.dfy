/**
 * Publishing a checkpoint (src/cas/checkpoint.cpp, src/cas/object_store.cpp): the tree
 * and the commit are written, everything pending that belongs to them is synced, and
 * only then the branch's ref moves.
 */
module Checkpoint {
  import opened CasTypes
  import opened Rebuild
  import opened TreeCodec
  import opened TreeSerialize
  import opened TreeRoundTrip

  /** Objects are spread over directories by the first byte of their hash. */
  function Shard(h: Hash): byte {
    h.bytes[0]
  }

  function Shards(hashes: set<Hash>): set<byte> {
    set h | h in hashes :: Shard(h)
  }

  /** An object survives a crash once its data, its directory's entry and that directory are synced. */
  datatype Disk = Disk(synced: set<Hash>, listed: set<Hash>, shards: set<byte>)
  {
    predicate Durable(h: Hash) {
      h in synced && h in listed && Shard(h) in shards
    }

    /** After syncing some of the objects present, their directories and the directory above. */
    function Synced(hashes: set<Hash>, present: set<Hash>): Disk {
      if hashes == {} then this
      else Disk(synced + hashes, listed + (set h | h in present && Shard(h) in Shards(hashes)), shards + Shards(present))
    }

    /** What such a sync makes durable besides its own objects: data that was synced before. */
    predicate Settled(hashes: set<Hash>, present: set<Hash>, h: Hash) {
      || Durable(h)
      || (h in synced && hashes != {} && (h in listed || (h in present && Shard(h) in Shards(hashes)))
          && (Shard(h) in shards || Shard(h) in Shards(present)))
    }
  }

  /** A sync makes durable its own objects and what was settled, and nothing else. */
  lemma DurableExactly(disk: Disk, hashes: set<Hash>, present: set<Hash>, h: Hash)
    requires hashes <= present
    ensures disk.Synced(hashes, present).Durable(h) <==> h in hashes || disk.Settled(hashes, present, h)
  {
    if h in hashes {
      assert Shard(h) in Shards(hashes) && Shard(h) in Shards(present);
    }
  }

  /** Where a checkpoint's outside steps fail; `root` is the directory above the shards. */
  datatype Faults = Faults(flush: bool, trees: set<nat>, commit: bool, files: set<Hash>, shards: set<byte>, root: bool, ref: bool)
  {
    /** The sync of these objects meets no fault; nothing to sync cannot fail. */
    predicate SpareSync(hashes: set<Hash>) {
      hashes !! files && (hashes == {} || (Shards(hashes) !! shards && !root))
    }

    ghost predicate SpareGraph(dirs: Dirs) {
      !flush && NoneFails(trees, TreeWrites(dirs)) && !commit
    }
  }

  class ObjectStore {
    var trees: TreeStore
    var blobs: set<Hash>
    var commits: map<Hash, CommitData>
    var pending: set<Hash>
    var disk: Disk

    constructor (blobs: set<Hash>, pending: set<Hash>)
      ensures trees == map[] && commits == map[] && this.blobs == blobs && this.pending == pending
      ensures disk == Disk({}, {}, {})
    {
      trees, commits, this.blobs, this.pending := map[], map[], blobs, pending;
      disk := Disk({}, {}, {});
    }

    ghost function Present(): set<Hash>
      reads this
    {
      trees.Keys + blobs + commits.Keys
    }

    /** Safe to reference: on disk for good, or known to be on its way. */
    predicate SafeObject(h: Hash)
      reads this
    {
      disk.Durable(h) || h in pending
    }

    method DrainPending() returns (drained: set<Hash>)
      modifies this`pending
      ensures drained == old(pending) && pending == {}
    {
      drained := pending;
      pending := {};
    }

    method RestorePending(hashes: set<Hash>)
      modifies this`pending
      ensures pending == old(pending) + hashes
    {
      pending := pending + hashes;
    }

    /** Syncs file by file and gives up at the first failure. */
    method FsyncObjects(hashes: set<Hash>, faults: set<Hash>) returns (ok: bool)
      modifies this`disk
      ensures ok <==> hashes !! faults
      ensures ok ==> disk == old(disk).(synced := old(disk).synced + hashes)
      ensures disk.listed == old(disk).listed && old(disk).synced <= disk.synced <= old(disk).synced + hashes
    {
      var rest := hashes;
      while rest != {}
        invariant rest <= hashes && (hashes - rest) !! faults
        invariant disk == old(disk).(synced := old(disk).synced + (hashes - rest))
        decreases rest
      {
        var h :| h in rest;
        if h in faults {
          assert h in hashes;
          return false;
        }
        disk := disk.(synced := disk.synced + {h});
        rest := rest - {h};
      }
      ok := true;
    }

    /** Syncs each shard directory once, which persists all its entries, and then the directory above them. */
    method FsyncShardDirs(hashes: set<Hash>, faults: set<byte>, rootFault: bool) returns (ok: bool)
      modifies this`disk
      ensures ok <==> hashes == {} || (Shards(hashes) !! faults && !rootFault)
      ensures ok ==> disk == if hashes == {} then old(disk) else
        Disk(old(disk).synced, old(disk).listed + (set h | h in Present() && Shard(h) in Shards(hashes)), old(disk).shards + Shards(Present()))
      ensures disk.synced == old(disk).synced && old(disk).listed <= disk.listed && old(disk).shards <= disk.shards
    {
      var shards := Shards(hashes);
      if shards == {} {
        NoShards(hashes);
        return true;
      }
      var present := trees.Keys + blobs + commits.Keys;
      var rest := shards;
      while rest != {}
        invariant rest <= shards && (shards - rest) !! faults
        invariant disk == old(disk).(listed := old(disk).listed + (set h | h in present && Shard(h) in shards - rest))
        decreases rest
      {
        var s :| s in rest;
        if s in faults {
          return false;
        }
        disk := disk.(listed := disk.listed + set h | h in present && Shard(h) == s);
        rest := rest - {s};
      }
      if rootFault {
        return false;
      }
      disk := disk.(shards := disk.shards + Shards(present));
      ok := true;
    }

    /**
     * Drains, syncs what is referenced, and puts everything back on failure.  On success
     * a referenced object is durable if it was durable or pending, and an object that was
     * neither synced nor pending is not.
     */
    method SyncReferenced(referenced: set<Hash>, faults: Faults) returns (ok: bool)
      requires pending <= Present()
      modifies this`pending, this`disk
      ensures ok <==> faults.SpareSync(old(pending) * referenced)
      ensures ok ==> disk == old(disk).Synced(old(pending) * referenced, Present())
      ensures pending == if ok then {} else old(pending)
      ensures forall h | h !in old(disk).synced && h !in old(pending) :: !disk.Durable(h)
    {
      var drained := DrainPending();
      var toSync := drained * referenced;
      ok := FsyncObjects(toSync, faults.files);
      if !ok {
        RestorePending(drained);
        return;
      }
      ok := FsyncShardDirs(toSync, faults.shards, faults.root);
      if !ok {
        RestorePending(drained);
      }
    }

    /** New tree objects are pending; adopted ones are left as they are. */
    method WriteTrees(hashOf: Hasher, es: seq<(string, Entry)>, faulty: set<nat>, ghost bound: nat)
      returns (root: Option<Hash>, written: set<Hash>)
      requires Bounded(DirsOf(es), bound)
      modifies this`trees, this`pending
      ensures Extends(old(trees), trees) && (Honest(hashOf, old(trees)) ==> Honest(hashOf, trees))
      ensures pending == old(pending) + (trees.Keys - old(trees).Keys)
      ensures root.Some? ==> root.value == RootHash(hashOf, DirsOf(es), bound) && root.value in written
      ensures root.Some? ==> Written(hashOf, DirsOf(es), bound, trees, written)
      ensures root.Some? <==> NoneFails(faulty, TreeWrites(DirsOf(es)))
    {
      var trees';
      root, trees', written := SerializeWorkingTree(hashOf, es, trees, faulty, bound);
      pending := pending + (trees'.Keys - trees.Keys);
      trees := trees';
    }

    method WriteCommit(h: Hash, cd: CommitData)
      modifies this`commits, this`pending
      ensures h in commits && commits == (if h in old(commits) then old(commits) else old(commits)[h := cd])
      ensures pending == if h in old(commits) then old(pending) else old(pending) + {h}
    {
      if h !in commits {
        commits := commits[h := cd];
        pending := pending + {h};
      }
    }
  }

  lemma NoShards(hashes: set<Hash>)
    ensures Shards(hashes) == {} <==> hashes == {}
  {
    if h :| h in hashes {
      assert Shard(h) in Shards(hashes);
    }
  }

  class Refs {
    var heads: map<string, Hash>

    constructor ()
      ensures heads == map[]
    {
      heads := map[];
    }
  }

  /** The leaves a checkpoint refers to. */
  function AllLeaves(es: seq<(string, Entry)>): set<Hash> {
    set x | x in es && IsLeaf(x.1.kind) && x.1.hash != ZERO_HASH :: x.1.hash
  }

  /** The trees and commits that are new. */
  function NewObjects(trees: TreeStore, trees': TreeStore, commits: map<Hash, CommitData>, commits': map<Hash, CommitData>): set<Hash> {
    (trees'.Keys - trees.Keys) + (commits'.Keys - commits.Keys)
  }

  /** A checkpoint that has written its graph: what it refers to and what it drains. */
  datatype Attempt = Attempt(commit: Hash, referenced: set<Hash>, drained: set<Hash>)
  {
    function ToSync(): set<Hash> {
      drained * referenced
    }
  }

  /** What writing the graph does to the store. */
  ghost predicate GraphWritten(hashOf: Hasher, commitHashOf: CommitData -> Hash, es: seq<(string, Entry)>, parents: seq<Hash>,
                               commitLabel: string, bound: nat, trees: TreeStore, trees': TreeStore,
                               commits: map<Hash, CommitData>, commits': map<Hash, CommitData>,
                               commit: Option<Hash>, written: set<Hash>)
    requires Bounded(DirsOf(es), bound)
  {
    var cd := CommitData(RootHash(hashOf, DirsOf(es), bound), parents, commitLabel);
    && Extends(trees, trees') && (Honest(hashOf, trees) ==> Honest(hashOf, trees'))
    && (commit.Some? ==>
          && commit.value == commitHashOf(cd) && cd.tree in written && Written(hashOf, DirsOf(es), bound, trees', written)
          && commits' == if commit.value in commits then commits else commits[commit.value := cd])
    && (commit.None? ==> commits' == commits)
  }

  /** Writes the trees and the commit; what is new is pending. */
  method WriteGraph(hashOf: Hasher, commitHashOf: CommitData -> Hash, store: ObjectStore, es: seq<(string, Entry)>,
                    parents: seq<Hash>, commitLabel: string, faults: Faults, ghost bound: nat)
    returns (commit: Option<Hash>, written: set<Hash>)
    requires Bounded(DirsOf(es), bound) && store.pending <= store.Present()
    modifies store`trees, store`commits, store`pending
    ensures commit.Some? <==> NoneFails(faults.trees, TreeWrites(DirsOf(es))) && !faults.commit
    ensures GraphWritten(hashOf, commitHashOf, es, parents, commitLabel, bound,
                         old(store.trees), store.trees, old(store.commits), store.commits, commit, written)
    ensures store.pending == old(store.pending) + NewObjects(old(store.trees), store.trees, old(store.commits), store.commits)
    ensures store.pending <= store.Present()
  {
    var root;
    root, written := store.WriteTrees(hashOf, es, faults.trees, bound);
    if root.None? || faults.commit {
      return None, written;
    }
    var cd := CommitData(root.value, parents, commitLabel);
    commit := Some(commitHashOf(cd));
    ghost var trees, pending := store.trees, store.pending;
    store.WriteCommit(commit.value, cd);
    NewIsPending(old(store.trees), trees, old(store.commits), store.commits, old(store.pending), pending, commit.value);
  }

  lemma NewIsPending(trees: TreeStore, trees': TreeStore, commits: map<Hash, CommitData>, commits': map<Hash, CommitData>,
                     pending: set<Hash>, pending': set<Hash>, h: Hash)
    requires pending' == pending + (trees'.Keys - trees.Keys) && commits'.Keys == commits.Keys + {h}
    ensures (if h in commits then pending' else pending' + {h}) == pending + NewObjects(trees, trees', commits, commits')
  {}

  /** The sync of what the commit refers to, and the ref. */
  method Publish(store: ObjectStore, refs: Refs, a: Attempt, branch: string, faults: Faults) returns (ok: bool)
    requires a.drained == store.pending <= store.Present()
    modifies store`pending, store`disk, refs
    ensures ok <==> faults.SpareSync(a.ToSync()) && !faults.ref
    ensures refs.heads == if ok then old(refs.heads)[branch := a.commit] else old(refs.heads)
    ensures store.pending == if faults.SpareSync(a.ToSync()) then {} else old(store.pending)
    ensures faults.SpareSync(a.ToSync()) ==> store.disk == old(store.disk).Synced(a.ToSync(), store.Present())
  {
    ok := store.SyncReferenced(a.referenced, faults);
    if !ok || faults.ref {
      return false;
    }
    refs.heads := refs.heads[branch := a.commit];
  }

  /** The attempt, if there is one, syncs everything it has to and comes to writing the ref. */
  predicate ReachesRef(attempt: Option<Attempt>, faults: Faults) {
    attempt.Some? && faults.SpareSync(attempt.value.ToSync())
  }

  function Parents(heads: map<string, Hash>, branch: string): seq<Hash> {
    if branch in heads then [heads[branch]] else []
  }

  function CommitOf(attempt: Option<Attempt>): Option<Hash> {
    if attempt.Some? then Some(attempt.value.commit) else None
  }

  /** What a checkpoint refers to once its graph is written, and what it drains then. */
  ghost predicate Attempts(attempt: Option<Attempt>, es: seq<(string, Entry)>, written: set<Hash>, drained: set<Hash>) {
    attempt.Some? ==>
      attempt.value.referenced == AllLeaves(es) + written + {attempt.value.commit} && attempt.value.drained == drained
  }

  /** The steps before anything is synced: open files, trees, commit. */
  method Prepare(hashOf: Hasher, commitHashOf: CommitData -> Hash, store: ObjectStore, es: seq<(string, Entry)>,
                 parents: seq<Hash>, commitLabel: string, faults: Faults, ghost bound: nat)
    returns (attempt: Option<Attempt>, ghost written: set<Hash>)
    requires Bounded(DirsOf(es), bound) && store.pending <= store.Present()
    modifies store`trees, store`commits, store`pending
    ensures attempt.Some? <==> faults.SpareGraph(DirsOf(es))
    ensures GraphWritten(hashOf, commitHashOf, es, parents, commitLabel, bound,
                         old(store.trees), store.trees, old(store.commits), store.commits, CommitOf(attempt), written)
    ensures Attempts(attempt, es, written, store.pending) && store.pending <= store.Present()
    ensures store.pending == old(store.pending) + NewObjects(old(store.trees), store.trees, old(store.commits), store.commits)
  {
    attempt, written := None, {};
    if faults.flush {
      return;
    }
    var h, w := WriteGraph(hashOf, commitHashOf, store, es, parents, commitLabel, faults, bound);
    written := w;
    if h.Some? {
      attempt := Some(Attempt(h.value, AllLeaves(es) + w + {h.value}, store.pending));
    }
  }

  /**
   * The ref moves only at the very end, and then everything the commit refers to is
   * durable, provided that what was already there was durable or pending.  It moves
   * exactly when no step that is taken fails.  Whatever was pending stays so exactly
   * when the ref was not reached: once it is, everything drained is forgotten, whether
   * the ref can be written or not.
   */
  method CheckpointLocked(hashOf: Hasher, commitHashOf: CommitData -> Hash, store: ObjectStore, refs: Refs,
                          es: seq<(string, Entry)>, commitLabel: string, branch: string, faults: Faults, ghost bound: nat)
    returns (commit: Option<Hash>, attempt: Option<Attempt>, ghost written: set<Hash>, ghost drained: set<Hash>)
    requires Bounded(DirsOf(es), bound) && store.pending <= store.Present()
    modifies store, refs
    ensures attempt.Some? <==> faults.SpareGraph(DirsOf(es))
    ensures commit == if ReachesRef(attempt, faults) && !faults.ref then Some(attempt.value.commit) else None
    ensures refs.heads == if commit.Some? then old(refs.heads)[branch := commit.value] else old(refs.heads)
    ensures store.blobs == old(store.blobs)
    ensures GraphWritten(hashOf, commitHashOf, es, Parents(old(refs.heads), branch), commitLabel, bound,
                         old(store.trees), store.trees, old(store.commits), store.commits, CommitOf(attempt), written)
    ensures drained == old(store.pending) + NewObjects(old(store.trees), store.trees, old(store.commits), store.commits)
    ensures Attempts(attempt, es, written, drained) && drained <= store.Present()
    ensures store.pending == if ReachesRef(attempt, faults) then {} else drained
    ensures old(store.pending) <= store.pending <==> !ReachesRef(attempt, faults) || old(store.pending) == {}
    ensures ReachesRef(attempt, faults) ==> store.disk == old(store.disk).Synced(attempt.value.ToSync(), store.Present())
    ensures commit.Some? && (forall h | h in attempt.value.referenced :: old(store.SafeObject(h)) || h in drained) ==>
      forall h | h in attempt.value.referenced :: store.disk.Durable(h)
    ensures commit.Some? ==> forall h | h in attempt.value.referenced ::
      store.disk.Durable(h) <==> h in drained || old(store.disk).Settled(attempt.value.ToSync(), store.Present(), h)
  {
    commit := None;
    attempt, written := Prepare(hashOf, commitHashOf, store, es, Parents(refs.heads, branch), commitLabel, faults, bound);
    drained := store.pending;
    if attempt.None? {
      return;
    }
    SafeIsDurable(store.disk, attempt.value, store.Present());
    var ok := Publish(store, refs, attempt.value, branch, faults);
    if ok {
      commit := Some(attempt.value.commit);
    }
  }

  lemma SafeIsDurable(disk: Disk, a: Attempt, present: set<Hash>)
    requires a.drained <= present
    ensures forall h | h in a.referenced ::
      disk.Synced(a.ToSync(), present).Durable(h) <==> h in a.drained || disk.Settled(a.ToSync(), present, h)
  {
    forall h | h in a.referenced
      ensures disk.Synced(a.ToSync(), present).Durable(h) <==> h in a.drained || disk.Settled(a.ToSync(), present, h)
    {
      DurableExactly(disk, a.ToSync(), present, h);
    }
  }

  // ---- what draining costs -------------------------------------------------------------------

  /**
   * After a checkpoint that reached its ref the commit's graph is durable exactly when
   * every object of it was drained or settled; what was drained but is not part of the
   * graph is durable exactly when it was settled, and is no longer pending.
   */
  lemma DrainedExactly(disk: Disk, a: Attempt, present: set<Hash>)
    requires a.drained <= present
    ensures (forall h | h in a.referenced :: disk.Synced(a.ToSync(), present).Durable(h)) <==>
            (forall h | h in a.referenced :: h in a.drained || disk.Settled(a.ToSync(), present, h))
    ensures forall h | h in a.drained - a.referenced ::
      disk.Synced(a.ToSync(), present).Durable(h) <==> disk.Settled(a.ToSync(), present, h)
  {
    SafeIsDurable(disk, a, present);
    forall h | h in a.drained - a.referenced
      ensures disk.Synced(a.ToSync(), present).Durable(h) <==> disk.Settled(a.ToSync(), present, h)
    {
      DurableExactly(disk, a.ToSync(), present, h);
    }
  }

  // ---- the graph of the new commit ---------------------------------------------------------------

  /** The hashes of the directories that the root leads to. */
  ghost function TreeSet(hashOf: Hasher, dirs: Dirs, bound: nat, raw: Raw): set<Hash>
    requires Bounded(dirs, bound)
  {
    set d | d in dirs && IsDir(raw, d) :: DirHash(hashOf, dirs, bound, d)
  }

  /** The directories that the root leads to and the leaves are closed: nothing in them leads elsewhere. */
  lemma GraphIsCovered(hashOf: Hasher, es: seq<(string, Entry)>, bound: nat, raw: Raw, store: TreeStore, written: set<Hash>)
    requires Setting(hashOf, es, bound, raw) && Honest(hashOf, store) && NoCollision(hashOf, DirsOf(es), bound, store)
    requires Written(hashOf, DirsOf(es), bound, store, written)
    ensures Inside(ReaderOf(store), TreeSet(hashOf, DirsOf(es), bound, raw), AllLeaves(es))
    ensures TreeSet(hashOf, DirsOf(es), bound, raw) <= written
  {
    forall t | t in TreeSet(hashOf, DirsOf(es), bound, raw)
      ensures ReadDir(store, t).Some? && forall i :: 0 <= i < |ReadDir(store, t).value| ==>
        Covered(ReadDir(store, t).value[i], TreeSet(hashOf, DirsOf(es), bound, raw), AllLeaves(es))
    {
      var d :| d in DirsOf(es) && IsDir(raw, d) && t == DirHash(hashOf, DirsOf(es), bound, d);
      DirReadsBack(hashOf, es, bound, raw, d, store);
      forall i | 0 <= i < |ReadDir(store, t).value|
        ensures Covered(ReadDir(store, t).value[i], TreeSet(hashOf, DirsOf(es), bound, raw), AllLeaves(es))
      {
        EntryIsCovered(hashOf, es, bound, raw, d, ReadDir(store, t).value[i]);
      }
    }
  }

  lemma EntryIsCovered(hashOf: Hasher, es: seq<(string, Entry)>, bound: nat, raw: Raw, d: string, e: TreeEntry)
    requires Setting(hashOf, es, bound, raw) && RightEntry(Full(hashOf, DirsOf(es), bound, raw), d, e)
    ensures Covered(e, TreeSet(hashOf, DirsOf(es), bound, raw), AllLeaves(es))
  {
    var p := ChildPath(d, e.name);
    assert Reached(raw, p);
    var k :| 0 <= k < |es| && es[k].0 == p;
    assert es[k] in es;
    DirsAreTrees(hashOf, es, bound, raw, p);
  }

  /** Whatever a rebuild of the new commit's tree touches is durable. */
  lemma RebuildTouchesDurable(hashOf: Hasher, es: seq<(string, Entry)>, bound: nat, raw: Raw, store: TreeStore, written: set<Hash>,
                              disk: Disk, n: nat)
    requires Setting(hashOf, es, bound, raw) && Honest(hashOf, store) && NoCollision(hashOf, DirsOf(es), bound, store)
    requires Written(hashOf, DirsOf(es), bound, store, written) && "/" in DirsOf(es)
    requires forall h | h in AllLeaves(es) + written :: disk.Durable(h)
    ensures var st := Steps(ReaderOf(store), Start(RootHash(hashOf, DirsOf(es), bound)), n); st.Running? ==>
      && (forall i :: 0 <= i < |st.stack| ==> disk.Durable(st.stack[i].hash))
      && (forall p | p in st.scratch && IsLeaf(st.scratch[p].kind) && st.scratch[p].hash != ZERO_HASH :: disk.Durable(st.scratch[p].hash))
  {
    GraphIsCovered(hashOf, es, bound, raw, store, written);
    StepsInside(ReaderOf(store), RootHash(hashOf, DirsOf(es), bound), n, TreeSet(hashOf, DirsOf(es), bound, raw), AllLeaves(es));
  }
}
