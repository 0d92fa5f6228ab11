/**
 * Concrete checkpoints of two branches that share one store (src/cas/checkpoint.cpp):
 * what the drained hashes of the other branch come to when a ref write fails, and when
 * it succeeds.
 */
module CheckpointRuns {
  import opened Bytes
  import opened CasTypes
  import opened Checkpoint
  import opened Paths
  import opened Rebuild
  import opened Sequences
  import opened TreeCodec
  import opened TreeRoundTrip
  import opened TreeSerialize

  function HashOfByte(n: byte): Hash {
    Hash([n] + seq(31, _ => 0))
  }

  lemma HashesDiffer(n: byte, m: byte)
    requires n != m
    ensures HashOfByte(n) != HashOfByte(m)
  {
    assert HashOfByte(n).bytes[0] == n && HashOfByte(m).bytes[0] == m;
  }

  const NO_FAULTS: Faults := Faults(false, {}, false, {}, {}, false, false)

  // The runs below need five objects: a blob, two directories and two commits.

  const THE_BLOB: Hash := HashOfByte(1)

  /** A tree that holds the blob as its one file. */
  function OneFile(): seq<(string, Entry)> {
    [("/f", Entry(Blob, THE_BLOB, 0))]
  }

  function OneLine(): seq<Line> {
    [Line("f", 0, 0, THE_BLOB)]
  }

  /** Hash functions that tell the empty directory from the one with the file, and the commits of both. */
  function TreeHash(): Hasher {
    body => if body == Encode([]) then HashOfByte(2) else if body == Encode(OneLine()) then HashOfByte(3) else HashOfByte(6)
  }

  function CommitHash(): CommitData -> Hash {
    (cd: CommitData) => if cd.tree == HashOfByte(2) then HashOfByte(4) else if cd.tree == HashOfByte(3) then HashOfByte(5) else HashOfByte(6)
  }

  /** The blob is no tree and no commit. */
  ghost predicate Small(store: ObjectStore)
    reads store
  {
    && Honest(TreeHash(), store.trees) && store.blobs == {THE_BLOB}
    && THE_BLOB !in store.trees && THE_BLOB !in store.commits
  }

  lemma TreesAreNotTheBlob(trees: TreeStore)
    requires Honest(TreeHash(), trees)
    ensures THE_BLOB !in trees
  {
    HashesDiffer(1, 2);
    HashesDiffer(1, 3);
    HashesDiffer(1, 6);
    forall h | h in trees ensures h != THE_BLOB {
      assert TreeHash()(trees[h]) == h;
    }
  }

  lemma CommitsAreNotTheBlob(cd: CommitData)
    ensures CommitHash()(cd) != THE_BLOB
  {
    HashesDiffer(1, 4);
    HashesDiffer(1, 5);
    HashesDiffer(1, 6);
  }

  /** A checkpoint in such a store that meets no fault, but for the ref's. */
  method SmallCheckpoint(store: ObjectStore, refs: Refs, es: seq<(string, Entry)>, branch: string, refFails: bool, ghost bound: nat)
    returns (a: Attempt, ghost written: set<Hash>)
    requires Bounded(DirsOf(es), bound) && Small(store) && store.pending <= store.Present()
    modifies store, refs
    ensures Small(store) && store.pending == {}
    ensures refs.heads == if refFails then old(refs.heads) else old(refs.heads)[branch := a.commit]
    ensures GraphWritten(TreeHash(), CommitHash(), es, Parents(old(refs.heads), branch), "", bound,
                         old(store.trees), store.trees, old(store.commits), store.commits, Some(a.commit), written)
    ensures THE_BLOB in a.ToSync() <==> THE_BLOB in old(store.pending) && THE_BLOB in AllLeaves(es)
    ensures store.disk == old(store.disk).Synced(a.ToSync(), store.Present())
  {
    ghost var trees, commits, pending := store.trees, store.commits, store.pending;
    ghost var parents := Parents(refs.heads, branch);
    var faults := NO_FAULTS.(ref := refFails);
    var commit, attempt, w, drained := CheckpointLocked(TreeHash(), CommitHash(), store, refs, es, "", branch, faults, bound);
    a, written := attempt.value, w;
    SmallGraph(es, parents, bound, trees, store.trees, commits, store.commits, a, written, pending);
    assert faults.SpareSync(a.ToSync());
  }

  lemma SmallGraph(es: seq<(string, Entry)>, parents: seq<Hash>, bound: nat, trees: TreeStore, trees': TreeStore,
                   commits: map<Hash, CommitData>, commits': map<Hash, CommitData>, a: Attempt, written: set<Hash>, pending: set<Hash>)
    requires Bounded(DirsOf(es), bound) && Honest(TreeHash(), trees) && THE_BLOB !in commits
    requires GraphWritten(TreeHash(), CommitHash(), es, parents, "", bound, trees, trees', commits, commits', Some(a.commit), written)
    requires Attempts(Some(a), es, written, pending + NewObjects(trees, trees', commits, commits'))
    ensures Honest(TreeHash(), trees') && THE_BLOB !in trees' && THE_BLOB !in commits'
    ensures THE_BLOB in a.ToSync() <==> THE_BLOB in pending && THE_BLOB in AllLeaves(es)
  {
    TreesAreNotTheBlob(trees');
    CommitsAreNotTheBlob(CommitData(RootHash(TreeHash(), DirsOf(es), bound), parents, ""));
    assert THE_BLOB !in NewObjects(trees, trees', commits, commits');
    assert THE_BLOB !in written;
  }

  /** A sync that leaves h out writes none of its data. */
  lemma NotSynced(disk: Disk, hashes: set<Hash>, present: set<Hash>, h: Hash)
    requires h !in hashes && h !in disk.synced
    ensures h !in disk.Synced(hashes, present).synced && !disk.Synced(hashes, present).Durable(h)
  {}

  /** The one blob is pending, for another branch than the next to be checkpointed. */
  predicate BlobWaits(store: ObjectStore)
    reads store
  {
    store.pending == {THE_BLOB} && THE_BLOB !in store.disk.synced
  }

  method BlobStore() returns (store: ObjectStore)
    ensures fresh(store) && Small(store) && BlobWaits(store) && store.commits == map[]
  {
    store := new ObjectStore({THE_BLOB}, {THE_BLOB});
  }

  /**
   * The checkpoint of an empty branch in such a store: the blob is neither pending nor
   * durable afterwards, whether the ref is written or not.
   */
  method EmptyCheckpoint(store: ObjectStore, refs: Refs, refFails: bool) returns (h: Hash)
    requires Small(store) && BlobWaits(store)
    modifies store, refs
    ensures Small(store) && store.pending == {} && THE_BLOB !in store.disk.synced
    ensures h == HashOfByte(4) && store.commits.Keys == old(store.commits).Keys + {h}
    ensures refs.heads == if refFails then old(refs.heads) else old(refs.heads)["a" := h]
  {
    ghost var disk := store.disk;
    ghost var bound: nat := 0;
    var a, written := SmallCheckpoint(store, refs, [], "a", refFails, bound);
    h := a.commit;
    NotSynced(disk, a.ToSync(), store.Present(), THE_BLOB);
  }

  /** A failed ref write loses what was pending for another branch. */
  method FailedRefLosesHashes(store: ObjectStore, refs: Refs)
    requires Small(store) && BlobWaits(store)
    modifies store, refs
    ensures refs.heads == old(refs.heads)
    ensures THE_BLOB in store.blobs && THE_BLOB !in store.pending && !store.disk.Durable(THE_BLOB)
  {
    var _ := EmptyCheckpoint(store, refs, true);
  }

  lemma OneFilePaths()
    ensures Split("/f") == ("/", "f") && !Skipped("/f", Entry(Blob, THE_BLOB, 0)) && ChildPath("/", "f") == "/f"
  {
    assert "/f"[..1] == "/";
    assert LastSlash("/f") == 0;
    assert THE_BLOB.bytes[0] == 1 && ZERO_HASH.bytes[0] == 0;
  }

  /** Its only directory holds exactly the line of the file. */
  lemma OneFileDirs()
    ensures DirsOf(OneFile()) == map["/" := OneLine()] && Bounded(DirsOf(OneFile()), 1)
  {
    OneFilePaths();
    var es, empty := OneFile(), [];
    assert es[..|es| - 1] == empty;
    assert Collect(empty) == map[] && [] + OneLine() == OneLine();
    assert Collect(es) == AddChild(Collect(empty), "/f", Entry(Blob, THE_BLOB, 0));
    assert Collect(es) == map["/" := OneLine()];
    assert WithEmpty(Collect(es), empty) == Collect(es);
    assert WithEmpty(Collect(es), es) == Collect(es);
  }

  lemma OneFileBody()
    requires Bounded(DirsOf(OneFile()), 1) && "/" in DirsOf(OneFile())
    ensures DirLines(TreeHash(), DirsOf(OneFile()), 1, "/") == OneLine()
    ensures RootHash(TreeHash(), DirsOf(OneFile()), 1) == HashOfByte(3)
  {
    OneFileDirs();
    assert DirLines(TreeHash(), DirsOf(OneFile()), 1, "/") == OneLine();
    assert |Encode(OneLine())| > |Encode([])|;
  }

  /** The hash functions tell everything apart that these runs write. */
  lemma NothingCollides(trees: TreeStore)
    ensures Bounded(DirsOf(OneFile()), 1) && NoCollision(TreeHash(), DirsOf(OneFile()), 1, trees)
  {
    OneFileDirs();
    OneFileBody();
    HashesDiffer(2, 3);
    HashesDiffer(2, 6);
    HashesDiffer(3, 6);
    assert TreeHash()(Encode([])) == HashOfByte(2);
  }

  /** The directory with the file, once stored, rebuilds to the tree with the file. */
  lemma OneFileRebuilds(trees: TreeStore)
    requires Honest(TreeHash(), trees) && HashOfByte(3) in trees
    ensures RebuildsTo(ReaderOf(trees), HashOfByte(3), map["/f" := Entry(Blob, THE_BLOB, 0)])
  {
    var h, read := HashOfByte(3), ReaderOf(trees);
    HashesDiffer(3, 2);
    HashesDiffer(3, 6);
    assert TreeHash()(trees[h]) == h;
    ReadsSorted(trees, h, OneLine());
    assert Sort(OneLine()) == OneLine();
    var e := TreeEntry("f", 0, Blob, THE_BLOB);
    assert MapAll(EntryOfLine, OneLine()) == [e];
    StepPops(read, [], DirWork(h, "/"), map[], [e]);
    assert [] + [DirWork(h, "/")] == [DirWork(h, "/")];
    OneFilePaths();
    assert AddEntries([e], "/", Running([], map[])) == Running([], map["/f" := Entry(Blob, THE_BLOB, 0)]);
    ReachesStep(read, Start(h));
  }

  /** The checkpoint of the second branch, when nothing is pending and its file was never synced. */
  method FileCheckpoint(store: ObjectStore, refs: Refs) returns (h: Hash)
    requires Small(store) && store.pending == {} && THE_BLOB !in store.disk.synced
    requires "b" !in refs.heads && HashOfByte(5) !in store.commits
    modifies store, refs
    ensures Small(store) && store.pending == {} && !store.disk.Durable(THE_BLOB)
    ensures h == HashOfByte(5) && refs.heads == old(refs.heads)["b" := h]
    ensures h in store.commits && store.commits[h] == CommitData(HashOfByte(3), [], "") && HashOfByte(3) in store.trees
  {
    ghost var disk := store.disk;
    OneFileDirs();
    var b, written := SmallCheckpoint(store, refs, OneFile(), "b", false, 1);
    h := b.commit;
    OneFileBody();
    HashesDiffer(2, 3);
    NotSynced(disk, b.ToSync(), store.Present(), THE_BLOB);
  }

  /**
   * Two branches share the store.  The checkpoint of the first drains the blob, which
   * only the second one's tree holds; the checkpoint of the second then moves its ref to
   * a commit of its own whose tree rebuilds to a file with this blob, and the blob is
   * neither durable nor pending.
   */
  method TwoBranchRun() returns (store: ObjectStore, refs: Refs)
    ensures "a" in refs.heads && "b" in refs.heads && refs.heads["a"] != refs.heads["b"]
    ensures refs.heads["b"] in store.commits
    ensures RebuildsTo(ReaderOf(store.trees), store.commits[refs.heads["b"]].tree, map["/f" := Entry(Blob, THE_BLOB, 0)])
    ensures THE_BLOB in store.blobs && THE_BLOB !in store.pending && !store.disk.Durable(THE_BLOB)
    ensures Bounded(DirsOf(OneFile()), 1) && NoCollision(TreeHash(), DirsOf(OneFile()), 1, store.trees)
  {
    store := BlobStore();
    refs := new Refs();
    var h := EmptyCheckpoint(store, refs, false);
    HashesDiffer(4, 5);
    var _ := FileCheckpoint(store, refs);
    OneFileRebuilds(store.trees);
    NothingCollides(store.trees);
  }
}
