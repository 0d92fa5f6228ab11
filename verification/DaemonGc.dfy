/**
 * A collection as the daemon runs it (src/cas/daemon.cpp): the roots are gathered from
 * every branch's tree, every open file, the pending publications and the runtimes.
 */
module DaemonGc {
  import opened CasTypes
  import opened FileHandle
  import opened GcGraph
  import opened GcRun
  import Spec = WorkingTreeSpec
  import Trees = WorkingTree

  datatype BranchContext = BranchContext(name: string, wt: Trees.WorkingTree)

  predicate LeafWith(e: Entry, h: Hash) {
    (e.kind.Blob? || e.kind.Symlink?) && e.hash == h && h != ZERO_HASH
  }

  /** Some path of the tree holds h as a blob or a link. */
  ghost predicate PointsTo(t: Spec.Wt, h: Hash) {
    exists p :: p in t.Raw() && LeafWith(t.Raw()[p], h)
  }

  ghost predicate AllValid(branches: seq<BranchContext>)
    reads set b | b in branches :: b.wt, set b | b in branches && b.wt.base != null :: b.wt.base
  {
    forall b | b in branches :: b.wt.Valid()
  }

  ghost predicate TreesPointTo(branches: seq<BranchContext>, h: Hash)
    reads set b | b in branches :: b.wt, set b | b in branches && b.wt.base != null :: b.wt.base
  {
    exists i :: 0 <= i < |branches| && PointsTo(branches[i].wt.V(), h)
  }

  /** The leaves of one branch, of both layers. */
  method LeafHashes(wt: Trees.WorkingTree) returns (hashes: seq<Hash>)
    requires wt.Valid()
    ensures forall h :: h in hashes <==> PointsTo(wt.V(), h)
  {
    var all := wt.MergedForEach();
    hashes := [];
    var i: nat := 0;
    while i < |all|
      invariant i <= |all|
      invariant forall h :: h in hashes <==> ListedBefore(all, i, h)
    {
      var e := all[i].1;
      if (e.kind.Blob? || e.kind.Symlink?) && e.hash != ZERO_HASH {
        hashes := hashes + [e.hash];
      }
      i := i + 1;
    }
    forall h ensures h in hashes <==> PointsTo(wt.V(), h) {
      ListedIsPointedTo(all, wt.V(), h);
    }
  }

  ghost predicate ListedBefore(all: seq<(string, Entry)>, n: nat, h: Hash) {
    exists i :: 0 <= i < n && i < |all| && LeafWith(all[i].1, h)
  }

  lemma ListedIsPointedTo(all: seq<(string, Entry)>, t: Spec.Wt, h: Hash)
    requires Trees.Lists(all, t, "", false, true)
    ensures ListedBefore(all, |all|, h) <==> PointsTo(t, h)
  {
    if ListedBefore(all, |all|, h) {
      var i :| 0 <= i < |all| && LeafWith(all[i].1, h);
      assert (all[i].0, all[i].1) in all;
      Spec.RawIsLookup(t, all[i].0);
    }
    if PointsTo(t, h) {
      var p :| p in t.Raw() && LeafWith(t.Raw()[p], h);
      Spec.RawIsLookup(t, p);
      assert (p, t.Raw()[p]) in all;
    }
  }

  method TreeHashes(branches: seq<BranchContext>) returns (names: seq<string>, hashes: seq<Hash>)
    requires AllValid(branches)
    ensures |names| == |branches| && forall i :: 0 <= i < |branches| ==> names[i] == branches[i].name
    ensures forall h :: h in hashes <==> TreesPointTo(branches, h)
  {
    names, hashes := [], [];
    var i: nat := 0;
    while i < |branches|
      invariant i <= |branches| && |names| == i
      invariant forall k :: 0 <= k < i ==> names[k] == branches[k].name
      invariant forall h :: h in hashes <==> exists k :: 0 <= k < i && PointsTo(branches[k].wt.V(), h)
    {
      names := names + [branches[i].name];
      assert branches[i] in branches;
      var leaves := LeafHashes(branches[i].wt);
      hashes := hashes + leaves;
      i := i + 1;
    }
  }

  /** The base blobs and the pinned commits of the open files. */
  method HandleHashes(table: seq<FhState>) returns (blobs: seq<Hash>, pinned: seq<Hash>)
    ensures forall h :: h in blobs <==> h != ZERO_HASH && exists i :: 0 <= i < |table| && table[i].baseBlob == h
    ensures forall h :: h in pinned <==> h != ZERO_HASH && exists i :: 0 <= i < |table| && table[i].pinnedCommit == h
  {
    blobs, pinned := [], [];
    var i: nat := 0;
    while i < |table|
      invariant i <= |table|
      invariant forall h :: h in blobs <==> h != ZERO_HASH && exists k :: 0 <= k < i && table[k].baseBlob == h
      invariant forall h :: h in pinned <==> h != ZERO_HASH && exists k :: 0 <= k < i && table[k].pinnedCommit == h
    {
      if table[i].baseBlob != ZERO_HASH {
        blobs := blobs + [table[i].baseBlob];
      }
      if table[i].pinnedCommit != ZERO_HASH {
        pinned := pinned + [table[i].pinnedCommit];
      }
      i := i + 1;
    }
  }

  method UnionStates(unionStateIds: seq<string>, parseHex: string -> Option<Hash>) returns (ids: seq<Hash>)
    ensures forall h :: h in ids <==>
      exists i :: 0 <= i < |unionStateIds| && |unionStateIds[i]| == 64 && parseHex(unionStateIds[i]) == Some(h)
  {
    ids := [];
    var i: nat := 0;
    while i < |unionStateIds|
      invariant i <= |unionStateIds|
      invariant forall h :: h in ids <==>
        exists k :: 0 <= k < i && |unionStateIds[k]| == 64 && parseHex(unionStateIds[k]) == Some(h)
    {
      var text := unionStateIds[i];
      if |text| == 64 && parseHex(text).Some? {
        ids := ids + [parseHex(text).value];
      }
      i := i + 1;
    }
  }

  method PendingSnapshot(pending: set<Hash>) returns (hashes: seq<Hash>)
    ensures forall h :: h in hashes <==> h in pending
  {
    hashes := [];
    var rest := pending;
    while rest != {}
      invariant rest <= pending && forall h :: h in hashes <==> h in pending - rest
      decreases rest
    {
      var h :| h in rest;
      hashes := hashes + [h];
      rest := rest - {h};
    }
  }

  /** What the daemon holds that no ref names. */
  ghost predicate Live(branches: seq<BranchContext>, table: seq<FhState>, pending: set<Hash>, h: Hash)
    reads set b | b in branches :: b.wt, set b | b in branches && b.wt.base != null :: b.wt.base
    reads set i | 0 <= i < |table| :: table[i]
  {
    || TreesPointTo(branches, h) || h in pending
    || (h != ZERO_HASH && exists i :: 0 <= i < |table| && (table[i].baseBlob == h || table[i].pinnedCommit == h))
  }

  /** refs and stateRefs are what listing the durable refs will give. */
  method CollectLiveRoots(branches: seq<BranchContext>, table: seq<FhState>, pending: set<Hash>,
                          unionStateIds: seq<string>, parseHex: string -> Option<Hash>,
                          refs: Option<seq<(string, Option<Hash>)>>, stateRefs: seq<Option<Hash>>) returns (r: Roots)
    requires AllValid(branches)
    ensures r.refs == refs && r.stateRefs == stateRefs
    ensures |r.expectedBranchRefs| == |branches| && forall i :: 0 <= i < |branches| ==> r.expectedBranchRefs[i] == branches[i].name
    ensures forall h :: Live(branches, table, pending, h) <==>
      h in r.wtHashes || h in r.fhBlobHashes || h in r.fhPinnedCommits || h in r.pending
    ensures forall i :: 0 <= i < |unionStateIds| && |unionStateIds[i]| == 64 && parseHex(unionStateIds[i]).Some? ==>
      parseHex(unionStateIds[i]).value in r.runtimeUnionStates
  {
    var names, wtHashes := TreeHashes(branches);
    var blobs, pinned := HandleHashes(table);
    var waiting := PendingSnapshot(pending);
    var ids := UnionStates(unionStateIds, parseHex);
    r := Roots(refs, names, stateRefs, ids, wtHashes, blobs, pinned, waiting);
  }

  /** What is live is marked as a leaf, whatever else there is. */
  lemma LiveIsMarked(objects: Store, policy: Policy, r: Roots, m: Marks, h: Hash)
    requires IsLeast(objects, policy, r, m)
    requires h in r.wtHashes || h in r.fhBlobHashes || h in r.fhPinnedCommits || h in r.pending
    ensures h in m.All()
  {
    assert RootsIn(objects, policy, r, m);
  }

  /**
   * A collection while nothing is published: what the daemon holds is as it was before,
   * whether the collection succeeds or fails.
   */
  method RunGc(branches: seq<BranchContext>, table: seq<FhState>, unionStateIds: seq<string>, parseHex: string -> Option<Hash>,
               refs: Option<seq<(string, Option<Hash>)>>, stateRefs: seq<Option<Hash>>,
               store: ObjectStore, policy: Policy, markStart: int, order: seq<Hash>, enumOk: bool)
    returns (res: GcResult, ghost m: Marks)
    requires AllValid(branches) && store.Valid() && Enumerates(order, store.objects)
    modifies store`objects, store`mtime
    ensures store.Valid() && KeptAll(old(store.objects), store.objects, m)
    ensures forall h | old(Live(branches, table, store.pending, h)) && h in old(store.objects) ::
      h in store.objects && store.objects[h] == old(store.objects)[h]
    ensures res.ok ==> forall b | b in branches :: refs.Some? && exists i :: 0 <= i < |refs.value| && refs.value[i].0 == b.name
  {
    var r := CollectLiveRoots(branches, table, store.pending, unionStateIds, parseHex, refs, stateRefs);
    ghost var before := store.objects;
    res, m := Run(r, policy, store, markStart, order, enumOk);
    forall h | old(Live(branches, table, store.pending, h)) && h in before
      ensures h in store.objects && store.objects[h] == before[h]
    {
      LiveIsMarked(before, policy, r, m, h);
    }
    if res.ok {
      BranchesNamed(r, branches);
    }
  }

  /** A branch without its ref fails the collection. */
  lemma BranchesNamed(r: Roots, branches: seq<BranchContext>)
    requires r.Sound() && |r.expectedBranchRefs| == |branches|
    requires forall i :: 0 <= i < |branches| ==> r.expectedBranchRefs[i] == branches[i].name
    ensures forall b | b in branches :: exists i :: 0 <= i < |r.refs.value| && r.refs.value[i].0 == b.name
  {
    forall k | 0 <= k < |branches|
      ensures exists i :: 0 <= i < |r.refs.value| && r.refs.value[i].0 == branches[k].name
    {
      assert r.Named(r.expectedBranchRefs[k]);
    }
  }
}
