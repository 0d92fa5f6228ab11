/**
 * Moving a branch back to a checkpoint (src/cas/checkpoint.cpp): the target is
 * resolved, its tree rebuilt into the working tree, the branch's open files turned
 * stale and the ref moved, in this order.
 */
module Rollback {
  import opened CasTypes
  import opened FileHandle
  import opened GcGraph
  import opened GcRun
  import opened OrderedMap
  import opened Rebuild
  import Checkpoint
  import TreeCodec
  import TreeRoundTrip
  import TreeSerialize
  import Spec = WorkingTreeSpec
  import Trees = WorkingTree

  datatype Error = NoError | NotFound | UnreadableCommit | Compacted | RebuildFailed | RefFailed

  datatype RollbackResult = RollbackResult(commit: Hash, error: Error)
  {
    predicate Ok() { error.NoError? }
  }

  function HeadOf(heads: map<string, Hash>, branch: string): Option<Hash> {
    if branch in heads then Some(heads[branch]) else None
  }

  // ---- the target -----------------------------------------------------------------------

  /** At most limit steps along the first parents. */
  method FindLabel(objects: Store, head: Hash, target: string, limit: nat) returns (h: Hash)
    ensures h == ResolveLabel(objects, head, target, limit)
  {
    var cursor := head;
    var left: nat := limit;
    while left > 0
      invariant ResolveLabel(objects, cursor, target, left) == ResolveLabel(objects, head, target, limit)
    {
      match ReadCommit(objects, cursor) {
        case None => return ZERO_HASH;
        case Some(cd) =>
          if cd.commitLabel == target {
            return cursor;
          }
          if cd.parents == [] {
            return ZERO_HASH;
          }
          cursor := cd.parents[0];
      }
      left := left - 1;
    }
    h := ZERO_HASH;
  }

  method ResolveTarget(objects: Store, head: Option<Hash>, target: string, parseHex: string -> Option<Hash>) returns (h: Hash)
    ensures h == GcRun.ResolveTarget(objects, head, target, parseHex)
  {
    if |target| >= 4 {
      if |target| == 64 && parseHex(target).Some? {
        if parseHex(target).value in objects {
          return parseHex(target).value;
        }
      }
    }
    if head.None? {
      return ZERO_HASH;
    }
    h := FindLabel(objects, head.value, target, 100000);
  }

  // ---- the open files --------------------------------------------------------------------

  method InvalidateFhsForBranch(table: seq<FhState>, branchId: nat)
    modifies (set i | 0 <= i < |table| :: table[i])`stale
    ensures forall i :: 0 <= i < |table| ==> table[i].stale == (old(table[i].stale) || table[i].branchId == branchId)
  {
    for i := 0 to |table|
      invariant forall k :: 0 <= k < i && table[k].branchId == branchId ==> table[k].stale
      invariant forall k :: 0 <= k < |table| && table[k].branchId != branchId ==> table[k].stale == old(table[k].stale)
    {
      if table[i].branchId == branchId {
        table[i].stale := true;
      }
    }
  }

  /** The rebuilt entries, ordered for the tree. */
  method ToOrdered(paths: map<string, Entry>) returns (m: Ordered<Entry>)
    ensures m.Valid() && m.at == paths
  {
    m := Empty();
    var rest := paths.Keys;
    while rest != {}
      invariant rest <= paths.Keys && m.Valid()
      invariant m.at.Keys == paths.Keys - rest && forall p | p in m.at :: m.at[p] == paths[p]
      decreases rest
    {
      var p :| p in rest;
      PutValid(m, p, paths[p]);
      m := Put(m, p, paths[p]);
      rest := rest - {p};
    }
  }

  // ---- the rollback -------------------------------------------------------------------------

  /** What a rollback answers before it touches anything. */
  ghost predicate Refused(objects: Store, h: Hash, error: Error) {
    match error
    case NotFound => h == ZERO_HASH
    case UnreadableCommit => h != ZERO_HASH && ReadCommit(objects, h).None?
    case Compacted => h != ZERO_HASH && ReadCommit(objects, h).Some? && Stuck(objects, h, true)
    case RebuildFailed => h != ZERO_HASH && ReadCommit(objects, h).Some? && Stuck(objects, h, false)
    case _ => false
  }

  /** The rebuild stops at a directory that is gone, or at one that is there but no directory. */
  ghost predicate Stuck(objects: Store, h: Hash, gone: bool) {
    exists missing :: StopsAt(TreeReader(objects), CommitTree(objects, h), missing) && (gone <==> missing !in objects)
  }

  /** There is a tree to go back to. */
  ghost predicate Rebuilds(objects: Store, h: Hash, paths: map<string, Entry>) {
    h != ZERO_HASH && ReadCommit(objects, h).Some? && RebuildsTo(TreeReader(objects), CommitTree(objects, h), paths)
  }

  /** Reads the target commit and rebuilds its tree; nothing is changed yet. */
  method LoadTarget(objects: Store, h: Hash, ghost rank: Hash -> nat) returns (paths: map<string, Entry>, error: Error)
    requires Acyclic(TreeReader(objects), rank)
    ensures error.NoError? ==> Rebuilds(objects, h, paths)
    ensures !error.NoError? ==> Refused(objects, h, error) && forall p :: !Rebuilds(objects, h, p)
  {
    paths := map[];
    if h == ZERO_HASH {
      return paths, NotFound;
    }
    match ReadCommit(objects, h) {
      case None => return paths, UnreadableCommit;
      case Some(cd) =>
        assert cd.tree == CommitTree(objects, h);
        var rebuilt, missing := RebuildWorkingTree(TreeReader(objects), cd.tree, rank);
        if rebuilt.None? {
          assert StopsAt(TreeReader(objects), CommitTree(objects, h), missing);
          return paths, if missing !in objects then Compacted else RebuildFailed;
        }
        return rebuilt.value, NoError;
    }
  }

  /**
   * A rollback that is refused changes nothing, and it is refused exactly when there is
   * no tree to go back to.  Otherwise the tree is replaced and the open files are stale,
   * even when the ref then cannot be written and stays.
   */
  method RollbackLocked(objects: Store, refs: Checkpoint.Refs, wt: Trees.WorkingTree, table: seq<FhState>, branchId: nat,
                        target: string, branch: string, parseHex: string -> Option<Hash>, refFails: bool,
                        ghost rank: Hash -> nat)
    returns (r: RollbackResult, ghost paths: map<string, Entry>)
    requires wt.Valid() && Acyclic(TreeReader(objects), rank)
    modifies refs, wt, (set i | 0 <= i < |table| :: table[i])`stale
    ensures wt.Valid()
    ensures var h := GcRun.ResolveTarget(objects, HeadOf(old(refs.heads), branch), target, parseHex);
      && (r.Ok() || r.error.RefFailed? <==> exists p :: Rebuilds(objects, h, p))
      && (r.Ok() || r.error.RefFailed? ==> Rebuilds(objects, h, paths) && wt.V() == Spec.SetBase(paths) && r.Ok() == !refFails)
      && (!r.Ok() && !r.error.RefFailed? ==> Refused(objects, h, r.error) && wt.V() == old(wt.V()))
      && refs.heads == (if r.Ok() then old(refs.heads)[branch := h] else old(refs.heads))
      && r.commit == (if r.Ok() then h else ZERO_HASH)
    ensures forall i :: 0 <= i < |table| ==>
      table[i].stale == (old(table[i].stale) || ((r.Ok() || r.error.RefFailed?) && table[i].branchId == branchId))
  {
    var h := ResolveTarget(objects, HeadOf(refs.heads, branch), target, parseHex);
    var rebuilt, error := LoadTarget(objects, h, rank);
    paths := rebuilt;
    if !error.NoError? {
      r := RollbackResult(ZERO_HASH, error);
      return;
    }
    var entries := ToOrdered(rebuilt);
    wt.SetBase(entries);
    InvalidateFhsForBranch(table, branchId);
    if refFails {
      r := RollbackResult(ZERO_HASH, RefFailed);
      return;
    }
    refs.heads := refs.heads[branch := h];
    r := RollbackResult(h, NoError);
  }

  // ---- what one goes back to ---------------------------------------------------------------

  /**
   * Rolling back to a checkpoint shows every path that was reached as the checkpoint
   * found it and no other, and shows the whole tree exactly when every path was anchored.
   */
  lemma RollbackRestoresCheckpoint(objects: Store, h: Hash, paths: map<string, Entry>,
                                   hashOf: TreeSerialize.Hasher, es: seq<(string, Entry)>, bound: nat,
                                   raw: TreeRoundTrip.Raw, store: TreeSerialize.TreeStore, written: set<Hash>)
    requires Rebuilds(objects, h, paths)
    requires TreeRoundTrip.Setting(hashOf, es, bound, raw) && TreeSerialize.Honest(hashOf, store)
    requires TreeRoundTrip.NoCollision(hashOf, TreeSerialize.DirsOf(es), bound, store)
    requires TreeSerialize.Written(hashOf, TreeSerialize.DirsOf(es), bound, store, written)
    requires CommitTree(objects, h) == TreeSerialize.RootHash(hashOf, TreeSerialize.DirsOf(es), bound)
    requires CommitTree(objects, h) in written
    requires forall t :: TreeReader(objects)(t) == TreeRoundTrip.ReaderOf(store)(t)
    ensures TreeRoundTrip.SameContent(TreeRoundTrip.ReachedPart(raw), paths)
    ensures TreeRoundTrip.SameContent(raw, paths) <==> forall p | p in raw :: TreeRoundTrip.Anchored(raw, p)
    ensures forall p :: Spec.SetBase(paths).LookupRaw(p).Some? <==> TreeRoundTrip.Reached(raw, p)
  {
    var root := TreeSerialize.RootHash(hashOf, TreeSerialize.DirsOf(es), bound);
    SameReads(TreeRoundTrip.ReaderOf(store), TreeReader(objects), root, paths);
    TreeRoundTrip.ComesBackExactly(hashOf, es, bound, raw, store, written, paths);
    forall p ensures p in paths <==> TreeRoundTrip.Reached(raw, p) {
      assert p in TreeRoundTrip.ReachedPart(raw).Keys <==> TreeRoundTrip.Reached(raw, p);
    }
  }

  lemma SameReads(read: Reader, read': Reader, root: Hash, paths: map<string, Entry>)
    requires (forall t :: read(t) == read'(t)) && RebuildsTo(read', root, paths)
    ensures RebuildsTo(read, root, paths)
  {
    var n: nat :| Steps(read', Start(root), n) == Running([], paths);
    SameSteps(read, read', root, n);
  }

  lemma {:induction false} SameSteps(read: Reader, read': Reader, root: Hash, n: nat)
    requires forall t :: read(t) == read'(t)
    ensures Steps(read, Start(root), n) == Steps(read', Start(root), n)
  {
    if n > 0 {
      SameSteps(read, read', root, n - 1);
    }
  }

  /** A collection does not come between a retained commit and its rollback. */
  lemma RollbackSurvivesCollection(before: Store, after: Store, policy: Policy, roots: Roots, m: Marks, c: Hash,
                                   paths: map<string, Entry>, paths': map<string, Entry>)
    requires IsLeast(before, policy, roots, m) && Markable(before, roots, m) && KeptAll(before, after, m)
    requires c in m.retained && Rebuilds(before, c, paths)
    ensures Rebuilds(after, c, paths)
    ensures Rebuilds(after, c, paths') ==> paths' == paths
  {
    RetainedCommitSurvives(before, after, policy, roots, m, c, paths);
    assert CommitTree(after, c) == CommitTree(before, c);
    if Rebuilds(after, c, paths') {
      RebuildIsUnique(TreeReader(after), CommitTree(after, c), paths, paths');
    }
  }
}
