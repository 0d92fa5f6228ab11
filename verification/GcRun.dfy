/**
 * A whole collection (src/cas/gc.cpp): mark, then sweep what is neither marked nor
 * fresh nor pending; and what every retained commit can rely on afterwards.
 */
module GcRun {
  import opened CasTypes
  import opened GcGraph
  import opened GcMark
  import opened Rebuild

  datatype RemoveResult = Removed | Skipped | Error

  datatype GcResult = GcResult(
    ok: bool, markedObjects: nat, sweptObjects: nat, sweepErrors: nat, compactedCommits: nat)

  /** What the sweep decides by: modification times, pending publications and the file system's faults. */
  datatype SweepView = SweepView(mtime: map<Hash, int>, pending: set<Hash>, faults: set<Hash>)
  {
    /** Unmarked and outside the two-second fence. */
    predicate Sweepable(h: Hash, marked: set<Hash>, markStart: int) {
      h in mtime && h !in marked && mtime[h] + 2 < markStart
    }

    predicate Garbage(h: Hash, marked: set<Hash>, markStart: int) {
      Sweepable(h, marked, markStart) && h !in pending && h !in faults
    }

    predicate Stuck(h: Hash, marked: set<Hash>, markStart: int) {
      Sweepable(h, marked, markStart) && h !in pending && h in faults
    }

    /** The garbage among the objects seen so far. */
    function Taken(seen: seq<Hash>, marked: set<Hash>, markStart: int, dryRun: bool): set<Hash> {
      if dryRun then {} else set h | h in seen && Garbage(h, marked, markStart)
    }

    predicate Smooth(seen: seq<Hash>, marked: set<Hash>, markStart: int, dryRun: bool) {
      dryRun || forall h | h in seen :: !Stuck(h, marked, markStart)
    }

    lemma TakeNext(seen: seq<Hash>, h: Hash, marked: set<Hash>, markStart: int, dryRun: bool)
      requires h !in seen
      ensures h !in Taken(seen, marked, markStart, dryRun)
      ensures Taken(seen + [h], marked, markStart, dryRun) == Taken(seen, marked, markStart, dryRun) +
        (if !dryRun && Garbage(h, marked, markStart) then {h} else {})
      ensures Smooth(seen + [h], marked, markStart, dryRun) ==
        (Smooth(seen, marked, markStart, dryRun) && (dryRun || !Stuck(h, marked, markStart)))
    {
      forall x ensures x in seen + [h] <==> x in seen || x == h {}
    }
  }

  class ObjectStore {
    var objects: Store
    var mtime: map<Hash, int>
    var pending: set<Hash>
    /** Objects the file system refuses to look at, and objects it refuses to remove. */
    const unstatable: set<Hash>
    const unremovable: set<Hash>

    ghost predicate Valid()
      reads this
    {
      mtime.Keys == objects.Keys
    }

    ghost function View(): SweepView
      reads this
    {
      SweepView(mtime, pending, unstatable + unremovable)
    }

    /** Removes an object unless it is pending, gone or too young; a young one is not touched at all. */
    method RemoveObjectIfOlderThan(h: Hash, ageFence: int) returns (r: RemoveResult)
      requires Valid()
      modifies this`objects, this`mtime
      ensures Valid()
      ensures r == Removed <==> h !in pending && h in old(objects) && h !in unstatable + unremovable && old(mtime)[h] < ageFence
      ensures r == Error <==>
        h !in pending && h in old(objects) && (h in unstatable || (old(mtime)[h] < ageFence && h in unremovable))
      ensures objects == if r == Removed then old(objects) - {h} else old(objects)
      ensures mtime == if r == Removed then old(mtime) - {h} else old(mtime)
    {
      if h in pending || h !in objects {
        return Skipped;
      }
      if h in unstatable {
        return Error;
      }
      if mtime[h] >= ageFence {
        return Skipped;
      }
      if h in unremovable {
        return Error;
      }
      objects := objects - {h};
      mtime := mtime - {h};
      r := Removed;
    }

    /** The sweep's callback for one enumerated object. */
    method SweepOne(h: Hash, marked: set<Hash>, markStart: int, dryRun: bool, res: GcResult)
      returns (res': GcResult)
      requires Valid() && h in objects
      modifies this`objects, this`mtime
      ensures Valid()
      ensures var taken := !dryRun && old(View()).Garbage(h, marked, markStart);
        && objects == (if taken then old(objects) - {h} else old(objects))
        && mtime == (if taken then old(mtime) - {h} else old(mtime))
        && res'.sweptObjects == res.sweptObjects +
             (if taken || (dryRun && old(View()).Sweepable(h, marked, markStart)) then 1 else 0)
      ensures res'.ok == (res.ok && (dryRun || !old(View()).Stuck(h, marked, markStart)))
      ensures res'.markedObjects == res.markedObjects + (if h in marked then 1 else 0)
      ensures res'.compactedCommits == res.compactedCommits
    {
      res' := res;
      if h in marked {
        res' := res.(markedObjects := res.markedObjects + 1);
        return;
      }
      if mtime[h] + 2 >= markStart {
        return;
      }
      if dryRun {
        res' := res.(sweptObjects := res.sweptObjects + 1);
        return;
      }
      var removed := RemoveObjectIfOlderThan(h, markStart - 2);
      if removed == Removed {
        res' := res.(sweptObjects := res.sweptObjects + 1);
      } else if removed == Error {
        res' := res.(ok := false, sweepErrors := res.sweepErrors + 1);
      }
    }

    /** The sweep over one enumeration of the store. */
    method Sweep(marked: set<Hash>, markStart: int, dryRun: bool, order: seq<Hash>, res0: GcResult)
      returns (res: GcResult)
      requires Valid() && Enumerates(order, objects)
      modifies this`objects, this`mtime
      ensures Valid() && objects == old(objects) - old(View()).Taken(order, marked, markStart, dryRun)
      ensures !dryRun ==> res.sweptObjects == res0.sweptObjects + |old(View()).Taken(order, marked, markStart, dryRun)|
      ensures res.ok == (res0.ok && old(View()).Smooth(order, marked, markStart, dryRun))
      ensures res.compactedCommits == res0.compactedCommits
    {
      res := res0;
      ghost var view, all := View(), objects;
      for i := 0 to |order|
        invariant Swept(view, all, order[..i], marked, markStart, dryRun, res0, res)
      {
        assert order[..i + 1] == order[..i] + [order[i]];
        res := SweepNext(order[i], marked, markStart, dryRun, res, view, all, order[..i], res0);
      }
      assert order[..|order|] == order;
    }

    /** Where a sweep stands after the objects in seen. */
    ghost predicate Swept(view: SweepView, all: Store, seen: seq<Hash>, marked: set<Hash>, markStart: int, dryRun: bool,
                          res0: GcResult, res: GcResult)
      reads this
    {
      && Valid() && pending == view.pending && unstatable + unremovable == view.faults
      && objects == all - view.Taken(seen, marked, markStart, dryRun)
      && mtime == view.mtime - view.Taken(seen, marked, markStart, dryRun)
      && (!dryRun ==> res.sweptObjects == res0.sweptObjects + |view.Taken(seen, marked, markStart, dryRun)|)
      && res.ok == (res0.ok && view.Smooth(seen, marked, markStart, dryRun))
      && res.compactedCommits == res0.compactedCommits
    }

    method SweepNext(h: Hash, marked: set<Hash>, markStart: int, dryRun: bool, res: GcResult,
                     ghost view: SweepView, ghost all: Store, ghost seen: seq<Hash>, ghost res0: GcResult)
      returns (res': GcResult)
      requires Swept(view, all, seen, marked, markStart, dryRun, res0, res) && h !in seen && h in all
      modifies this`objects, this`mtime
      ensures Swept(view, all, seen + [h], marked, markStart, dryRun, res0, res')
    {
      view.TakeNext(seen, h, marked, markStart, dryRun);
      ghost var taken := view.Taken(seen, marked, markStart, dryRun);
      Without(all, taken, h);
      Without(view.mtime, taken, h);
      assert View().Sweepable(h, marked, markStart) == view.Sweepable(h, marked, markStart);
      res' := SweepOne(h, marked, markStart, dryRun, res);
    }
  }

  lemma Without<K, V>(m: map<K, V>, s: set<K>, k: K)
    ensures (m - s) - {k} == m - (s + {k}) && m - (s + {}) == m - s
  {
    assert (m - s) - {k} == m - (s + {k});
    assert s + {} == s;
  }

  /** An enumeration visits stored objects, none of them twice; it may break off early. */
  ghost predicate Enumerates(order: seq<Hash>, objects: Store) {
    && (forall i, j :: 0 <= i < j < |order| ==> order[i] != order[j])
    && (forall h | h in order :: h in objects)
  }

  /** Every root is there and everything to be kept can be read: exactly then marking succeeds. */
  ghost predicate Markable(objects: Store, r: Roots, m: Marks) {
    r.Sound() && Readable(objects, m)
  }

  method MarkPhase(objects: Store, policy: Policy, r: Roots)
    returns (ok: bool, marked: set<Hash>, compacted: nat, ghost m: Marks)
    ensures IsLeast(objects, policy, r, m)
    ensures ok <==> Markable(objects, r, m)
    ensures ok ==> marked == m.All() && compacted == |m.commits - m.retained|
  {
    m := LeastExists(objects, policy, r);
    var gc := new GcRunner(objects, policy);
    ok, compacted := gc.Mark(r, m);
    marked := gc.marked;
    if ok {
      LeastUnique(objects, policy, r, m, gc.M());
    }
  }

  /**
   * One collection with no concurrent publisher.  Marking fails closed, and otherwise the
   * sweep takes exactly the enumerated objects that are old, unmarked and not pending.
   */
  method Run(r: Roots, policy: Policy, store: ObjectStore, markStart: int, order: seq<Hash>, enumOk: bool)
    returns (res: GcResult, ghost m: Marks)
    requires store.Valid() && Enumerates(order, store.objects)
    modifies store`objects, store`mtime
    ensures store.Valid() && IsLeast(old(store.objects), policy, r, m)
    ensures KeptAll(old(store.objects), store.objects, m)
    ensures var live := Markable(old(store.objects), r, m); var view := old(store.View());
      && store.objects == (if live then old(store.objects) - view.Taken(order, m.All(), markStart, policy.dryRun)
                                   else old(store.objects))
      && (live ==> res.compactedCommits == |m.commits - m.retained|)
      && res.ok == (live && enumOk && view.Smooth(order, m.All(), markStart, policy.dryRun))
  {
    var ok, marked, compacted;
    ok, marked, compacted, m := MarkPhase(store.objects, policy, r);
    if !ok {
      res := GcResult(false, 0, 0, 0, 0);
      return;
    }
    res := store.Sweep(marked, markStart, policy.dryRun, order, GcResult(true, 0, 0, 0, compacted));
    res := res.(ok := res.ok && enumOk);
  }

  // ---- after a collection ----------------------------------------------------------------

  /** Every marked object is as it was. */
  ghost predicate KeptAll(before: Store, after: Store, m: Marks) {
    forall h | h in m.All() ::
      (h in after <==> h in before) && (h in before ==> after[h] == before[h])
  }

  function TreeReader(objects: Store): Reader {
    h => ReadTree(objects, h)
  }

  function CommitTree(objects: Store, c: Hash): Hash {
    if ReadCommit(objects, c).Some? then ReadCommit(objects, c).value.tree else ZERO_HASH
  }

  lemma ClosedIsInside(objects: Store, policy: Policy, m: Marks)
    requires Closed(objects, policy, m)
    ensures Inside(TreeReader(objects), m.trees, m.leaves)
  {
    var read := TreeReader(objects);
    forall t, i | t in m.trees && read(t).Some? && 0 <= i < |read(t).value|
      ensures Covered(read(t).value[i], m.trees, m.leaves)
    {
      assert TreeClosed(objects, t, m);
      assert EntryIn(read(t).value[i], m);
    }
  }

  /** A retained commit rebuilds to the same paths as before, and keeps every leaf it had. */
  lemma RetainedCommitSurvives(before: Store, after: Store, policy: Policy, r: Roots, m: Marks,
                               c: Hash, paths: map<string, Entry>)
    requires IsLeast(before, policy, r, m) && Markable(before, r, m) && KeptAll(before, after, m)
    requires c in m.retained
    ensures ReadCommit(after, c) == ReadCommit(before, c) && ReadCommit(after, c).Some?
    ensures var tree := CommitTree(before, c);
      && (RebuildsTo(TreeReader(before), tree, paths) <==> RebuildsTo(TreeReader(after), tree, paths))
      && (RebuildsTo(TreeReader(before), tree, paths) ==> forall p | p in paths ::
            paths[p].kind.Blob? || paths[p].kind.Symlink? ==> paths[p].hash != ZERO_HASH ==>
            paths[p].hash in before ==> paths[p].hash in after && after[paths[p].hash] == before[paths[p].hash])
  {
    var tree := CommitTree(before, c);
    assert c in m.commits && c in m.All();
    assert DataClosed(before, c, m);
    ClosedIsInside(before, policy, m);
    TreesReadAlike(before, after, m);
    RebuildsAlike(TreeReader(before), TreeReader(after), tree, paths, m.trees, m.leaves);
    if RebuildsTo(TreeReader(before), tree, paths) {
      RebuiltLeaves(TreeReader(before), tree, paths, m.trees, m.leaves);
    }
  }

  lemma TreesReadAlike(before: Store, after: Store, m: Marks)
    requires KeptAll(before, after, m)
    ensures forall t | t in m.trees :: TreeReader(before)(t) == TreeReader(after)(t)
  {
    forall t | t in m.trees ensures TreeReader(before)(t) == TreeReader(after)(t) {
      assert t in m.All();
    }
  }

  // ---- resolving a checkpoint label ---------------------------------------------------------

  /** The newest commit of the first-parent chain that carries the label. */
  function ResolveLabel(objects: Store, cursor: Hash, target: string, depth: nat): Hash
    decreases depth
  {
    if depth == 0 then ZERO_HASH
    else
      match ReadCommit(objects, cursor)
      case None => ZERO_HASH
      case Some(cd) =>
        if cd.commitLabel == target then cursor
        else if cd.parents == [] then ZERO_HASH
        else ResolveLabel(objects, cd.parents[0], target, depth - 1)
  }

  /** A target is a full hash of a stored object, or else a label on the branch. */
  function ResolveTarget(objects: Store, head: Option<Hash>, target: string, parseHex: string -> Option<Hash>): Hash {
    if |target| == 64 && parseHex(target).Some? && parseHex(target).value in objects then parseHex(target).value
    else if head.None? then ZERO_HASH
    else ResolveLabel(objects, head.value, target, 100000)
  }

  lemma {:induction false} LabelsResolveAlike(before: Store, after: Store, policy: Policy, m: Marks,
                                              cursor: Hash, target: string, depth: nat)
    requires Closed(before, policy, m) && KeptAll(before, after, m) && cursor in m.commits
    ensures ResolveLabel(after, cursor, target, depth) == ResolveLabel(before, cursor, target, depth)
    decreases depth
  {
    if depth > 0 {
      assert cursor in m.All();
      assert ReadCommit(after, cursor) == ReadCommit(before, cursor);
      match ReadCommit(before, cursor)
      case None =>
      case Some(cd) =>
        if cd.parents != [] {
          assert CommitClosed(before, policy, cursor, m);
          LabelsResolveAlike(before, after, policy, m, cd.parents[0], target, depth - 1);
        }
    }
  }

  /** A label leads to a marked commit or nowhere. */
  lemma {:induction false} LabelFindsMarked(objects: Store, policy: Policy, m: Marks, cursor: Hash, target: string, depth: nat)
    requires Closed(objects, policy, m) && cursor in m.commits
    ensures ResolveLabel(objects, cursor, target, depth) == ZERO_HASH ||
            ResolveLabel(objects, cursor, target, depth) in m.commits
    decreases depth
  {
    if depth > 0 {
      match ReadCommit(objects, cursor)
      case None =>
      case Some(cd) =>
        if cd.commitLabel != target && cd.parents != [] {
          assert CommitClosed(objects, policy, cursor, m);
          LabelFindsMarked(objects, policy, m, cd.parents[0], target, depth - 1);
        }
    }
  }

  /**
   * On every branch a target resolves as before, unless it is the full hash of an
   * object that the collection removed.
   */
  lemma TargetsResolveAlike(before: Store, after: Store, policy: Policy, r: Roots, m: Marks,
                            i: nat, target: string, parseHex: string -> Option<Hash>)
    requires IsLeast(before, policy, r, m) && Markable(before, r, m) && KeptAll(before, after, m)
    requires after.Keys <= before.Keys
    requires i < |r.refs.value|
    ensures var lost := |target| == 64 && parseHex(target).Some? && parseHex(target).value in before.Keys - after.Keys;
      var was := ResolveTarget(before, r.refs.value[i].1, target, parseHex);
      var now := ResolveTarget(after, r.refs.value[i].1, target, parseHex);
      (!lost ==> now == was) && (lost && was != ZERO_HASH ==> now != was)
  {
    var head := r.refs.value[i].1;
    assert head.Some?;
    assert HeadIn(before, policy, head.value, m);
    LabelsResolveAlike(before, after, policy, m, head.value, target, 100000);
    LabelFindsMarked(before, policy, m, head.value, target, 100000);
  }
}
