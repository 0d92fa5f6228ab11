/**
 * The mark phase of src/cas/gc.cpp.  One set of marks and one set of visited
 * objects per kind are shared by all the recursive walks.  Every method takes a
 * ghost bound, any closed set of marks that holds its roots: it marks nothing
 * outside the bound, and it fails only if something in the bound cannot be read.
 */
module GcMark {
  import opened CasTypes
  import opened GcGraph

  function SetOf<T>(s: seq<T>): set<T> {
    set x | x in s
  }

  class GcRunner {
    const store: Store
    const policy: Policy

    var marked: set<Hash>
    var trees: set<Hash>
    var stateRecords: set<Hash>
    var unionStates: set<Hash>
    var retainedData: seq<Hash>
    var compactedCandidates: set<Hash>

    /** The commits whose metadata is marked, and all marks that are only pointed at. */
    ghost var commits: set<Hash>
    ghost var leaves: set<Hash>

    ghost function M(): Marks
      reads this
    {
      Marks(commits, SetOf(retainedData), trees, stateRecords, unionStates, leaves)
    }

    /** The mark set is the union of the kinds; a commit is retained or a compaction candidate. */
    ghost predicate Inv()
      reads this
    {
      && marked == M().All()
      && SetOf(retainedData) <= commits
      && commits - SetOf(retainedData) <= compactedCandidates <= commits
    }

    ghost predicate Bounded(b: Marks)
      reads this
    {
      Inv() && Closed(store, policy, b) && M().Within(b)
    }

    constructor (store: Store, policy: Policy)
      ensures this.store == store && this.policy == policy
      ensures Inv() && M() == Marks({}, {}, {}, {}, {}, {})
    {
      this.store := store;
      this.policy := policy;
      marked, trees, stateRecords, unionStates := {}, {}, {}, {};
      retainedData := [];
      compactedCandidates := {};
      commits, leaves := {}, {};
    }

    /** Marks an object that is not followed any further. */
    method MarkLeaf(h: Hash, ghost b: Marks)
      requires Bounded(b) && h in b.leaves
      modifies this`marked, this`leaves
      ensures Bounded(b) && leaves == old(leaves) + {h}
      ensures Grown(store, policy, old(M()), M())
    {
      marked := marked + {h};
      leaves := leaves + {h};
      GrownLeaves(store, policy, old(M()), M());
    }

    method MarkTreeRecursive(tree: Hash, ghost b: Marks) returns (ok: bool)
      requires Bounded(b) && tree in b.trees
      modifies this`marked, this`trees, this`leaves
      ensures ok ==> Bounded(b) && tree in trees && Grown(store, policy, old(M()), M())
      ensures Readable(store, b) ==> ok
      decreases store.Keys - trees, 1
    {
      if tree in trees {
        GrownRefl(store, policy, M());
        return true;
      }
      trees := trees + {tree};
      marked := marked + {tree};
      var entries := ReadTree(store, tree);
      if entries.None? {
        return false;
      }
      ok := MarkEntries(tree, entries.value, b);
      if ok {
        GrownClose(old(M()), M(), tree);
      }
    }

    /** The loop over one directory; the directory itself stays open. */
    method MarkEntries(tree: Hash, entries: seq<TreeEntry>, ghost b: Marks) returns (ok: bool)
      requires Bounded(b) && tree in trees && tree in store && EntriesIn(entries, b)
      modifies this`marked, this`trees, this`leaves
      ensures ok ==> Bounded(b) && Grown(store, policy, old(M()), M()) && EntriesIn(entries, M())
      ensures Readable(store, b) ==> ok
      decreases store.Keys - trees, 2, |entries|
    {
      ghost var start := M();
      GrownRefl(store, policy, start);
      for i := 0 to |entries|
        invariant Bounded(b) && Grown(store, policy, start, M())
        invariant EntriesIn(entries[..i], M())
      {
        ghost var before := M();
        var e := entries[i];
        assert EntryIn(e, b);
        if e.kind.Tree? {
          ok := MarkTreeRecursive(e.hash, b);
          if !ok {
            return false;
          }
        } else if !e.kind.Deleted? && e.hash != ZERO_HASH {
          MarkLeaf(e.hash, b);
        } else {
          GrownRefl(store, policy, M());
        }
        GrownTrans(store, policy, start, before, M(), {}, {}, {});
        EntriesMonotone(entries[..i], before, M());
        assert entries[..i + 1] == entries[..i] + [e];
      }
      assert entries[..|entries|] == entries;
      ok := true;
    }

    method KeepLastSet(head: Hash, applyWindow: bool) returns (keepLastSet: set<Hash>)
      ensures keepLastSet == if applyWindow then Window(store, head, WindowSize(policy)) else {}
    {
      keepLastSet := {};
      if policy.keepLast.None? || !applyWindow {
        return;
      }
      var n := WindowSize(policy);
      var depth, cursor := 0, head;
      while depth < n
        invariant 0 <= depth <= n
        invariant Window(store, head, n) == keepLastSet + Window(store, cursor, n - depth)
      {
        keepLastSet := keepLastSet + {cursor};
        depth := depth + 1;
        var d := ReadCommit(store, cursor);
        if d.None? || d.value.parents == [] {
          return;
        }
        cursor := d.value.parents[0];
      }
    }

    /** Marks one commit's metadata and decides whether its data is kept. */
    method VisitCommit(cur: Hash, d: CommitData, head: Hash, keepLastSet: set<Hash>, ghost b: Marks)
      requires Bounded(b) && cur in b.commits && ReadCommit(store, cur) == Some(d)
      requires cur == head || cur in keepLastSet ==> cur in b.retained
      modifies this`marked, this`commits, this`retainedData, this`compactedCandidates
      ensures Bounded(b) && commits == old(commits) + {cur}
      ensures old(M()).Within(M())
      ensures cur == head || cur in keepLastSet || KeptByLabel(policy, d.commitLabel) ==> cur in M().retained
    {
      marked := marked + {cur};
      var retainData;
      if policy.keepLast.None? {
        retainData := true;
      } else {
        retainData := cur == head || cur in keepLastSet;
        var i := 0;
        while i < |policy.keepLabels|
          invariant 0 <= i <= |policy.keepLabels|
          invariant retainData <==> cur == head || cur in keepLastSet || d.commitLabel in policy.keepLabels[..i]
        {
          if d.commitLabel == policy.keepLabels[i] {
            retainData := true;
          }
          i := i + 1;
        }
        assert policy.keepLabels[..i] == policy.keepLabels;
        if !retainData {
          compactedCandidates := compactedCandidates + {cur};
        }
      }
      commits := commits + {cur};
      if retainData {
        assert CommitClosed(store, policy, cur, b);
        retainedData := retainedData + [cur];
      }
      assert SetOf(retainedData) == old(SetOf(retainedData)) + if retainData then {cur} else {};
    }

    /** Where a chain walk stands: what it has seen is marked and kept as it must be. */
    ghost predicate Walk(seen: set<Hash>, queue: seq<Hash>, kept: set<Hash>, m: Marks) {
      && seen <= m.commits
      && seen * kept <= m.retained
      && (forall c | c in seen :: ReadCommit(store, c).Some? && Seen(c, seen, queue)
            && (KeptByLabel(policy, ReadCommit(store, c).value.commitLabel) ==> c in m.retained))
    }

    ghost predicate Seen(c: Hash, seen: set<Hash>, queue: seq<Hash>)
      requires ReadCommit(store, c).Some?
    {
      forall i :: 0 <= i < |ReadCommit(store, c).value.parents| ==>
        ReadCommit(store, c).value.parents[i] in seen || ReadCommit(store, c).value.parents[i] in queue
    }

    /** All commits reachable from head through any parent, by a stack of hashes still to visit. */
    method MarkCommitChain(head: Hash, applyWindow: bool, ghost b: Marks) returns (ok: bool)
      requires Bounded(b) && head in b.commits && KeptFrom(store, policy, head, applyWindow) <= b.retained
      modifies this`marked, this`commits, this`retainedData, this`compactedCandidates
      ensures ok ==> Bounded(b) && Grown(store, policy, old(M()), M())
      ensures ok ==> head in commits && KeptFrom(store, policy, head, applyWindow) <= M().retained
      ensures Readable(store, b) ==> ok
    {
      ghost var start := M();
      var keepLastSet := KeepLastSet(head, applyWindow);
      var queue, seen: set<Hash> := [head], {};
      while queue != []
        invariant Bounded(b) && start.Within(M()) && M() == start.(commits := commits, retained := M().retained)
        invariant commits == start.commits + seen && seen <= store.Keys
        invariant forall c | c in queue :: c in b.commits
        invariant head in seen || head in queue
        invariant Walk(seen, queue, KeptFrom(store, policy, head, applyWindow), M())
        decreases store.Keys - seen, |queue|
      {
        var cur := queue[|queue| - 1];
        ghost var before, queue0 := M(), queue;
        queue := queue[..|queue| - 1];
        assert queue0 == queue + [cur];
        if cur in seen {
          WalkPop(seen, queue0, KeptFrom(store, policy, head, applyWindow), M());
          continue;
        }
        var d := ReadCommit(store, cur);
        if d.None? {
          return false;
        }
        VisitCommit(cur, d.value, head, keepLastSet, b);
        assert CommitClosed(store, policy, cur, b);
        queue := queue + d.value.parents;
        WalkVisit(seen, queue0, KeptFrom(store, policy, head, applyWindow), before, M(), cur, queue);
        seen := seen + {cur};
      }
      WalkDone(seen, KeptFrom(store, policy, head, applyWindow), start, M(), head, applyWindow);
      ok := true;
    }

    lemma WalkPop(seen: set<Hash>, queue: seq<Hash>, kept: set<Hash>, m: Marks)
      requires queue != [] && queue[|queue| - 1] in seen && Walk(seen, queue, kept, m)
      ensures Walk(seen, queue[..|queue| - 1], kept, m)
    {
      assert queue == queue[..|queue| - 1] + [queue[|queue| - 1]];
    }

    lemma WalkVisit(seen: set<Hash>, queue: seq<Hash>, kept: set<Hash>, a: Marks, m: Marks, cur: Hash, queue': seq<Hash>)
      requires Walk(seen, queue, kept, a) && a.Within(m) && queue != [] && cur == queue[|queue| - 1]
      requires ReadCommit(store, cur).Some? && queue' == queue[..|queue| - 1] + ReadCommit(store, cur).value.parents
      requires cur in m.commits && (cur in kept ==> cur in m.retained)
      requires KeptByLabel(policy, ReadCommit(store, cur).value.commitLabel) ==> cur in m.retained
      ensures Walk(seen + {cur}, queue', kept, m)
    {
      assert queue == queue[..|queue| - 1] + [cur];
    }

    lemma WalkDone(seen: set<Hash>, kept: set<Hash>, a: Marks, m: Marks, head: Hash, applyWindow: bool)
      requires Walk(seen, [], kept, m) && head in seen && kept == KeptFrom(store, policy, head, applyWindow)
      requires a.Within(m) && m.commits == a.commits + seen
      requires m == a.(commits := m.commits, retained := m.retained)
      ensures Grown(store, policy, a, m) && head in m.commits && kept <= m.retained
    {
      if applyWindow {
        WindowWithin(store, head, WindowSize(policy), seen);
      }
    }

    // ---- records ---------------------------------------------------------------------

    /** A record's link to a filesystem commit; it keeps its snapshot but opens no window. */
    method MarkCommitLink(c: Hash, ghost b: Marks) returns (ok: bool)
      requires Bounded(b) && LeadsCommit(c, b)
      modifies this`marked, this`commits, this`retainedData, this`compactedCandidates
      ensures ok ==> Bounded(b) && Grown(store, policy, old(M()), M()) && LeadsCommit(c, M())
      ensures Readable(store, b) ==> ok
    {
      if c == ZERO_HASH {
        GrownRefl(store, policy, M());
        return true;
      }
      ok := MarkCommitChain(c, false, b);
    }

    /** A hash-valued blob reference: empty is fine, anything but a hash is corrupt. */
    method MarkRequiredBlob(f: IdField, ghost b: Marks) returns (ok: bool)
      requires Bounded(b) && Leads(f, b.leaves)
      modifies this`marked, this`leaves
      ensures ok ==> Bounded(b) && Grown(store, policy, old(M()), M()) && Leads(f, leaves)
      ensures ok == !f.Malformed?
    {
      GrownRefl(store, policy, M());
      match f
      case Unset => ok := true;
      case Malformed => ok := false;
      case Id(h) =>
        MarkLeaf(h, b);
        ok := true;
    }

    /** A ref that is marked only when it is a hash. */
    method MarkOpaqueRef(f: Option<Hash>, ghost b: Marks)
      requires Bounded(b) && LeadsOpt(f, b.leaves)
      modifies this`marked, this`leaves
      ensures Bounded(b) && Grown(store, policy, old(M()), M()) && LeadsOpt(f, leaves)
    {
      GrownRefl(store, policy, M());
      if f.Some? {
        MarkLeaf(f.value, b);
      }
    }

    method MarkDependencies(hashes: seq<Hash>, ghost b: Marks)
      requires Bounded(b) && forall i :: 0 <= i < |hashes| ==> hashes[i] in b.leaves
      modifies this`marked, this`leaves
      ensures Bounded(b) && Grown(store, policy, old(M()), M())
      ensures forall i :: 0 <= i < |hashes| ==> hashes[i] in leaves
    {
      ghost var start := M();
      GrownRefl(store, policy, start);
      for i := 0 to |hashes|
        invariant Bounded(b) && Grown(store, policy, start, M())
        invariant forall j :: 0 <= j < i ==> hashes[j] in leaves
      {
        ghost var before := M();
        MarkLeaf(hashes[i], b);
        GrownTrans(store, policy, start, before, M(), {}, {}, {});
      }
    }

    /** The part of a state record that does not lead to another record. */
    method MarkStateData(r: StateRecord, ghost b: Marks) returns (ok: bool)
      requires Bounded(b) && StateIn(r, b)
      modifies this`marked, this`leaves, this`commits, this`retainedData, this`compactedCandidates
      ensures ok ==> Bounded(b) && Grown(store, policy, old(M()), M())
      ensures ok ==> !r.payloadRef.Malformed? && Leads(r.payloadRef, leaves) && LeadsCommit(r.fsCommit, M())
      ensures ok ==> forall i :: 0 <= i < |r.dependencies| ==> r.dependencies[i] in leaves
      ensures Readable(store, b) && !r.payloadRef.Malformed? ==> ok
    {
      ghost var m0 := M();
      ok := MarkRequiredBlob(r.payloadRef, b);
      if !ok { return; }
      ghost var m1 := M();
      MarkDependencies(r.dependencies, b);
      GrownTrans(store, policy, m0, m1, M(), {}, {}, {});
      ghost var m2 := M();
      ok := MarkCommitLink(r.fsCommit, b);
      if !ok { return; }
      GrownTrans(store, policy, m0, m2, M(), {}, {}, {});
    }

    method MarkStateRecord(id: Hash, ghost b: Marks) returns (ok: bool)
      requires Bounded(b) && id in b.states
      modifies this
      ensures ok ==> Bounded(b) && id in stateRecords && Grown(store, policy, old(M()), M())
      ensures Readable(store, b) ==> ok
      decreases store.Keys - stateRecords, store.Keys - unionStates, 1
    {
      if id in stateRecords {
        GrownRefl(store, policy, M());
        return true;
      }
      ghost var m0 := M();
      stateRecords := stateRecords + {id};
      var rec := ReadState(store, id);
      if rec.None? {
        return false;
      }
      marked := marked + {id};
      ghost var m1 := M();
      var r := rec.value;
      assert StateClosed(store, id, b);
      ok := MarkStateData(r, b);
      if !ok { return; }
      ghost var m2 := M();
      ok := MarkStateLinks(r, b);
      if !ok { return; }
      GrownTrans(store, policy, m1, m2, M(), {}, {}, {});
      StateClose(m0, m1, m2, M(), id, r);
    }

    /** The links of a state record to other records, in the order they are followed. */
    method MarkStateLinks(r: StateRecord, ghost b: Marks) returns (ok: bool)
      requires Bounded(b) && StateIn(r, b)
      modifies this
      ensures ok ==> Bounded(b) && Grown(store, policy, old(M()), M())
      ensures ok ==> !r.unionState.Malformed? && !r.parentState.Malformed? && !r.snapshotBase.Malformed?
      ensures ok ==> Leads(r.unionState, unionStates) && Leads(r.parentState, stateRecords) && Leads(r.snapshotBase, stateRecords)
      ensures Readable(store, b) && WellFormedState(r) ==> ok
      decreases store.Keys - stateRecords, store.Keys - unionStates, 3
    {
      ghost var m0 := M();
      ok := MarkUnionId(r.unionState, b);
      if !ok { return; }
      ghost var m1 := M();
      ok := MarkStateId(r.parentState, b);
      if !ok { return; }
      GrownTrans(store, policy, m0, m1, M(), {}, {}, {});
      ghost var m2 := M();
      ok := MarkStateId(r.snapshotBase, b);
      if !ok { return; }
      GrownTrans(store, policy, m0, m2, M(), {}, {}, {});
    }

    method MarkStateId(f: IdField, ghost b: Marks) returns (ok: bool)
      requires Bounded(b) && Leads(f, b.states)
      modifies this
      ensures ok ==> Bounded(b) && Grown(store, policy, old(M()), M()) && !f.Malformed? && Leads(f, stateRecords)
      ensures Readable(store, b) && !f.Malformed? ==> ok
      decreases store.Keys - stateRecords, store.Keys - unionStates, 2
    {
      GrownRefl(store, policy, M());
      match f
      case Unset => ok := true;
      case Malformed => ok := false;
      case Id(h) => ok := MarkStateRecord(h, b);
    }

    method MarkUnionId(f: IdField, ghost b: Marks) returns (ok: bool)
      requires Bounded(b) && Leads(f, b.unions)
      modifies this
      ensures ok ==> Bounded(b) && Grown(store, policy, old(M()), M()) && !f.Malformed? && Leads(f, unionStates)
      ensures Readable(store, b) && !f.Malformed? ==> ok
      decreases store.Keys - stateRecords, store.Keys - unionStates, 2
    {
      GrownRefl(store, policy, M());
      match f
      case Unset => ok := true;
      case Malformed => ok := false;
      case Id(h) => ok := MarkUnionState(h, b);
    }

    method MarkUnionState(id: Hash, ghost b: Marks) returns (ok: bool)
      requires Bounded(b) && id in b.unions
      modifies this
      ensures ok ==> Bounded(b) && id in unionStates && Grown(store, policy, old(M()), M())
      ensures Readable(store, b) ==> ok
      decreases store.Keys - stateRecords, store.Keys - unionStates, 1
    {
      if id in unionStates {
        GrownRefl(store, policy, M());
        return true;
      }
      ghost var m0 := M();
      unionStates := unionStates + {id};
      var rec := ReadUnion(store, id);
      if rec.None? {
        return false;
      }
      marked := marked + {id};
      ghost var m1 := M();
      var u := rec.value;
      assert UnionClosed(store, id, b);
      ok := MarkUnionData(u, b);
      if !ok { return; }
      ghost var m2 := M();
      ok := MarkUnionLinks(u, b);
      if !ok { return; }
      GrownTrans(store, policy, m1, m2, M(), {}, {}, {});
      UnionClose(m0, m1, m2, M(), id, u);
    }

    method MarkUnionData(u: UnionState, ghost b: Marks) returns (ok: bool)
      requires Bounded(b) && UnionIn(u, b)
      modifies this`marked, this`leaves, this`commits, this`retainedData, this`compactedCandidates
      ensures ok ==> Bounded(b) && Grown(store, policy, old(M()), M())
      ensures ok ==> LeadsCommit(u.fsCommit, M()) && LeadsOpt(u.commandRef, leaves) && LeadsOpt(u.resourceRef, leaves)
      ensures Readable(store, b) ==> ok
    {
      ghost var m0 := M();
      ok := MarkCommitLink(u.fsCommit, b);
      if !ok { return; }
      ghost var m1 := M();
      MarkOpaqueRef(u.commandRef, b);
      GrownTrans(store, policy, m0, m1, M(), {}, {}, {});
      ghost var m2 := M();
      MarkOpaqueRef(u.resourceRef, b);
      GrownTrans(store, policy, m0, m2, M(), {}, {}, {});
    }

    method MarkUnionLinks(u: UnionState, ghost b: Marks) returns (ok: bool)
      requires Bounded(b) && UnionIn(u, b)
      modifies this
      ensures ok ==> Bounded(b) && Grown(store, policy, old(M()), M()) && WellFormedUnion(u)
      ensures ok ==> Leads(u.agentState, stateRecords) && Leads(u.parentUnion, unionStates)
      ensures Readable(store, b) && WellFormedUnion(u) ==> ok
      decreases store.Keys - stateRecords, store.Keys - unionStates, 3
    {
      ghost var m0 := M();
      ok := MarkStateId(u.agentState, b);
      if !ok { return; }
      ghost var m1 := M();
      ok := MarkUnionId(u.parentUnion, b);
      if !ok { return; }
      GrownTrans(store, policy, m0, m1, M(), {}, {}, {});
    }

    // ---- the whole mark phase ----------------------------------------------------------

    method CheckExpected(r: Roots) returns (ok: bool)
      requires r.refs.Some?
      ensures ok <==> forall i :: 0 <= i < |r.expectedBranchRefs| ==> r.Named(r.expectedBranchRefs[i])
    {
      for i := 0 to |r.expectedBranchRefs|
        invariant forall j :: 0 <= j < i ==> r.Named(r.expectedBranchRefs[j])
      {
        if !r.Named(r.expectedBranchRefs[i]) {
          return false;
        }
      }
      ok := true;
    }

    method MarkRefs(refs: seq<(string, Option<Hash>)>, ghost b: Marks) returns (ok: bool)
      requires Bounded(b) && RefsIn(store, policy, refs, b)
      modifies this`marked, this`commits, this`retainedData, this`compactedCandidates
      ensures ok ==> Bounded(b) && Grown(store, policy, old(M()), M()) && RefsIn(store, policy, refs, M())
      ensures ok ==> forall i :: 0 <= i < |refs| ==> refs[i].1.Some?
      ensures Readable(store, b) && (forall i :: 0 <= i < |refs| ==> refs[i].1.Some?) ==> ok
    {
      ghost var start := M();
      GrownRefl(store, policy, start);
      for i := 0 to |refs|
        invariant Bounded(b) && Grown(store, policy, start, M()) && RefsIn(store, policy, refs[..i], M())
        invariant forall j :: 0 <= j < i ==> refs[j].1.Some?
      {
        if refs[i].1.None? {
          return false;
        }
        ghost var before := M();
        ok := MarkCommitChain(refs[i].1.value, true, b);
        if !ok { return; }
        GrownTrans(store, policy, start, before, M(), {}, {}, {});
        assert refs[..i + 1] == refs[..i] + [refs[i]];
        assert HeadIn(store, policy, refs[i].1.value, M());
      }
      assert refs[..|refs|] == refs;
      ok := true;
    }

    method MarkStateRefs(refs: seq<Option<Hash>>, ghost b: Marks) returns (ok: bool)
      requires Bounded(b) && StateRefsIn(refs, b)
      modifies this
      ensures ok ==> Bounded(b) && Grown(store, policy, old(M()), M()) && StateRefsIn(refs, M())
      ensures ok ==> forall i :: 0 <= i < |refs| ==> refs[i].Some?
      ensures Readable(store, b) && (forall i :: 0 <= i < |refs| ==> refs[i].Some?) ==> ok
    {
      ghost var start := M();
      GrownRefl(store, policy, start);
      for i := 0 to |refs|
        invariant Bounded(b) && Grown(store, policy, start, M())
        invariant forall j :: 0 <= j < i ==> refs[j].Some? && refs[j].value in stateRecords
      {
        if refs[i].None? {
          return false;
        }
        ghost var before := M();
        ok := MarkStateRecord(refs[i].value, b);
        if !ok { return; }
        GrownTrans(store, policy, start, before, M(), {}, {}, {});
      }
      ok := true;
    }

    method MarkUnionStates(ids: seq<Hash>, ghost b: Marks) returns (ok: bool)
      requires Bounded(b) && AllIn(ids, b.unions)
      modifies this
      ensures ok ==> Bounded(b) && Grown(store, policy, old(M()), M()) && AllIn(ids, unionStates)
      ensures Readable(store, b) ==> ok
    {
      ghost var start := M();
      GrownRefl(store, policy, start);
      for i := 0 to |ids|
        invariant Bounded(b) && Grown(store, policy, start, M())
        invariant forall j :: 0 <= j < i ==> ids[j] in unionStates
      {
        ghost var before := M();
        ok := MarkUnionState(ids[i], b);
        if !ok { return; }
        GrownTrans(store, policy, start, before, M(), {}, {}, {});
      }
      ok := true;
    }

    /** The trees of every retained commit. */
    method MarkRetainedData(ghost b: Marks) returns (ok: bool)
      requires Bounded(b) && forall c | c in commits :: ReadCommit(store, c).Some?
      modifies this`marked, this`trees, this`leaves
      ensures ok ==> Bounded(b) && Grown(store, policy, old(M()), M())
      ensures ok ==> forall c | c in M().retained :: DataClosed(store, c, M())
      ensures Readable(store, b) ==> ok
    {
      ghost var start := M();
      GrownRefl(store, policy, start);
      for i := 0 to |retainedData|
        invariant Bounded(b) && Grown(store, policy, start, M())
        invariant retainedData == old(retainedData) && commits == old(commits)
        invariant forall j :: 0 <= j < i ==> DataClosed(store, retainedData[j], M())
      {
        ghost var before := M();
        var c := retainedData[i];
        assert c in M().retained && DataClosed(store, c, b);
        ok := MarkTreeRecursive(ReadCommit(store, c).value.tree, b);
        if !ok { return; }
        GrownTrans(store, policy, start, before, M(), {}, {}, {});
        ClosedMonotone(store, policy, before, M());
      }
      ok := true;
    }

    /** The number of commits whose data no root keeps. */
    method CountCompacted() returns (n: nat)
      requires Inv()
      ensures n == |M().commits - M().retained|
    {
      var retainedSet := SetOf(retainedData);
      var rest := compactedCandidates;
      n := 0;
      while rest != {}
        invariant rest <= compactedCandidates
        invariant n + |rest - retainedSet| == |compactedCandidates - retainedSet|
        decreases rest
      {
        var c :| c in rest;
        if c !in retainedSet {
          n := n + 1;
          assert rest - retainedSet == (rest - {c} - retainedSet) + {c};
        } else {
          assert rest - retainedSet == rest - {c} - retainedSet;
        }
        rest := rest - {c};
      }
      assert compactedCandidates - retainedSet == commits - retainedSet;
    }

    /**
     * The mark phase, starting from nothing.  It succeeds exactly when every root
     * and everything to be followed from the roots can be read, and it then holds
     * the least closed set of marks that contains the roots.
     */
    method Mark(r: Roots, ghost b: Marks) returns (ok: bool, compacted: nat)
      requires Bounded(b) && M() == Marks({}, {}, {}, {}, {}, {}) && RootsIn(store, policy, r, b)
      modifies this
      ensures ok ==> marked == M().All() && M().Within(b)
      ensures ok ==> Closed(store, policy, M()) && RootsIn(store, policy, r, M())
      ensures ok ==> Readable(store, M()) && r.Sound()
      ensures ok ==> compacted == |M().commits - M().retained|
      ensures r.Sound() && Readable(store, b) ==> ok
    {
      compacted := 0;
      if r.refs.None? {
        return false, 0;
      }
      ok := CheckExpected(r);
      if !ok { return; }
      ghost var m0 := M();
      ok := MarkDurable(r, b);
      if !ok { return; }
      ghost var m1 := M();
      ok := MarkLive(r, b);
      if !ok { return; }
      GrownTrans(store, policy, m0, m1, M(), {}, {}, {});
      ghost var m2 := M();
      ok := MarkRetainedData(b);
      if !ok { return; }
      GrownTrans(store, policy, m0, m2, M(), {}, {}, {});
      GrownFromNothing(m0, M());
      compacted := CountCompacted();
    }

    /** Roots 1 and 2: branch refs and agent-state latest refs. */
    method MarkDurable(r: Roots, ghost b: Marks) returns (ok: bool)
      requires Bounded(b) && RootsIn(store, policy, r, b) && r.refs.Some?
      modifies this
      ensures ok ==> Bounded(b) && Grown(store, policy, old(M()), M())
      ensures ok ==> RefsIn(store, policy, r.refs.value, M()) && StateRefsIn(r.stateRefs, M())
      ensures ok ==> forall i :: 0 <= i < |r.refs.value| ==> r.refs.value[i].1.Some?
      ensures ok ==> forall i :: 0 <= i < |r.stateRefs| ==> r.stateRefs[i].Some?
      ensures r.Sound() && Readable(store, b) ==> ok
    {
      ghost var m0 := M();
      ok := MarkRefs(r.refs.value, b);
      if !ok { return; }
      ghost var m1 := M();
      ok := MarkStateRefs(r.stateRefs, b);
      if !ok { return; }
      GrownTrans(store, policy, m0, m1, M(), {}, {}, {});
    }

    /** Roots 3 and 4: running union states and the daemon's open handles and trees. */
    method MarkLive(r: Roots, ghost b: Marks) returns (ok: bool)
      requires Bounded(b) && RootsIn(store, policy, r, b)
      modifies this
      ensures ok ==> Bounded(b) && Grown(store, policy, old(M()), M())
      ensures ok ==> AllIn(r.runtimeUnionStates, unionStates)
      ensures ok ==> AllIn(r.wtHashes, leaves) && AllIn(r.fhBlobHashes, leaves)
      ensures ok ==> AllIn(r.fhPinnedCommits, leaves) && AllIn(r.pending, leaves)
      ensures Readable(store, b) ==> ok
    {
      ghost var m0 := M();
      ok := MarkUnionStates(r.runtimeUnionStates, b);
      if !ok { return; }
      ghost var m1 := M();
      MarkDependencies(r.wtHashes + r.fhBlobHashes + r.fhPinnedCommits + r.pending, b);
      GrownTrans(store, policy, m0, m1, M(), {}, {}, {});
      ConcatIn(r.wtHashes, r.fhBlobHashes, r.fhPinnedCommits, r.pending, leaves);
    }

    lemma ConcatIn(p: seq<Hash>, q: seq<Hash>, r: seq<Hash>, s: seq<Hash>, t: set<Hash>)
      requires AllIn(p + q + r + s, t)
      ensures AllIn(p, t) && AllIn(q, t) && AllIn(r, t) && AllIn(s, t)
    {
      var all := p + q + r + s;
      forall i | 0 <= i < |p| ensures p[i] in t { assert all[i] == p[i]; }
      forall i | 0 <= i < |q| ensures q[i] in t { assert all[|p| + i] == q[i]; }
      forall i | 0 <= i < |r| ensures r[i] in t { assert all[|p| + |q| + i] == r[i]; }
      forall i | 0 <= i < |s| ensures s[i] in t { assert all[|p| + |q| + |r| + i] == s[i]; }
    }

    lemma GrownFromNothing(m0: Marks, m: Marks)
      requires m0 == Marks({}, {}, {}, {}, {}, {}) && Grown(store, policy, m0, m)
      requires m.retained <= m.commits && forall c | c in m.retained :: DataClosed(store, c, m)
      ensures Closed(store, policy, m) && Readable(store, m)
    {
      forall t | t in m.trees ensures ReadTree(store, t).Some? && TreeClosed(store, t, m) {
        assert t in m.trees - m0.trees - {};
      }
      forall c | c in m.commits ensures ReadCommit(store, c).Some? && CommitClosed(store, policy, c, m) {
        assert c in m.commits - m0.commits;
      }
      forall s | s in m.states ensures StateReadable(store, s) && StateClosed(store, s, m) {
        assert s in m.states - m0.states - {};
      }
      forall u | u in m.unions ensures UnionReadable(store, u) && UnionClosed(store, u, m) {
        assert u in m.unions - m0.unions - {};
      }
    }

    lemma StateClose(m0: Marks, m1: Marks, m2: Marks, m: Marks, id: Hash, r: StateRecord)
      requires id !in m0.states && m1 == m0.(states := m0.states + {id})
      requires Grown(store, policy, m1, m) && m2.Within(m)
      requires ReadState(store, id) == Some(r) && WellFormedState(r)
      requires Leads(r.payloadRef, m2.leaves) && LeadsCommit(r.fsCommit, m2)
      requires forall i :: 0 <= i < |r.dependencies| ==> r.dependencies[i] in m2.leaves
      requires Leads(r.unionState, m.unions) && Leads(r.parentState, m.states) && Leads(r.snapshotBase, m.states)
      ensures Grown(store, policy, m0, m)
    {}

    lemma UnionClose(m0: Marks, m1: Marks, m2: Marks, m: Marks, id: Hash, u: UnionState)
      requires id !in m0.unions && m1 == m0.(unions := m0.unions + {id})
      requires Grown(store, policy, m1, m) && m2.Within(m)
      requires ReadUnion(store, id) == Some(u) && WellFormedUnion(u)
      requires LeadsCommit(u.fsCommit, m2) && LeadsOpt(u.commandRef, m2.leaves) && LeadsOpt(u.resourceRef, m2.leaves)
      requires Leads(u.agentState, m.states) && Leads(u.parentUnion, m.unions)
      ensures Grown(store, policy, m0, m)
    {}

    lemma GrownClose(a: Marks, m: Marks, tree: Hash)
      requires tree !in a.trees && tree in m.trees
      requires ReadTree(store, tree).Some? && TreeClosed(store, tree, m)
      requires Grown(store, policy, a.(trees := a.trees + {tree}), m)
      ensures Grown(store, policy, a, m)
    {}
  }
}
