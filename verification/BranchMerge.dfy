/**
 * The three-way merge of path maps (src/cas/branch_merge.cpp): per path the side
 * that changed wins, both sides changing differently is a conflict, and so is a live
 * path below something that is no directory.
 */
module BranchMerge {
  import opened CasTypes
  import opened Paths
  import opened OrderedMap
  import Spec = WorkingTreeSpec
  import Trees = WorkingTree

  type State = Option<Entry>
  type PathMap = map<string, Entry>

  function At(m: PathMap, p: string): State {
    if p in m then Some(m[p]) else None
  }

  // ---- one path -------------------------------------------------------------------------

  /** Directories are compared without their hashes, which are not maintained. */
  predicate SameEntry(a: State, b: State) {
    match (a, b)
    case (None, None) => true
    case (Some(x), Some(y)) => x.kind == y.kind && x.mode == y.mode && (x.kind.Tree? || x.hash == y.hash)
    case _ => false
  }

  predicate IsAbsent(a: State) {
    a.None? || a.value.kind.Deleted?
  }

  predicate SameMergeState(a: State, b: State) {
    (IsAbsent(a) && IsAbsent(b)) || SameEntry(a, b)
  }

  function EquivalentMergeState(a: State, b: State): State {
    if a.Some? && a.value.kind.Deleted? then a
    else if b.Some? && b.value.kind.Deleted? then b
    else if a.Some? then a else b
  }

  datatype Outcome = Clean(state: State) | Conflict

  function MergeOne(b: State, s: State, t: State): Outcome {
    var sourceChanged, targetChanged := !SameEntry(b, s), !SameEntry(b, t);
    if !sourceChanged && !targetChanged then Clean(b)
    else if !sourceChanged then Clean(t)
    else if !targetChanged then Clean(s)
    else if SameMergeState(s, t) then Clean(EquivalentMergeState(s, t))
    else Conflict
  }

  /** Equal up to directory hashes and the details of a whiteout. */
  predicate Alike(a: State, b: State) {
    && (a.Some? <==> b.Some?)
    && (a.Some? && !a.value.kind.Deleted? ==> SameEntry(a, b))
    && (a.Some? && a.value.kind.Deleted? ==> b.value.kind.Deleted?)
  }

  /** What the result is: a change made on one side only is taken, a change made on both must agree. */
  lemma MergeOneMeaning(b: State, s: State, t: State)
    ensures SameEntry(b, s) ==> MergeOne(b, s, t).Clean? && SameEntry(MergeOne(b, s, t).state, t)
    ensures SameEntry(b, t) ==> MergeOne(b, s, t).Clean? && SameEntry(MergeOne(b, s, t).state, s)
    ensures MergeOne(b, s, t).Conflict? <==> !SameEntry(b, s) && !SameEntry(b, t) && !SameMergeState(s, t)
    ensures !SameEntry(b, s) && !SameEntry(b, t) && MergeOne(b, s, t).Clean? ==>
      SameMergeState(MergeOne(b, s, t).state, s) && SameMergeState(MergeOne(b, s, t).state, t)
  {}

  lemma MergeOneSymmetric(b: State, s: State, t: State)
    ensures MergeOne(b, s, t).Conflict? <==> MergeOne(b, t, s).Conflict?
    ensures MergeOne(b, s, t).Clean? ==> Alike(MergeOne(b, s, t).state, MergeOne(b, t, s).state)
  {}

  // ---- whole trees -------------------------------------------------------------------------

  datatype Trio = Trio(base: PathMap, source: PathMap, target: PathMap)
  {
    function Paths(): set<string> {
      base.Keys + source.Keys + target.Keys
    }

    function One(p: string): Outcome {
      MergeOne(At(base, p), At(source, p), At(target, p))
    }

    /** The state recorded for a path that merges cleanly. */
    predicate Recorded(p: string) {
      p in Paths() && One(p).Clean?
    }

    predicate LiveAt(p: string) {
      Recorded(p) && !IsAbsent(One(p).state)
    }

    predicate TreeAt(p: string) {
      Recorded(p) && One(p).state.Some? && One(p).state.value.kind.Tree?
    }

    function Swapped(): Trio {
      Trio(base, target, source)
    }
  }

  function ParentPath(p: string): (q: string)
    ensures q == "" || (|q| < |p| && q + "/" <= p)
  {
    var slash := LastSlash(p);
    if slash <= 0 then ""
    else
      assert p[..slash] + "/" == p[..slash + 1];
      p[..slash]
  }

  /** The nearest recorded ancestor that is no directory. */
  function Obstacle(m: Trio, p: string): Option<string>
    decreases |p|
  {
    var a := ParentPath(p);
    if a == "" then None
    else if m.Recorded(a) && !m.TreeAt(a) then Some(a)
    else Obstacle(m, a)
  }

  /** The conflicts of a merge: diverging paths, and obstacles above live paths. */
  predicate ContentConflict(m: Trio, p: string) {
    p in m.Paths() && m.One(p).Conflict?
  }

  ghost predicate StructuralConflict(m: Trio, a: string) {
    exists p :: m.LiveAt(p) && Obstacle(m, p) == Some(a)
  }

  ghost predicate ConflictFree(m: Trio) {
    forall x :: !ContentConflict(m, x) && !StructuralConflict(m, x)
  }

  /** The directories above a path, nearest first. */
  predicate Above(a: string, p: string)
    decreases |p|
  {
    var q := ParentPath(p);
    q != "" && (a == q || Above(a, q))
  }

  lemma {:induction false} NoObstacleMeansTrees(m: Trio, p: string, a: string)
    requires Obstacle(m, p).None? && Above(a, p) && m.Recorded(a)
    ensures m.TreeAt(a)
    decreases |p|
  {
    if a != ParentPath(p) {
      NoObstacleMeansTrees(m, ParentPath(p), a);
    }
  }

  lemma {:induction false} ObstacleIsAbove(m: Trio, p: string)
    requires Obstacle(m, p).Some?
    ensures Above(Obstacle(m, p).value, p) && m.Recorded(Obstacle(m, p).value) && !m.TreeAt(Obstacle(m, p).value)
    decreases |p|
  {
    var a := ParentPath(p);
    if !(m.Recorded(a) && !m.TreeAt(a)) {
      ObstacleIsAbove(m, a);
    }
  }

  /** Every live path has only directories above it, as far as the merge records them. */
  ghost predicate OnlyTreesAbove(m: Trio) {
    forall p, a :: m.LiveAt(p) && Above(a, p) && m.Recorded(a) ==> m.TreeAt(a)
  }

  lemma ObstacleConflicts(m: Trio, p: string, a: string)
    requires forall x :: !StructuralConflict(m, x)
    requires m.LiveAt(p) && Above(a, p) && m.Recorded(a)
    ensures m.TreeAt(a)
  {
    if Obstacle(m, p).Some? {
      assert StructuralConflict(m, Obstacle(m, p).value);
    }
    NoObstacleMeansTrees(m, p, a);
  }

  /** A merge has a structural conflict exactly when some live path lies below a recorded non-directory. */
  lemma StructureExactly(m: Trio)
    ensures (forall x :: !StructuralConflict(m, x)) <==> OnlyTreesAbove(m)
  {
    if forall x :: !StructuralConflict(m, x) {
      forall p, a | m.LiveAt(p) && Above(a, p) && m.Recorded(a) ensures m.TreeAt(a) {
        ObstacleConflicts(m, p, a);
      }
    }
    if OnlyTreesAbove(m) {
      forall x ensures !StructuralConflict(m, x) {
        if p :| m.LiveAt(p) && Obstacle(m, p) == Some(x) {
          ObstacleIsAbove(m, p);
        }
      }
    }
  }

  // ---- swapping the sides -------------------------------------------------------------------

  lemma SwapOne(m: Trio, p: string)
    ensures ContentConflict(m, p) <==> ContentConflict(m.Swapped(), p)
    ensures m.Recorded(p) <==> m.Swapped().Recorded(p)
    ensures m.Recorded(p) ==> Alike(m.One(p).state, m.Swapped().One(p).state)
    ensures m.LiveAt(p) <==> m.Swapped().LiveAt(p)
    ensures m.TreeAt(p) <==> m.Swapped().TreeAt(p)
  {
    MergeOneSymmetric(At(m.base, p), At(m.source, p), At(m.target, p));
  }

  lemma {:induction false} SwapObstacle(m: Trio, p: string)
    ensures Obstacle(m, p) == Obstacle(m.Swapped(), p)
    decreases |p|
  {
    var a := ParentPath(p);
    if a != "" {
      SwapOne(m, a);
      SwapObstacle(m, a);
    }
  }

  /** Merging with the sides exchanged has the same conflicts and, up to directory hashes, the same result. */
  lemma MergeIsSymmetric(m: Trio, x: string)
    ensures ContentConflict(m, x) <==> ContentConflict(m.Swapped(), x)
    ensures StructuralConflict(m, x) <==> StructuralConflict(m.Swapped(), x)
    ensures m.Recorded(x) ==> m.Swapped().Recorded(x) && Alike(m.One(x).state, m.Swapped().One(x).state)
  {
    SwapOne(m, x);
    if p :| m.LiveAt(p) && Obstacle(m, p) == Some(x) {
      SwapOne(m, p);
      SwapObstacle(m, p);
      assert m.Swapped().LiveAt(p);
    }
    if p :| m.Swapped().LiveAt(p) && Obstacle(m.Swapped(), p) == Some(x) {
      SwapOne(m, p);
      SwapObstacle(m, p);
      assert m.LiveAt(p);
    }
  }

  // ---- nothing to merge -----------------------------------------------------------------------

  /** Every live path has only directories above it, as far as they are recorded. */
  ghost predicate Sound(t: PathMap) {
    forall p, a | p in t && !t[p].kind.Deleted? && a in t && Above(a, p) :: t[a].kind.Tree?
  }

  /** Paths known to only one side merge to an empty state; they count as recorded. */
  ghost predicate SoundAgainst(m: Trio) {
    Sound(m.target) && forall p, a | p in m.target && !m.target[p].kind.Deleted? && a in m.base && Above(a, p) :: a in m.target
  }

  lemma UnchangedSource(m: Trio, p: string)
    requires SameEntry(At(m.base, p), At(m.source, p)) && p in m.Paths()
    ensures m.Recorded(p) && SameEntry(m.One(p).state, At(m.target, p))
  {}

  /** When the source changed nothing the result is the target; it conflicts exactly when the target is unsound. */
  lemma SourceEqualsBase(m: Trio)
    requires forall p :: SameEntry(At(m.base, p), At(m.source, p))
    ensures ConflictFree(m) <==> SoundAgainst(m)
    ensures forall p | p in m.Paths() :: m.Recorded(p) && SameEntry(m.One(p).state, At(m.target, p))
  {
    forall p ensures m.Recorded(p) <==> p in m.Paths() {
      assert SameEntry(At(m.base, p), At(m.source, p));
    }
    forall p | p in m.Paths() ensures SameEntry(m.One(p).state, At(m.target, p)) {
      UnchangedSource(m, p);
    }
    StructureExactly(m);
    if SoundAgainst(m) {
      SoundGivesTrees(m);
    }
    if OnlyTreesAbove(m) {
      TreesGiveSound(m);
    }
  }

  lemma SoundGivesTrees(m: Trio)
    requires SoundAgainst(m) && forall p :: SameEntry(At(m.base, p), At(m.source, p))
    ensures OnlyTreesAbove(m)
  {
    forall p, a | m.LiveAt(p) && Above(a, p) && m.Recorded(a) ensures m.TreeAt(a) {
      UnchangedSource(m, p);
      UnchangedSource(m, a);
      assert SameEntry(At(m.base, a), At(m.source, a));
    }
  }

  lemma TreesGiveSound(m: Trio)
    requires OnlyTreesAbove(m) && forall p :: SameEntry(At(m.base, p), At(m.source, p))
    ensures SoundAgainst(m)
  {
    forall p, a | p in m.target && !m.target[p].kind.Deleted? && Above(a, p) && a in m.target + m.base
      ensures a in m.target && m.target[a].kind.Tree?
    {
      UnchangedSource(m, p);
      UnchangedSource(m, a);
      assert m.LiveAt(p) && m.Recorded(a);
    }
  }

  // ---- the merge as it runs ---------------------------------------------------------------------

  /** A copy of both layers of a tree, whiteouts included. */
  method ToPathMap(wt: Trees.WorkingTree) returns (m: Ordered<Entry>)
    requires wt.Valid()
    ensures m.Valid() && m.at == wt.V().Raw()
  {
    var all := wt.MergedForEach();
    ghost var t := wt.V();
    m := Empty();
    for k := 0 to |all|
      invariant m.Valid()
      invariant forall i :: 0 <= i < k ==> all[i].0 in m.at
      invariant forall p | p in m.at :: t.LookupRaw(p) == Some(m.at[p])
    {
      ListedIsKnown(all, t, k);
      PutValid(m, all[k].0, all[k].1);
      m := Put(m, all[k].0, all[k].1);
    }
    CopyIsRaw(all, t, m.at);
  }

  lemma ListedIsKnown(all: seq<(string, Entry)>, t: Spec.Wt, k: nat)
    requires Trees.Lists(all, t, "", false, true) && k < |all|
    ensures t.LookupRaw(all[k].0) == Some(all[k].1)
  {
    assert (all[k].0, all[k].1) in all;
  }

  lemma CopyIsRaw(all: seq<(string, Entry)>, t: Spec.Wt, m: PathMap)
    requires Trees.Lists(all, t, "", false, true)
    requires forall i :: 0 <= i < |all| ==> all[i].0 in m
    requires forall p | p in m :: t.LookupRaw(p) == Some(m[p])
    ensures m == t.Raw()
  {
    forall p | p in t.Raw() ensures p in m {
      Spec.RawIsLookup(t, p);
      assert (p, t.Raw()[p]) in all;
      var i :| 0 <= i < |all| && all[i] == (p, t.Raw()[p]);
    }
  }

  /** The states merged for the paths done so far, and those of them that diverged. */
  ghost predicate MergedUpTo(m: Trio, done: set<string>, merged: Ordered<State>, conflicts: Ordered<()>) {
    && done <= m.Paths() && merged.Valid() && conflicts.Valid()
    && (forall p :: p in merged.at <==> p in done && m.Recorded(p))
    && (forall p | p in merged.at :: merged.at[p] == m.One(p).state)
    && (forall p :: p in conflicts.at <==> p in done && ContentConflict(m, p))
  }

  method MergeNext(m: Trio, ghost done: set<string>, p: string, merged: Ordered<State>, conflicts: Ordered<()>)
    returns (merged': Ordered<State>, conflicts': Ordered<()>)
    requires MergedUpTo(m, done, merged, conflicts) && p in m.Paths()
    ensures MergedUpTo(m, done + {p}, merged', conflicts')
  {
    merged', conflicts' := merged, conflicts;
    match m.One(p) {
      case Clean(state) =>
        PutValid(merged, p, state);
        merged' := Put(merged, p, state);
      case Conflict =>
        PutValid(conflicts, p, ());
        conflicts' := Put(conflicts, p, ());
    }
  }

  ghost predicate HoldsStates(m: Trio, merged: Ordered<State>) {
    forall x :: (x in merged.at <==> m.Recorded(x)) && (m.Recorded(x) && x in merged.at ==> merged.at[x] == m.One(x).state)
  }

  /** The nearest recorded non-directory above a path, by climbing. */
  method Climb(m: Trio, merged: Ordered<State>, p: string) returns (found: Option<string>)
    requires HoldsStates(m, merged)
    ensures found == Obstacle(m, p)
  {
    var a := ParentPath(p);
    ghost var from := p;
    while a != ""
      invariant a == ParentPath(from) && Obstacle(m, from) == Obstacle(m, p)
      decreases |from|
    {
      if a in merged.at && !(merged.at[a].Some? && merged.at[a].value.kind.Tree?) {
        return Some(a);
      }
      from := a;
      a := ParentPath(a);
    }
    found := None;
  }

  ghost predicate DetectedUpTo(m: Trio, done: set<string>, conflicts: Ordered<()>) {
    && conflicts.Valid()
    && (forall x :: x in conflicts.at <==> ContentConflict(m, x) || exists p :: p in done && m.LiveAt(p) && Obstacle(m, p) == Some(x))
  }

  method DetectNext(m: Trio, merged: Ordered<State>, ghost done: set<string>, p: string, conflicts: Ordered<()>)
    returns (conflicts': Ordered<()>)
    requires HoldsStates(m, merged)
    requires DetectedUpTo(m, done, conflicts) && p in merged.at
    ensures DetectedUpTo(m, done + {p}, conflicts')
  {
    conflicts' := conflicts;
    if merged.at[p].None? || merged.at[p].value.kind.Deleted? {
      return;
    }
    var found := Climb(m, merged, p);
    if found.Some? {
      PutValid(conflicts, found.value, ());
      conflicts' := Put(conflicts, found.value, ());
    }
  }

  function Members(keys: seq<string>): set<string> {
    set x | x in keys
  }

  lemma AllMembers(keys: seq<string>)
    ensures forall k :: 0 <= k < |keys| ==> Members(keys[..k + 1]) == Members(keys[..k]) + {keys[k]}
    ensures keys[..|keys|] == keys
  {
    forall k | 0 <= k < |keys| ensures Members(keys[..k + 1]) == Members(keys[..k]) + {keys[k]} {
      assert keys[..k + 1] == keys[..k] + [keys[k]];
    }
  }

  method MergeAllPaths(m: Trio, paths: seq<string>) returns (merged: Ordered<State>, conflicts: Ordered<()>)
    requires forall p :: p in paths <==> p in m.Paths()
    ensures MergedUpTo(m, m.Paths(), merged, conflicts)
  {
    merged, conflicts := Empty(), Empty();
    AllMembers(paths);
    for k := 0 to |paths|
      invariant MergedUpTo(m, Members(paths[..k]), merged, conflicts)
    {
      assert paths[k] in paths;
      merged, conflicts := MergeNext(m, Members(paths[..k]), paths[k], merged, conflicts);
    }
    assert Members(paths) == m.Paths();
  }

  method DetectStructuralConflicts(m: Trio, merged: Ordered<State>, conflicts0: Ordered<()>) returns (conflicts: Ordered<()>)
    requires MergedUpTo(m, m.Paths(), merged, conflicts0)
    ensures conflicts.Valid()
    ensures forall x :: x in conflicts.at <==> ContentConflict(m, x) || StructuralConflict(m, x)
  {
    conflicts := conflicts0;
    AllMembers(merged.keys);
    for k := 0 to |merged.keys|
      invariant DetectedUpTo(m, Members(merged.keys[..k]), conflicts)
    {
      assert merged.keys[k] in merged.keys;
      conflicts := DetectNext(m, merged, Members(merged.keys[..k]), merged.keys[k], conflicts);
    }
    forall x ensures StructuralConflict(m, x) <==> exists p :: p in Members(merged.keys) && m.LiveAt(p) && Obstacle(m, p) == Some(x) {
      if p :| m.LiveAt(p) && Obstacle(m, p) == Some(x) {
        assert p in merged.at;
        assert p in merged.keys;
      }
    }
  }

  /**
   * Succeeds exactly without conflicts and otherwise names exactly the conflicting paths,
   * in order.  On success the new tree holds the merged state of every path, else nothing.
   */
  method MergeTrees(base: Trees.WorkingTree, source: Trees.WorkingTree, target: Trees.WorkingTree)
    returns (ok: bool, merged: Trees.WorkingTree, conflicts: seq<string>)
    requires base.Valid() && source.Valid() && target.Valid()
    ensures fresh(merged) && merged.Valid()
    ensures var m := Trio(base.V().Raw(), source.V().Raw(), target.V().Raw());
      && Sorted(conflicts) && (forall x :: x in conflicts <==> ContentConflict(m, x) || StructuralConflict(m, x))
      && (ok <==> ConflictFree(m))
      && (ok ==> forall p :: merged.V().LookupRaw(p) == if m.Recorded(p) then m.One(p).state else None)
      && (!ok ==> merged.V() == Spec.Wt(map[], map[], {}, false))
  {
    var b := ToPathMap(base);
    var s := ToPathMap(source);
    var t := ToPathMap(target);
    var m := Trio(b.at, s.at, t.at);
    var paths := Merge(Merge(b.keys, s.keys), t.keys);
    forall p ensures p in paths <==> p in m.Paths() {
      MergeMembers(b.keys, s.keys, p);
      MergeMembers(Merge(b.keys, s.keys), t.keys, p);
    }
    var states, content := MergeAllPaths(m, paths);
    var all := DetectStructuralConflicts(m, states, content);
    conflicts := all.keys;
    merged := new Trees.WorkingTree();
    ok := conflicts == [];
    assert ok <==> ConflictFree(m) by {
      if !ok {
        assert conflicts[0] in conflicts;
      }
    }
    if ok {
      ApplyStates(merged, states);
    }
  }

  method ApplyStates(wt: Trees.WorkingTree, states: Ordered<State>)
    requires wt.Valid() && wt.V() == Spec.Wt(map[], map[], {}, false) && states.Valid()
    modifies wt`delta
    ensures wt.Valid() && forall p :: wt.V().LookupRaw(p) == if p in states.at then states.at[p] else None
  {
    for k := 0 to |states.keys|
      invariant wt.Valid() && wt.V().base == map[]
      invariant forall p :: wt.V().LookupRaw(p) == if p in states.keys[..k] then states.at[p] else None
    {
      var p := states.keys[k];
      assert p in states.keys;
      assert states.keys[..k + 1] == states.keys[..k] + [p];
      assert p !in states.keys[..k] by {
        if p in states.keys[..k] {
          var i :| 0 <= i < k && states.keys[i] == p;
          SortedDistinct(states.keys, i, k);
        }
      }
      if states.at[p].Some? {
        wt.Insert(p, states.at[p].value);
      }
    }
    assert states.keys[..|states.keys|] == states.keys;
  }
}
