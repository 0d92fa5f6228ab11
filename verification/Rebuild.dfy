/**
 * The work-stack walk of `rebuild_working_tree` (src/cas/tree_serialize.cpp) as a
 * sequence of steps over any way of reading directories by hash.
 */
module Rebuild {
  import opened CasTypes

  type Reader = Hash -> Option<seq<TreeEntry>>

  datatype DirWork = DirWork(hash: Hash, prefix: string)

  datatype State =
    | Running(stack: seq<DirWork>, scratch: map<string, Entry>)
    | Failed(missing: Hash)

  function ChildPath(prefix: string, name: string): string {
    if prefix == "/" then "/" + name else prefix + "/" + name
  }

  function EntryOf(e: TreeEntry): Entry {
    Entry(e.kind, e.hash, e.mode)
  }

  /** The entries of one directory go into scratch, its subdirectories onto the stack. */
  function AddEntries(entries: seq<TreeEntry>, prefix: string, st: State): State
    requires st.Running?
  {
    if entries == [] then st
    else AddEntries(entries[1..], prefix, AddEntry(entries[0], prefix, st))
  }

  function AddEntry(e: TreeEntry, prefix: string, st: State): (r: State)
    requires st.Running?
    ensures r.Running?
  {
    var path := ChildPath(prefix, e.name);
    Running(if e.kind.Tree? then st.stack + [DirWork(e.hash, path)] else st.stack,
            st.scratch[path := EntryOf(e)])
  }

  lemma {:induction false} AddEntriesRuns(entries: seq<TreeEntry>, prefix: string, st: State)
    requires st.Running?
    ensures AddEntries(entries, prefix, st).Running?
  {
    if entries != [] {
      AddEntriesRuns(entries[1..], prefix, AddEntry(entries[0], prefix, st));
    }
  }

  predicate Halted(st: State) {
    st.Failed? || st.stack == []
  }

  /** One turn of the loop: pop a directory, read it, add its entries. */
  function Step(read: Reader, st: State): State {
    if Halted(st) then st
    else
      var work := st.stack[|st.stack| - 1];
      match read(work.hash)
      case None => Failed(work.hash)
      case Some(entries) => AddEntries(entries, work.prefix, Running(st.stack[..|st.stack| - 1], st.scratch))
  }

  function Steps(read: Reader, st: State, n: nat): State {
    if n == 0 then st else Step(read, Steps(read, st, n - 1))
  }

  function Start(root: Hash): State {
    Running([DirWork(root, "/")], map[])
  }

  /** Rebuilding root succeeds with this path map. */
  ghost predicate RebuildsTo(read: Reader, root: Hash, paths: map<string, Entry>) {
    exists n :: Steps(read, Start(root), n) == Running([], paths)
  }

  // ---- walks stay inside a closed set of trees -----------------------------------------

  /** The set holds every directory below its members, and leafSet their leaves. */
  ghost predicate Inside(read: Reader, trees: set<Hash>, leafSet: set<Hash>) {
    forall t | t in trees :: read(t).Some? ==> forall i :: 0 <= i < |read(t).value| ==> Covered(read(t).value[i], trees, leafSet)
  }

  predicate Covered(e: TreeEntry, trees: set<Hash>, leafSet: set<Hash>) {
    && (e.kind.Tree? ==> e.hash in trees)
    && (e.kind.Blob? || e.kind.Symlink? ==> e.hash == ZERO_HASH || e.hash in leafSet)
  }

  ghost predicate StateInside(st: State, trees: set<Hash>, leafSet: set<Hash>) {
    st.Running? ==>
      && (forall i :: 0 <= i < |st.stack| ==> st.stack[i].hash in trees)
      && (forall p | p in st.scratch :: (st.scratch[p].kind.Blob? || st.scratch[p].kind.Symlink?) ==>
            st.scratch[p].hash == ZERO_HASH || st.scratch[p].hash in leafSet)
  }

  lemma {:induction false} AddEntriesInside(entries: seq<TreeEntry>, prefix: string, st: State, trees: set<Hash>, leafSet: set<Hash>)
    requires st.Running? && StateInside(st, trees, leafSet)
    requires forall i :: 0 <= i < |entries| ==> Covered(entries[i], trees, leafSet)
    ensures StateInside(AddEntries(entries, prefix, st), trees, leafSet)
  {
    if entries != [] {
      assert Covered(entries[0], trees, leafSet);
      AddEntriesInside(entries[1..], prefix, AddEntry(entries[0], prefix, st), trees, leafSet);
    }
  }

  lemma {:induction false} StepsInside(read: Reader, root: Hash, n: nat, trees: set<Hash>, leafSet: set<Hash>)
    requires root in trees && Inside(read, trees, leafSet)
    ensures StateInside(Steps(read, Start(root), n), trees, leafSet)
  {
    if n > 0 {
      StepsInside(read, root, n - 1, trees, leafSet);
      var st := Steps(read, Start(root), n - 1);
      if !Halted(st) {
        var work := st.stack[|st.stack| - 1];
        if read(work.hash).Some? {
          AddEntriesInside(read(work.hash).value, work.prefix, Running(st.stack[..|st.stack| - 1], st.scratch), trees, leafSet);
        }
      }
    }
  }

  lemma StepAgrees(read: Reader, read': Reader, st: State, trees: set<Hash>, leafSet: set<Hash>)
    requires StateInside(st, trees, leafSet) && forall t | t in trees :: read(t) == read'(t)
    ensures Step(read, st) == Step(read', st)
  {
    if !Halted(st) {
      assert st.stack[|st.stack| - 1].hash in trees;
    }
  }

  /** Two ways of reading that agree on a closed set rebuild its trees alike. */
  lemma {:induction false} StepsAgree(read: Reader, read': Reader, root: Hash, n: nat, trees: set<Hash>, leafSet: set<Hash>)
    requires root in trees && Inside(read, trees, leafSet)
    requires forall t | t in trees :: read(t) == read'(t)
    ensures Steps(read, Start(root), n) == Steps(read', Start(root), n)
  {
    if n > 0 {
      StepsAgree(read, read', root, n - 1, trees, leafSet);
      StepsInside(read, root, n - 1, trees, leafSet);
      StepAgrees(read, read', Steps(read, Start(root), n - 1), trees, leafSet);
    }
  }

  lemma RebuildsAlike(read: Reader, read': Reader, root: Hash, paths: map<string, Entry>, trees: set<Hash>, leafSet: set<Hash>)
    requires root in trees && Inside(read, trees, leafSet)
    requires forall t | t in trees :: read(t) == read'(t)
    ensures RebuildsTo(read, root, paths) <==> RebuildsTo(read', root, paths)
  {
    if n :| Steps(read, Start(root), n) == Running([], paths) {
      StepsAgree(read, read', root, n, trees, leafSet);
    }
    if n :| Steps(read', Start(root), n) == Running([], paths) {
      StepsAgree(read, read', root, n, trees, leafSet);
    }
  }

  lemma RebuiltLeaves(read: Reader, root: Hash, paths: map<string, Entry>, trees: set<Hash>, leafSet: set<Hash>)
    requires root in trees && Inside(read, trees, leafSet) && RebuildsTo(read, root, paths)
    ensures forall p | p in paths :: (paths[p].kind.Blob? || paths[p].kind.Symlink?) ==>
      paths[p].hash == ZERO_HASH || paths[p].hash in leafSet
  {
    var n :| Steps(read, Start(root), n) == Running([], paths);
    StepsInside(read, root, n, trees, leafSet);
  }

  // ---- the loop ends ---------------------------------------------------------------------

  /** Subdirectories rank below their directory; content hashes make every real store such. */
  ghost predicate Acyclic(read: Reader, rank: Hash -> nat) {
    forall h | read(h).Some? :: AllBelow(rank, read(h).value, rank(h))
  }

  ghost predicate AllBelow(rank: Hash -> nat, entries: seq<TreeEntry>, r: nat) {
    forall i :: 0 <= i < |entries| && entries[i].kind.Tree? ==> rank(entries[i].hash) < r
  }

  /** How many turns a directory and all it leads to take; shared directories count each time. */
  ghost function Cost(read: Reader, rank: Hash -> nat, h: Hash): nat
    requires Acyclic(read, rank)
    decreases rank(h), 1, 0
  {
    1 + if read(h).Some? then EntriesCost(read, rank, read(h).value, rank(h)) else 0
  }

  ghost function EntriesCost(read: Reader, rank: Hash -> nat, entries: seq<TreeEntry>, r: nat): nat
    requires Acyclic(read, rank) && AllBelow(rank, entries, r)
    decreases r, 0, |entries|
  {
    if entries == [] then 0
    else
      assert AllBelow(rank, entries[1..], r) by { assert forall i :: 0 <= i < |entries[1..]| ==> entries[1..][i] == entries[i + 1]; }
      (if entries[0].kind.Tree? then Cost(read, rank, entries[0].hash) else 0) + EntriesCost(read, rank, entries[1..], r)
  }

  ghost function StackCost(read: Reader, rank: Hash -> nat, stack: seq<DirWork>): nat
    requires Acyclic(read, rank)
  {
    if stack == [] then 0 else StackCost(read, rank, stack[..|stack| - 1]) + Cost(read, rank, stack[|stack| - 1].hash)
  }

  lemma {:induction false} AddEntriesCost(read: Reader, rank: Hash -> nat, entries: seq<TreeEntry>, prefix: string, st: State, r: nat)
    requires Acyclic(read, rank) && AllBelow(rank, entries, r) && st.Running?
    ensures AddEntries(entries, prefix, st).Running?
    ensures StackCost(read, rank, AddEntries(entries, prefix, st).stack) == StackCost(read, rank, st.stack) + EntriesCost(read, rank, entries, r)
    decreases |entries|
  {
    if entries != [] {
      assert forall i :: 0 <= i < |entries[1..]| ==> entries[1..][i] == entries[i + 1];
      var st1 := AddEntry(entries[0], prefix, st);
      AddEntriesCost(read, rank, entries[1..], prefix, st1, r);
      if entries[0].kind.Tree? {
        assert st1.stack[..|st1.stack| - 1] == st.stack;
      }
    }
  }

  lemma StepCost(read: Reader, rank: Hash -> nat, st: State)
    requires Acyclic(read, rank) && !Halted(st)
    ensures Step(read, st).Running? ==> StackCost(read, rank, Step(read, st).stack) < StackCost(read, rank, st.stack)
  {
    var work := st.stack[|st.stack| - 1];
    if read(work.hash).Some? {
      AddEntriesCost(read, rank, read(work.hash).value, work.prefix, Running(st.stack[..|st.stack| - 1], st.scratch), rank(work.hash));
    }
  }

  lemma {:induction false} HaltedStays(read: Reader, st: State, n: nat, m: nat)
    requires n <= m && Halted(Steps(read, st, n))
    ensures Steps(read, st, m) == Steps(read, st, n)
    decreases m
  {
    if n < m {
      HaltedStays(read, st, n, m - 1);
    }
  }

  /** A walk that fails never rebuilds anything. */
  lemma FailureIsFinal(read: Reader, root: Hash, n: nat, paths: map<string, Entry>)
    requires Steps(read, Start(root), n).Failed?
    ensures !RebuildsTo(read, root, paths)
  {
    if m: nat :| Steps(read, Start(root), m) == Running([], paths) {
      if m <= n {
        HaltedStays(read, Start(root), m, n);
      } else {
        HaltedStays(read, Start(root), n, m);
      }
    }
  }

  /** There is at most one tree to rebuild. */
  lemma RebuildIsUnique(read: Reader, root: Hash, paths: map<string, Entry>, paths': map<string, Entry>)
    requires RebuildsTo(read, root, paths) && RebuildsTo(read, root, paths')
    ensures paths == paths'
  {
    var n: nat :| Steps(read, Start(root), n) == Running([], paths);
    var m: nat :| Steps(read, Start(root), m) == Running([], paths');
    if n <= m {
      HaltedStays(read, Start(root), n, m);
    } else {
      HaltedStays(read, Start(root), m, n);
    }
  }

  /** The walk stops at a directory that cannot be read. */
  ghost predicate StopsAt(read: Reader, root: Hash, missing: Hash) {
    exists n :: Steps(read, Start(root), n) == Failed(missing)
  }

  /** Ends on every acyclic store, and fails exactly when nothing can be rebuilt, naming the directory it stopped at. */
  method RebuildWorkingTree(read: Reader, root: Hash, ghost rank: Hash -> nat)
    returns (result: Option<map<string, Entry>>, missing: Hash)
    requires Acyclic(read, rank)
    ensures result.Some? ==> RebuildsTo(read, root, result.value)
    ensures result.None? ==> forall paths :: !RebuildsTo(read, root, paths)
    ensures result.None? ==> StopsAt(read, root, missing) && read(missing).None?
  {
    missing := ZERO_HASH;
    var stack, scratch: map<string, Entry> := [DirWork(root, "/")], map[];
    ghost var n: nat := 0;
    while stack != []
      invariant Steps(read, Start(root), n) == Running(stack, scratch)
      decreases StackCost(read, rank, stack)
    {
      var work := stack[|stack| - 1];
      StepCost(read, rank, Running(stack, scratch));
      assert Steps(read, Start(root), n + 1) == Step(read, Running(stack, scratch));
      n := n + 1;
      match read(work.hash) {
        case None =>
          forall paths ensures !RebuildsTo(read, root, paths) {
            FailureIsFinal(read, root, n, paths);
          }
          return None, work.hash;
        case Some(entries) =>
          stack, scratch := AddAll(entries, work.prefix, stack[..|stack| - 1], scratch);
      }
    }
    result := Some(scratch);
  }

  method AddAll(entries: seq<TreeEntry>, prefix: string, stack: seq<DirWork>, scratch: map<string, Entry>)
    returns (stack': seq<DirWork>, scratch': map<string, Entry>)
    ensures Running(stack', scratch') == AddEntries(entries, prefix, Running(stack, scratch))
  {
    stack', scratch' := stack, scratch;
    for i := 0 to |entries|
      invariant AddEntries(entries[i..], prefix, Running(stack', scratch')) == AddEntries(entries, prefix, Running(stack, scratch))
    {
      var e := entries[i];
      assert entries[i..][0] == e && entries[i..][1..] == entries[i + 1..];
      var path := if prefix == "/" then "/" + e.name else prefix + "/" + e.name;
      scratch' := scratch'[path := EntryOf(e)];
      if e.kind.Tree? {
        stack' := stack' + [DirWork(e.hash, path)];
      }
    }
  }
}
