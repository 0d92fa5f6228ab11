/**
 * What rebuilding a serialized working tree gives back (src/cas/tree_serialize.cpp):
 * exactly the paths that a chain of directories leads to, with their kinds, modes and
 * leaf hashes, whiteouts included; and when that is the whole tree.
 */
module TreeRoundTrip {
  import opened CasTypes
  import opened Bytes
  import opened Paths
  import opened Sequences
  import opened TreeCodec
  import opened Rebuild
  import opened TreeSerialize
  import Spec = WorkingTreeSpec
  import Trees = WorkingTree

  type Raw = map<string, Entry>

  /** A path that is cut into parent and name and put together again the same. */
  predicate Plain(p: string) {
    Split(p).1 != "" && ChildPath(Split(p).0, Split(p).1) == p
  }

  /** A path that is written is put together as usual, and its name and mode fit their fields. */
  predicate Fits(raw: Raw, p: string)
    requires p in raw
  {
    var name := Split(p).1;
    Skipped(p, raw[p]) || (Plain(p) && ByteString(name) && |name| < TWO16 && raw[p].mode < TWO32)
  }

  ghost predicate AllFitting(raw: Raw) {
    forall p | p in raw :: Fits(raw, p)
  }

  /** The path is written, and a chain of directories leads to it from the root. */
  predicate Reached(raw: Raw, p: string)
    decreases |p|
  {
    var parent := Split(p).0;
    && p in raw && !Skipped(p, raw[p]) && Plain(p)
    && (parent == "/" || (|parent| < |p| && Reached(raw, parent) && raw[parent].kind.Tree?))
  }

  predicate IsDir(raw: Raw, d: string) {
    d == "/" || (Reached(raw, d) && raw[d].kind.Tree?)
  }

  /** The part of a tree that a chain of directories leads to. */
  function ReachedPart(raw: Raw): Raw {
    map p | p in raw && Reached(raw, p) :: raw[p]
  }

  /** A path that is written in a directory of the tree or in the root. */
  predicate Anchored(raw: Raw, p: string)
    requires p in raw
  {
    var parent := Split(p).0;
    !Skipped(p, raw[p]) && (parent == "/" || (parent in raw && raw[parent].kind.Tree?))
  }

  lemma ReachedInDir(raw: Raw, p: string)
    requires p in raw && Fits(raw, p) && !Skipped(p, raw[p]) && IsDir(raw, Split(p).0)
    ensures Reached(raw, p)
  {
    ParentIsShorter(p);
  }

  lemma ReachedIsAnchored(raw: Raw, p: string)
    requires Reached(raw, p)
    ensures p in raw && Anchored(raw, p) && IsDir(raw, Split(p).0)
  {
    var parent := Split(p).0;
    if parent != "/" {
      assert Reached(raw, parent);
    }
  }

  lemma {:induction false} AnchoredIsReached(raw: Raw, p: string)
    requires AllFitting(raw) && (forall q | q in raw :: Anchored(raw, q)) && p in raw
    ensures Reached(raw, p)
    decreases |p|
  {
    assert Anchored(raw, p) && Fits(raw, p);
    ParentIsShorter(p);
    if Split(p).0 != "/" {
      AnchoredIsReached(raw, Split(p).0);
    }
  }

  /** Everything is reached exactly when no path is skipped or without a directory. */
  lemma AllReachedExactly(raw: Raw)
    requires AllFitting(raw)
    ensures (forall p | p in raw :: Reached(raw, p)) <==> (forall p | p in raw :: Anchored(raw, p))
  {
    if forall p | p in raw :: Anchored(raw, p) {
      forall p | p in raw ensures Reached(raw, p) {
        AnchoredIsReached(raw, p);
      }
    }
    if forall p | p in raw :: Reached(raw, p) {
      forall p | p in raw ensures Anchored(raw, p) {
        ReachedIsAnchored(raw, p);
      }
    }
  }

  /** The merged entries of a tree, each path once. */
  ghost predicate Enumerates(es: seq<(string, Entry)>, raw: Raw) {
    && (forall i :: 0 <= i < |es| ==> es[i].0 in raw && es[i].1 == raw[es[i].0])
    && (forall i, j :: 0 <= i < j < |es| ==> es[i].0 != es[j].0)
    && (forall p | p in raw :: exists i :: 0 <= i < |es| && es[i].0 == p)
  }

  /** The walk over both layers of a tree enumerates its merged entries. */
  lemma WalkEnumerates(es: seq<(string, Entry)>, t: Spec.Wt)
    requires Trees.Lists(es, t, "", false, true)
    ensures Enumerates(es, t.Raw())
  {
    forall i | 0 <= i < |es| ensures es[i].0 in t.Raw() && es[i].1 == t.Raw()[es[i].0] {
      assert (es[i].0, es[i].1) in es;
      Spec.RawIsLookup(t, es[i].0);
    }
    forall i, j | 0 <= i < j < |es| ensures es[i].0 != es[j].0 {
      Trees.DistinctPaths(es, i, j);
    }
    forall p | p in t.Raw() ensures exists i :: 0 <= i < |es| && es[i].0 == p {
      Spec.RawIsLookup(t, p);
      assert (p, t.Raw()[p]) in es;
      var i :| 0 <= i < |es| && es[i] == (p, t.Raw()[p]);
    }
  }

  // ---- what the directories hold ------------------------------------------------------------

  /** The lines of one directory, in the order of the entries. */
  function LinesOf(es: seq<(string, Entry)>, d: string): seq<Line> {
    if es == [] then []
    else
      var (p, e) := es[|es| - 1];
      var rest := LinesOf(es[..|es| - 1], d);
      if Skipped(p, e) || Split(p).0 != d then rest else rest + [LineOf(Split(p).1, e)]
  }

  lemma {:induction false} CollectLines(es: seq<(string, Entry)>, d: string)
    ensures Children(Collect(es), d) == LinesOf(es, d)
    ensures d in Collect(es) <==> LinesOf(es, d) != []
  {
    if es != [] {
      CollectLines(es[..|es| - 1], d);
      var (p, e) := es[|es| - 1];
      if !Skipped(p, e) {
        CollectLines(es[..|es| - 1], Split(p).0);
      }
    }
  }

  lemma {:induction false} WithEmptyAdds(dirs: Dirs, es: seq<(string, Entry)>, d: string)
    ensures Children(WithEmpty(dirs, es), d) == Children(dirs, d)
    ensures d in WithEmpty(dirs, es) <==> d in dirs || exists i :: 0 <= i < |es| && es[i].0 == d && es[i].1.kind.Tree?
  {
    if es != [] {
      var init := es[..|es| - 1];
      WithEmptyAdds(dirs, init, d);
      var last := es[|es| - 1];
      assert AddEmpty(WithEmpty(dirs, init), last.0, last.1) == WithEmpty(dirs, es);
      assert forall i :: 0 <= i < |init| ==> init[i] == es[i];
    }
  }

  /** The line that a path becomes in its parent directory. */
  function LineFor(raw: Raw, p: string): Line
    requires p in raw
  {
    LineOf(Split(p).1, raw[p])
  }

  /** A path that is written in d. */
  predicate WrittenIn(raw: Raw, p: string, d: string) {
    p in raw && !Skipped(p, raw[p]) && Split(p).0 == d
  }

  /** A directory lists exactly its children. */
  lemma {:induction false} LinesAreChildren(es: seq<(string, Entry)>, raw: Raw, d: string, line: Line)
    requires forall i :: 0 <= i < |es| ==> es[i].0 in raw && es[i].1 == raw[es[i].0]
    ensures line in LinesOf(es, d) <==>
            exists i :: 0 <= i < |es| && WrittenIn(raw, es[i].0, d) && line == LineFor(raw, es[i].0)
  {
    if es != [] {
      var init := es[..|es| - 1];
      assert forall i :: 0 <= i < |init| ==> init[i] == es[i];
      LinesAreChildren(init, raw, d, line);
      var (p, e) := es[|es| - 1];
      if WrittenIn(raw, p, d) {
        assert LinesOf(es, d) == LinesOf(init, d) + [LineFor(raw, p)];
      }
    }
  }

  lemma {:induction false} LinesCount(es: seq<(string, Entry)>, d: string)
    ensures |LinesOf(es, d)| <= |es|
  {
    if es != [] {
      LinesCount(es[..|es| - 1], d);
    }
  }

  // ---- one directory of the serialized tree ----------------------------------------------------

  /** What is reached of the tree, with each directory's hash filled in. */
  ghost function Full(hashOf: Hasher, dirs: Dirs, bound: nat, raw: Raw): Raw
    requires Bounded(dirs, bound)
  {
    map p | p in raw && Reached(raw, p) :: if raw[p].kind.Tree? && p in dirs then raw[p].(hash := DirHash(hashOf, dirs, bound, p)) else raw[p]
  }

  function EntryOfLine(e: Line): TreeEntry {
    TreeEntry(e.name, e.mode, KindOf(e.kind), e.hash)
  }

  /** Reading a directory by its hash. */
  function ReadDir(store: TreeStore, h: Hash): Option<seq<TreeEntry>> {
    if h !in store then None
    else
      match Decode(store[h])
      case None => None
      case Some(lines) => Some(MapAll(EntryOfLine, lines))
  }

  function ReaderOf(store: TreeStore): Reader {
    h => ReadDir(store, h)
  }

  /** An entry that a directory's object holds: one of its children, with the right hash. */
  ghost predicate RightEntry(full: Raw, d: string, e: TreeEntry) {
    var p := ChildPath(d, e.name);
    p in full && Split(p).0 == d && EntryOf(e) == full[p]
  }

  /** What reading a directory gives: exactly its children. */
  ghost predicate RightEntries(full: Raw, d: string, entries: seq<TreeEntry>) {
    && (forall i :: 0 <= i < |entries| ==> RightEntry(full, d, entries[i]))
    && (forall p | p in full && Split(p).0 == d :: exists i :: 0 <= i < |entries| && ChildPath(d, entries[i].name) == p)
  }

  /** The situation of the theorem. */
  ghost predicate Setting(hashOf: Hasher, es: seq<(string, Entry)>, bound: nat, raw: Raw) {
    AllFitting(raw) && Enumerates(es, raw) && |es| < TWO32 && Bounded(DirsOf(es), bound)
  }

  lemma DirsAreTrees(hashOf: Hasher, es: seq<(string, Entry)>, bound: nat, raw: Raw, d: string)
    requires Setting(hashOf, es, bound, raw)
    ensures d in DirsOf(es) ==> DirsOf(es)[d] == LinesOf(es, d)
    ensures d in raw && raw[d].kind.Tree? ==> d in DirsOf(es)
    ensures d !in DirsOf(es) ==> LinesOf(es, d) == []
  {
    CollectLines(es, d);
    WithEmptyAdds(Collect(es), es, d);
  }

  lemma ResolvedLine(hashOf: Hasher, es: seq<(string, Entry)>, bound: nat, raw: Raw, p: string)
    requires Setting(hashOf, es, bound, raw) && Reached(raw, p) && Split(p).0 in DirsOf(es)
    ensures LineFor(raw, p).name != ""
    ensures Resolve(hashOf, DirsOf(es), bound, Split(p).0, LineFor(raw, p)) == LineOf(Split(p).1, Full(hashOf, DirsOf(es), bound, raw)[p])
  {}

  lemma FindChild(es: seq<(string, Entry)>, raw: Raw, d: string, line: Line) returns (p: string)
    requires AllFitting(raw) && Enumerates(es, raw) && IsDir(raw, d) && line in LinesOf(es, d)
    ensures Reached(raw, p) && Split(p).0 == d && line == LineFor(raw, p)
  {
    LinesAreChildren(es, raw, d, line);
    var k :| 0 <= k < |es| && WrittenIn(raw, es[k].0, d) && line == LineFor(raw, es[k].0);
    p := es[k].0;
    assert Fits(raw, p);
    ReachedInDir(raw, p);
  }

  lemma FindLine(es: seq<(string, Entry)>, raw: Raw, d: string, p: string) returns (i: nat)
    requires Enumerates(es, raw) && WrittenIn(raw, p, d)
    ensures i < |LinesOf(es, d)| && LinesOf(es, d)[i] == LineFor(raw, p)
  {
    LinesAreChildren(es, raw, d, LineFor(raw, p));
    var k :| 0 <= k < |es| && es[k].0 == p;
    i :| 0 <= i < |LinesOf(es, d)| && LinesOf(es, d)[i] == LineFor(raw, p);
  }

  /** Each line of a directory is one of its children, resolved. */
  lemma LineIsChild(hashOf: Hasher, es: seq<(string, Entry)>, bound: nat, raw: Raw, d: string, i: nat) returns (p: string)
    requires Setting(hashOf, es, bound, raw) && IsDir(raw, d) && d in DirsOf(es) && i < |DirsOf(es)[d]|
    ensures Reached(raw, p) && Split(p).0 == d
    ensures DirLines(hashOf, DirsOf(es), bound, d)[i] == LineOf(Split(p).1, Full(hashOf, DirsOf(es), bound, raw)[p])
  {
    DirsAreTrees(hashOf, es, bound, raw, d);
    p := FindChild(es, raw, d, DirsOf(es)[d][i]);
    LineAt(hashOf, DirsOf(es), bound, d, i);
    ResolvedLine(hashOf, es, bound, raw, p);
  }

  lemma ChildHasLine(hashOf: Hasher, es: seq<(string, Entry)>, bound: nat, raw: Raw, d: string, p: string) returns (i: nat)
    requires Setting(hashOf, es, bound, raw) && Reached(raw, p) && Split(p).0 == d
    ensures d in DirsOf(es) && i < |DirsOf(es)[d]|
    ensures DirLines(hashOf, DirsOf(es), bound, d)[i] == LineOf(Split(p).1, Full(hashOf, DirsOf(es), bound, raw)[p])
  {
    DirsAreTrees(hashOf, es, bound, raw, d);
    i := FindLine(es, raw, d, p);
    LineAt(hashOf, DirsOf(es), bound, d, i);
    ResolvedLine(hashOf, es, bound, raw, p);
  }

  lemma KindsRoundTrip(k: EntryKind)
    ensures KindOf(KindByte(k)) == k
  {}

  lemma EntryFits(full: Raw, p: string, d: string)
    requires p in full && Split(p).0 == d && Plain(p)
    ensures RightEntry(full, d, EntryOfLine(LineOf(Split(p).1, full[p])))
    ensures ChildPath(d, EntryOfLine(LineOf(Split(p).1, full[p])).name) == p
  {
    KindsRoundTrip(full[p].kind);
  }

  lemma EveryEntryFits(hashOf: Hasher, es: seq<(string, Entry)>, bound: nat, raw: Raw, d: string, i: nat)
    requires Setting(hashOf, es, bound, raw) && IsDir(raw, d) && d in DirsOf(es) && i < |Sort(DirLines(hashOf, DirsOf(es), bound, d))|
    ensures RightEntry(Full(hashOf, DirsOf(es), bound, raw), d, EntryOfLine(Sort(DirLines(hashOf, DirsOf(es), bound, d))[i]))
  {
    var lines := DirLines(hashOf, DirsOf(es), bound, d);
    SameMembers(lines, Sort(lines)[i]);
    var j :| 0 <= j < |lines| && lines[j] == Sort(lines)[i];
    var p := LineIsChild(hashOf, es, bound, raw, d, j);
    EntryFits(Full(hashOf, DirsOf(es), bound, raw), p, d);
  }

  lemma EveryChildListed(hashOf: Hasher, es: seq<(string, Entry)>, bound: nat, raw: Raw, d: string, p: string) returns (i: nat)
    requires Setting(hashOf, es, bound, raw) && Reached(raw, p) && Split(p).0 == d
    ensures d in DirsOf(es) && i < |Sort(DirLines(hashOf, DirsOf(es), bound, d))|
    ensures ChildPath(d, Sort(DirLines(hashOf, DirsOf(es), bound, d))[i].name) == p
  {
    var j := ChildHasLine(hashOf, es, bound, raw, d, p);
    var lines := DirLines(hashOf, DirsOf(es), bound, d);
    SameMembers(lines, lines[j]);
    i :| 0 <= i < |Sort(lines)| && Sort(lines)[i] == lines[j];
  }

  lemma SortedLinesFit(hashOf: Hasher, es: seq<(string, Entry)>, bound: nat, raw: Raw, d: string)
    requires Setting(hashOf, es, bound, raw) && IsDir(raw, d) && d in DirsOf(es)
    ensures RightEntries(Full(hashOf, DirsOf(es), bound, raw), d, MapAll(EntryOfLine, Sort(DirLines(hashOf, DirsOf(es), bound, d))))
  {
    var lines, full := DirLines(hashOf, DirsOf(es), bound, d), Full(hashOf, DirsOf(es), bound, raw);
    var entries := MapAll(EntryOfLine, Sort(lines));
    forall i | 0 <= i < |entries| ensures RightEntry(full, d, entries[i]) {
      EveryEntryFits(hashOf, es, bound, raw, d, i);
    }
    forall p | p in full && Split(p).0 == d ensures exists i :: 0 <= i < |entries| && ChildPath(d, entries[i].name) == p {
      var i := EveryChildListed(hashOf, es, bound, raw, d, p);
      assert entries[i].name == Sort(lines)[i].name;
    }
  }

  lemma ReadsSorted(store: TreeStore, h: Hash, lines: seq<Line>)
    requires h in store && store[h] == Encode(lines) && AllWf(lines) && |lines| < TWO32
    requires forall e | e in lines :: |e.name| < TWO16
    ensures ReadDir(store, h) == Some(MapAll(EntryOfLine, Sort(lines)))
  {
    RoundTripExactly(lines);
  }

  /** The stored body of a directory, decoded, is exactly its children. */
  lemma DirReadsBack(hashOf: Hasher, es: seq<(string, Entry)>, bound: nat, raw: Raw, d: string, store: TreeStore)
    requires Setting(hashOf, es, bound, raw) && IsDir(raw, d) && d in DirsOf(es)
    requires DirHash(hashOf, DirsOf(es), bound, d) in store
    requires store[DirHash(hashOf, DirsOf(es), bound, d)] == Encode(DirLines(hashOf, DirsOf(es), bound, d))
    ensures var read := ReadDir(store, DirHash(hashOf, DirsOf(es), bound, d));
      read.Some? && RightEntries(Full(hashOf, DirsOf(es), bound, raw), d, read.value)
  {
    LinesWf(hashOf, es, bound, raw, d);
    ReadsSorted(store, DirHash(hashOf, DirsOf(es), bound, d), DirLines(hashOf, DirsOf(es), bound, d));
    SortedLinesFit(hashOf, es, bound, raw, d);
  }

  lemma LinesWf(hashOf: Hasher, es: seq<(string, Entry)>, bound: nat, raw: Raw, d: string)
    requires Setting(hashOf, es, bound, raw) && IsDir(raw, d) && d in DirsOf(es)
    ensures AllWf(DirLines(hashOf, DirsOf(es), bound, d)) && |DirLines(hashOf, DirsOf(es), bound, d)| < TWO32
    ensures forall e | e in DirLines(hashOf, DirsOf(es), bound, d) :: |e.name| < TWO16
  {
    var lines := DirLines(hashOf, DirsOf(es), bound, d);
    DirsAreTrees(hashOf, es, bound, raw, d);
    LinesCount(es, d);
    forall i | 0 <= i < |lines| ensures Wf(lines[i]) && |lines[i].name| < TWO16 {
      var p := LineIsChild(hashOf, es, bound, raw, d, i);
      assert Fits(raw, p);
    }
  }

  // ---- the walk ------------------------------------------------------------------------------

  ghost predicate Reaches(read: Reader, st: State, st': State) {
    exists n: nat :: Steps(read, st, n) == st'
  }

  lemma {:induction false} StepsAdd(read: Reader, st: State, a: nat, b: nat)
    ensures Steps(read, Steps(read, st, a), b) == Steps(read, st, a + b)
    decreases b
  {
    if b > 0 {
      StepsAdd(read, st, a, b - 1);
      assert Steps(read, st, a + b) == Step(read, Steps(read, st, a + b - 1));
    }
  }

  lemma ReachesTrans(read: Reader, x: State, y: State, z: State)
    requires Reaches(read, x, y) && Reaches(read, y, z)
    ensures Reaches(read, x, z)
  {
    var a: nat :| Steps(read, x, a) == y;
    var b: nat :| Steps(read, y, b) == z;
    StepsAdd(read, x, a, b);
  }

  lemma ReachesStep(read: Reader, x: State)
    ensures Reaches(read, x, Step(read, x)) && Reaches(read, x, x)
  {
    assert Steps(read, x, 0) == x;
    assert Steps(read, x, 1) == Step(read, Steps(read, x, 0));
  }

  function Works(entries: seq<TreeEntry>, d: string): seq<DirWork> {
    if entries == [] then []
    else (if entries[0].kind.Tree? then [DirWork(entries[0].hash, ChildPath(d, entries[0].name))] else []) + Works(entries[1..], d)
  }

  function Named(entries: seq<TreeEntry>, d: string): Raw {
    if entries == [] then map[]
    else map[ChildPath(d, entries[0].name) := EntryOf(entries[0])] + Named(entries[1..], d)
  }

  lemma PutThenAdd<K, V>(m: map<K, V>, k: K, v: V, rest: map<K, V>)
    ensures m[k := v] + rest == m + (map[k := v] + rest)
  {}

  lemma {:induction false} AddEntriesIs(entries: seq<TreeEntry>, d: string, stack: seq<DirWork>, scratch: Raw)
    ensures AddEntries(entries, d, Running(stack, scratch)) == Running(stack + Works(entries, d), scratch + Named(entries, d))
  {
    if entries != [] {
      var e := entries[0];
      var st1 := AddEntry(e, d, Running(stack, scratch));
      AddEntriesIs(entries[1..], d, st1.stack, st1.scratch);
      PutThenAdd(scratch, ChildPath(d, e.name), EntryOf(e), Named(entries[1..], d));
      Regroup(stack, if e.kind.Tree? then [DirWork(e.hash, ChildPath(d, e.name))] else [], Works(entries[1..], d));
    }
  }

  function Restrict(full: Raw, paths: set<string>): Raw {
    map p | p in paths && p in full :: full[p]
  }

  function Kids(full: Raw, d: string): set<string> {
    set p | p in full && Split(p).0 == d
  }

  lemma {:induction false} NamedWithin(full: Raw, entries: seq<TreeEntry>, d: string)
    requires forall i :: 0 <= i < |entries| ==> RightEntry(full, d, entries[i])
    ensures forall p | p in Named(entries, d) :: p in Kids(full, d) && Named(entries, d)[p] == full[p]
    ensures forall i :: 0 <= i < |entries| ==> ChildPath(d, entries[i].name) in Named(entries, d)
  {
    if entries != [] {
      assert RightEntry(full, d, entries[0]);
      assert forall i :: 0 <= i < |entries[1..]| ==> entries[1..][i] == entries[i + 1];
      NamedWithin(full, entries[1..], d);
      forall i | 0 <= i < |entries| ensures ChildPath(d, entries[i].name) in Named(entries, d) {
        if i > 0 {
          assert entries[1..][i - 1] == entries[i];
        }
      }
    }
  }

  lemma NamedIsKids(full: Raw, entries: seq<TreeEntry>, d: string)
    requires RightEntries(full, d, entries)
    ensures Named(entries, d) == Restrict(full, Kids(full, d))
  {
    NamedWithin(full, entries, d);
    forall p | p in Kids(full, d) ensures p in Named(entries, d) {
      var i :| 0 <= i < |entries| && ChildPath(d, entries[i].name) == p;
    }
  }

  /** The subdirectories that a directory puts on the stack. */
  ghost predicate RightWorks(full: Raw, d: string, ws: seq<DirWork>) {
    && AllFit(full, d, ws)
    && (forall p | p in full && Split(p).0 == d && full[p].kind.Tree? :: exists i :: 0 <= i < |ws| && ws[i].prefix == p)
  }

  lemma {:induction false} WorksMembers(full: Raw, entries: seq<TreeEntry>, d: string)
    requires forall i :: 0 <= i < |entries| ==> RightEntry(full, d, entries[i])
    ensures forall w | w in Works(entries, d) :: w.prefix in full && Split(w.prefix).0 == d && full[w.prefix].kind.Tree? && w.hash == full[w.prefix].hash
    ensures forall i :: 0 <= i < |entries| && entries[i].kind.Tree? ==> DirWork(entries[i].hash, ChildPath(d, entries[i].name)) in Works(entries, d)
  {
    if entries != [] {
      assert RightEntry(full, d, entries[0]);
      assert forall i :: 0 <= i < |entries[1..]| ==> entries[1..][i] == entries[i + 1];
      WorksMembers(full, entries[1..], d);
      forall i | 0 <= i < |entries| && entries[i].kind.Tree?
        ensures DirWork(entries[i].hash, ChildPath(d, entries[i].name)) in Works(entries, d)
      {
        if i > 0 {
          assert entries[1..][i - 1] == entries[i];
        }
      }
    }
  }

  lemma WorksAreRight(full: Raw, entries: seq<TreeEntry>, d: string)
    requires RightEntries(full, d, entries)
    ensures RightWorks(full, d, Works(entries, d))
  {
    var ws := Works(entries, d);
    WorksMembers(full, entries, d);
    forall i | 0 <= i < |ws| ensures ws[i] in ws {}
    forall p | p in full && Split(p).0 == d && full[p].kind.Tree? ensures exists i :: 0 <= i < |ws| && ws[i].prefix == p {
      var i :| 0 <= i < |entries| && ChildPath(d, entries[i].name) == p;
      assert RightEntry(full, d, entries[i]);
      var w := DirWork(entries[i].hash, p);
      var k :| 0 <= k < |ws| && ws[k] == w;
    }
  }

  // ---- everything below a directory ------------------------------------------------------------

  /** p lies somewhere below the directory d. */
  predicate Below(p: string, d: string)
    decreases |p|
  {
    var parent := Split(p).0;
    parent == d || (parent != "/" && |parent| < |p| && Below(parent, d))
  }

  function Under(full: Raw, d: string): set<string> {
    set p | p in full && Below(p, d)
  }

  /** Every path of a tree is in order, and its parent is a directory of the tree or the root. */
  ghost predicate Rooted(full: Raw) {
    && "/" !in full
    && (forall p | p in full :: Plain(p) && (Split(p).0 == "/" || (Split(p).0 in full && full[Split(p).0].kind.Tree?)))
  }

  lemma ParentIsShorter(p: string)
    requires Plain(p)
    ensures |Split(p).0| < |p|
  {
    ChildIsLonger(Split(p).0, Split(p).1);
  }

  lemma {:induction false} BelowThrough(full: Raw, p: string, d: string) returns (c: string)
    requires Rooted(full) && p in full && Below(p, d) && Split(p).0 != d
    ensures c in full && Split(c).0 == d && full[c].kind.Tree? && Below(p, c)
    decreases |p|
  {
    ParentIsShorter(p);
    var parent := Split(p).0;
    if Split(parent).0 == d {
      c := parent;
    } else {
      c := BelowThrough(full, parent, d);
    }
  }

  lemma {:induction false} BelowTrans(full: Raw, p: string, c: string, d: string)
    requires Rooted(full) && p in full && c in full && Below(p, c) && Split(c).0 == d
    ensures Below(p, d)
    decreases |p|
  {
    ParentIsShorter(p);
    if Split(p).0 != c {
      BelowTrans(full, Split(p).0, c, d);
    }
  }

  lemma {:induction false} AllBelowRoot(full: Raw, p: string)
    requires Rooted(full) && p in full
    ensures Below(p, "/")
    decreases |p|
  {
    ParentIsShorter(p);
    if Split(p).0 != "/" {
      AllBelowRoot(full, Split(p).0);
    }
  }

  function UnderAll(full: Raw, ws: seq<DirWork>): set<string> {
    if ws == [] then {} else UnderAll(full, ws[..|ws| - 1]) + Under(full, ws[|ws| - 1].prefix)
  }

  lemma {:induction false} UnderAllMembers(full: Raw, ws: seq<DirWork>, p: string)
    ensures p in UnderAll(full, ws) <==> exists i :: 0 <= i < |ws| && p in Under(full, ws[i].prefix)
  {
    if ws != [] {
      var init := ws[..|ws| - 1];
      UnderAllMembers(full, init, p);
      assert forall i :: 0 <= i < |init| ==> init[i] == ws[i];
    }
  }

  /** A directory's subtree is its children and their subtrees. */
  lemma UnderSplits(full: Raw, d: string, ws: seq<DirWork>)
    requires Rooted(full) && RightWorks(full, d, ws)
    ensures Under(full, d) == Kids(full, d) + UnderAll(full, ws)
  {
    forall p ensures p in Under(full, d) <==> p in Kids(full, d) || p in UnderAll(full, ws) {
      UnderAllMembers(full, ws, p);
      if p in Under(full, d) && Split(p).0 != d {
        var c := BelowThrough(full, p, d);
        var i :| 0 <= i < |ws| && ws[i].prefix == c;
        assert p in Under(full, ws[i].prefix);
      }
      if p in UnderAll(full, ws) {
        var i :| 0 <= i < |ws| && p in Under(full, ws[i].prefix);
        BelowTrans(full, p, ws[i].prefix, d);
      }
    }
  }

  // ---- the theorem ------------------------------------------------------------------------------

  /** Every directory's body is in the store under its hash. */
  ghost predicate Kept(hashOf: Hasher, dirs: Dirs, bound: nat, store: TreeStore)
    requires Bounded(dirs, bound)
  {
    forall d | d in dirs :: DirHash(hashOf, dirs, bound, d) in store &&
      store[DirHash(hashOf, dirs, bound, d)] == Encode(DirLines(hashOf, dirs, bound, d))
  }

  lemma RootIsSkipped(raw: Raw)
    ensures !Reached(raw, "/")
  {
    assert LastSlash("/") == 0;
    assert Split("/").1 == "";
  }

  lemma FullIsRooted(hashOf: Hasher, es: seq<(string, Entry)>, bound: nat, raw: Raw)
    requires Setting(hashOf, es, bound, raw)
    ensures Rooted(Full(hashOf, DirsOf(es), bound, raw))
  {
    var full := Full(hashOf, DirsOf(es), bound, raw);
    RootIsSkipped(raw);
    forall p | p in full ensures Plain(p) && (Split(p).0 == "/" || (Split(p).0 in full && full[Split(p).0].kind.Tree?)) {
      ReachedIsAnchored(raw, p);
    }
  }

  /** One turn of the loop on a directory of the tree. */
  lemma DirStep(hashOf: Hasher, es: seq<(string, Entry)>, bound: nat, raw: Raw, store: TreeStore,
                d: string, stack: seq<DirWork>, scratch: Raw) returns (ws: seq<DirWork>)
    requires Setting(hashOf, es, bound, raw) && Kept(hashOf, DirsOf(es), bound, store) && IsDir(raw, d) && d in DirsOf(es)
    ensures var full := Full(hashOf, DirsOf(es), bound, raw);
      && RightWorks(full, d, ws)
      && Step(ReaderOf(store), Running(stack + [DirWork(DirHash(hashOf, DirsOf(es), bound, d), d)], scratch)) ==
         Running(stack + ws, scratch + Restrict(full, Kids(full, d)))
  {
    var full := Full(hashOf, DirsOf(es), bound, raw);
    var h := DirHash(hashOf, DirsOf(es), bound, d);
    DirReadsBack(hashOf, es, bound, raw, d, store);
    var entries := ReadDir(store, h).value;
    ws := Works(entries, d);
    WorksAreRight(full, entries, d);
    NamedIsKids(full, entries, d);
    AddEntriesIs(entries, d, stack, scratch);
    StepPops(ReaderOf(store), stack, DirWork(h, d), scratch, entries);
  }

  lemma StepPops(read: Reader, stack: seq<DirWork>, w: DirWork, scratch: Raw, entries: seq<TreeEntry>)
    requires read(w.hash) == Some(entries)
    ensures Step(read, Running(stack + [w], scratch)) == AddEntries(entries, w.prefix, Running(stack, scratch))
  {
    assert (stack + [w])[..|stack + [w]| - 1] == stack;
  }

  lemma RestrictAdds(full: Raw, scratch: Raw, a: set<string>, b: set<string>)
    ensures scratch + Restrict(full, a) + Restrict(full, b) == scratch + Restrict(full, a + b)
  {}

  /** A stack entry for a subdirectory of d. */
  ghost predicate WorkFits(full: Raw, d: string, w: DirWork) {
    w.prefix in full && Split(w.prefix).0 == d && full[w.prefix].kind.Tree? && w.hash == full[w.prefix].hash
  }

  ghost predicate AllFit(full: Raw, d: string, ws: seq<DirWork>) {
    forall i :: 0 <= i < |ws| ==> WorkFits(full, d, ws[i])
  }

  /** Working off one stack entry adds exactly the subtree of its directory. */
  ghost predicate Runs(read: Reader, full: Raw, w: DirWork, stack: seq<DirWork>, scratch: Raw) {
    Reaches(read, Running(stack + [w], scratch), Running(stack, scratch + Restrict(full, Under(full, w.prefix))))
  }

  lemma {:induction false} WorksRun(read: Reader, full: Raw, ws: seq<DirWork>, stack: seq<DirWork>, scratch: Raw)
    requires forall i, st, sc :: 0 <= i < |ws| ==> Runs(read, full, ws[i], st, sc)
    ensures Reaches(read, Running(stack + ws, scratch), Running(stack, scratch + Restrict(full, UnderAll(full, ws))))
    decreases |ws|
  {
    if ws == [] {
      NoWork(read, full, stack, scratch);
    } else {
      var init, w := ws[..|ws| - 1], ws[|ws| - 1];
      assert forall i :: 0 <= i < |init| ==> init[i] == ws[i];
      assert Runs(read, full, w, stack + init, scratch);
      WorksRun(read, full, init, stack, scratch + Restrict(full, Under(full, w.prefix)));
      CombineRuns(read, full, stack, ws, scratch);
    }
  }

  /** Starting from a directory on top of the stack, the walk adds exactly its subtree. */
  lemma {:induction false} DirRuns(hashOf: Hasher, es: seq<(string, Entry)>, bound: nat, raw: Raw, store: TreeStore,
                                   full: Raw, read: Reader, d: string, stack: seq<DirWork>, scratch: Raw)
    requires Setting(hashOf, es, bound, raw) && Kept(hashOf, DirsOf(es), bound, store) && IsDir(raw, d) && d in DirsOf(es)
    requires full == Full(hashOf, DirsOf(es), bound, raw) && read == ReaderOf(store)
    ensures Runs(read, full, DirWork(DirHash(hashOf, DirsOf(es), bound, d), d), stack, scratch)
    decreases bound - |d|
  {
    var w := DirWork(DirHash(hashOf, DirsOf(es), bound, d), d);
    var ws := DirStep(hashOf, es, bound, raw, store, d, stack, scratch);
    forall i, st, sc | 0 <= i < |ws| ensures Runs(read, full, ws[i], st, sc) {
      WorkIsDir(hashOf, es, bound, raw, full, d, ws[i]);
      DirRuns(hashOf, es, bound, raw, store, full, read, ws[i].prefix, st, sc);
    }
    FullIsRooted(hashOf, es, bound, raw);
    StepThenWorks(read, full, w, ws, stack, scratch);
  }

  lemma StepThenWorks(read: Reader, full: Raw, w: DirWork, ws: seq<DirWork>, stack: seq<DirWork>, scratch: Raw)
    requires Rooted(full) && RightWorks(full, w.prefix, ws)
    requires Step(read, Running(stack + [w], scratch)) == Running(stack + ws, scratch + Restrict(full, Kids(full, w.prefix)))
    requires forall i, st, sc :: 0 <= i < |ws| ==> Runs(read, full, ws[i], st, sc)
    ensures Runs(read, full, w, stack, scratch)
  {
    var start, scratch1 := Running(stack + [w], scratch), scratch + Restrict(full, Kids(full, w.prefix));
    ReachesStep(read, start);
    WorksRun(read, full, ws, stack, scratch1);
    ReachesTrans(read, start, Running(stack + ws, scratch1), Running(stack, scratch1 + Restrict(full, UnderAll(full, ws))));
    UnderSplits(full, w.prefix, ws);
    RestrictAdds(full, scratch, Kids(full, w.prefix), UnderAll(full, ws));
  }

  lemma NoWork(read: Reader, full: Raw, stack: seq<DirWork>, scratch: Raw)
    ensures Reaches(read, Running(stack + [], scratch), Running(stack, scratch + Restrict(full, UnderAll(full, []))))
  {
    assert stack + [] == stack && scratch + Restrict(full, {}) == scratch;
    ReachesStep(read, Running(stack, scratch));
  }

  lemma WorkIsDir(hashOf: Hasher, es: seq<(string, Entry)>, bound: nat, raw: Raw, full: Raw, d: string, w: DirWork)
    requires Setting(hashOf, es, bound, raw) && full == Full(hashOf, DirsOf(es), bound, raw) && WorkFits(full, d, w)
    ensures IsDir(raw, w.prefix) && w.prefix in DirsOf(es) && w == DirWork(DirHash(hashOf, DirsOf(es), bound, w.prefix), w.prefix)
    ensures |d| < |w.prefix| <= bound
  {
    DirsAreTrees(hashOf, es, bound, raw, w.prefix);
    ParentIsShorter(w.prefix);
  }

  lemma CombineRuns(read: Reader, full: Raw, stack: seq<DirWork>, ws: seq<DirWork>, scratch: Raw)
    requires ws != []
    requires var init, w := ws[..|ws| - 1], ws[|ws| - 1]; var scratch1 := scratch + Restrict(full, Under(full, w.prefix));
      && Reaches(read, Running(stack + init + [w], scratch), Running(stack + init, scratch1))
      && Reaches(read, Running(stack + init, scratch1), Running(stack, scratch1 + Restrict(full, UnderAll(full, init))))
    ensures Reaches(read, Running(stack + ws, scratch), Running(stack, scratch + Restrict(full, UnderAll(full, ws))))
  {
    var init, w := ws[..|ws| - 1], ws[|ws| - 1];
    var scratch1 := scratch + Restrict(full, Under(full, w.prefix));
    assert stack + ws == stack + init + [w];
    ReachesTrans(read, Running(stack + ws, scratch), Running(stack + init, scratch1),
                 Running(stack, scratch1 + Restrict(full, UnderAll(full, init))));
    RestrictAdds(full, scratch, Under(full, w.prefix), UnderAll(full, init));
    assert Under(full, w.prefix) + UnderAll(full, init) == UnderAll(full, ws);
  }

  /** A tree with any path has a root directory. */
  lemma {:induction false} RootExists(hashOf: Hasher, es: seq<(string, Entry)>, bound: nat, raw: Raw, p: string)
    requires Setting(hashOf, es, bound, raw) && Reached(raw, p)
    ensures "/" in DirsOf(es)
    decreases |p|
  {
    if Split(p).0 == "/" {
      DirsAreTrees(hashOf, es, bound, raw, "/");
      var i := FindLine(es, raw, "/", p);
    } else {
      ParentIsShorter(p);
      RootExists(hashOf, es, bound, raw, Split(p).0);
    }
  }

  lemma WholeTree(full: Raw)
    requires Rooted(full)
    ensures map[] + Restrict(full, Under(full, "/")) == full
  {
    forall p | p in full ensures p in Under(full, "/") {
      AllBelowRoot(full, p);
    }
  }

  /** Rebuilding from the root of a stored tree gives the tree, with the directories' hashes filled in. */
  lemma StoredTreeRebuilds(hashOf: Hasher, es: seq<(string, Entry)>, bound: nat, raw: Raw, store: TreeStore)
    requires Setting(hashOf, es, bound, raw) && Kept(hashOf, DirsOf(es), bound, store) && "/" in DirsOf(es)
    ensures RebuildsTo(ReaderOf(store), DirHash(hashOf, DirsOf(es), bound, "/"), Full(hashOf, DirsOf(es), bound, raw))
  {
    var full, root := Full(hashOf, DirsOf(es), bound, raw), DirHash(hashOf, DirsOf(es), bound, "/");
    FullIsRooted(hashOf, es, bound, raw);
    DirRuns(hashOf, es, bound, raw, store, full, ReaderOf(store), "/", [], map[]);
    RunsRebuilds(ReaderOf(store), full, root);
  }

  lemma RunsRebuilds(read: Reader, full: Raw, root: Hash)
    requires Rooted(full) && Runs(read, full, DirWork(root, "/"), [], map[])
    ensures RebuildsTo(read, root, full)
  {
    WholeTree(full);
    assert Start(root) == Running([] + [DirWork(root, "/")], map[]);
    assert Reaches(read, Start(root), Running([], full));
    var n: nat :| Steps(read, Start(root), n) == Running([], full);
  }

  /** No two different bodies of this store and this tree have the same hash. */
  ghost predicate NoCollision(hashOf: Hasher, dirs: Dirs, bound: nat, store: TreeStore)
    requires Bounded(dirs, bound)
  {
    && (forall h, d | h in store && d in dirs ::
          hashOf(store[h]) == DirHash(hashOf, dirs, bound, d) ==> store[h] == Encode(DirLines(hashOf, dirs, bound, d)))
    && (forall h | h in store :: hashOf(store[h]) == hashOf(Encode([])) ==> store[h] == Encode([]))
  }

  lemma EmptyRebuilds(hashOf: Hasher, store: TreeStore)
    requires hashOf(Encode([])) in store && store[hashOf(Encode([]))] == Encode([])
    ensures RebuildsTo(ReaderOf(store), hashOf(Encode([])), map[])
  {
    var read, root := ReaderOf(store), hashOf(Encode([]));
    RoundTripExactly([]);
    StepPops(read, [], DirWork(root, "/"), map[], []);
    assert [] + [DirWork(root, "/")] == [DirWork(root, "/")];
    ReachesStep(read, Start(root));
  }

  /** The same paths, kinds, modes and leaf hashes. */
  ghost predicate SameContent(raw: Raw, raw': Raw) {
    raw'.Keys == raw.Keys && forall p | p in raw ::
      raw'[p].kind == raw[p].kind && raw'[p].mode == raw[p].mode && (!raw[p].kind.Tree? ==> raw'[p].hash == raw[p].hash)
  }

  lemma FullIsSame(hashOf: Hasher, dirs: Dirs, bound: nat, raw: Raw)
    requires Bounded(dirs, bound)
    ensures SameContent(ReachedPart(raw), Full(hashOf, dirs, bound, raw))
  {}

  /**
   * What a successful serialization wrote rebuilds to what is reached of the tree: the
   * same paths, kinds, modes and leaf hashes.
   */
  lemma SerializedTreeRebuilds(hashOf: Hasher, es: seq<(string, Entry)>, bound: nat, raw: Raw, store: TreeStore, written: set<Hash>)
    requires Setting(hashOf, es, bound, raw) && Honest(hashOf, store) && NoCollision(hashOf, DirsOf(es), bound, store)
    requires Written(hashOf, DirsOf(es), bound, store, written) && RootHash(hashOf, DirsOf(es), bound) in written
    ensures RebuildsTo(ReaderOf(store), RootHash(hashOf, DirsOf(es), bound), Full(hashOf, DirsOf(es), bound, raw))
    ensures SameContent(ReachedPart(raw), Full(hashOf, DirsOf(es), bound, raw))
  {
    FullIsSame(hashOf, DirsOf(es), bound, raw);
    if "/" in DirsOf(es) {
      StoredTreeRebuilds(hashOf, es, bound, raw, store);
    } else {
      if p :| p in raw && Reached(raw, p) {
        RootExists(hashOf, es, bound, raw, p);
      }
      assert Full(hashOf, DirsOf(es), bound, raw) == map[];
      EmptyRebuilds(hashOf, store);
    }
  }

  /**
   * The whole tree comes back exactly when every path is written and has a directory:
   * no leaf without content, no path below a file, a symlink, a whiteout or nothing.
   */
  lemma ComesBackExactly(hashOf: Hasher, es: seq<(string, Entry)>, bound: nat, raw: Raw, store: TreeStore, written: set<Hash>,
                         paths: Raw)
    requires Setting(hashOf, es, bound, raw) && Honest(hashOf, store) && NoCollision(hashOf, DirsOf(es), bound, store)
    requires Written(hashOf, DirsOf(es), bound, store, written) && RootHash(hashOf, DirsOf(es), bound) in written
    requires RebuildsTo(ReaderOf(store), RootHash(hashOf, DirsOf(es), bound), paths)
    ensures SameContent(ReachedPart(raw), paths)
    ensures SameContent(raw, paths) <==> forall p | p in raw :: Anchored(raw, p)
  {
    SerializedTreeRebuilds(hashOf, es, bound, raw, store, written);
    RebuildIsUnique(ReaderOf(store), RootHash(hashOf, DirsOf(es), bound), paths, Full(hashOf, DirsOf(es), bound, raw));
    AllReachedExactly(raw);
    SameAsWhole(raw, paths);
  }

  lemma SameAsWhole(raw: Raw, paths: Raw)
    requires SameContent(ReachedPart(raw), paths)
    ensures SameContent(raw, paths) <==> forall p | p in raw :: Reached(raw, p)
  {
    if forall p | p in raw :: Reached(raw, p) {
      assert ReachedPart(raw) == raw;
    } else {
      var p :| p in raw && !Reached(raw, p);
      assert p in raw.Keys && p !in ReachedPart(raw).Keys;
    }
  }
}
