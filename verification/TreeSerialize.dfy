/**
 * Writing a working tree as directory objects, bottom up (src/cas/tree_serialize.cpp).
 * `hashOf` is the content hash of a directory body; a store maps hashes to bodies.
 */
module TreeSerialize {
  import opened CasTypes
  import opened Bytes
  import opened Paths
  import opened TreeCodec
  import opened Rebuild

  type Hasher = seq<byte> -> Hash
  type TreeStore = map<Hash, seq<byte>>

  /** The children of each directory, in the order they were met. */
  type Dirs = map<string, seq<Line>>

  function KindByte(k: EntryKind): byte {
    match k
    case Blob => 0
    case Tree => 1
    case Symlink => 2
    case Deleted => 3
  }

  function KindOf(b: byte): EntryKind {
    if b == 0 then Blob else if b == 1 then Tree else if b == 2 then Symlink else Deleted
  }

  // ---- collecting the children -----------------------------------------------------------

  function Split(path: string): (string, string) {
    var slash := LastSlash(path);
    if slash == 0 then ("/", path[1..])
    else if slash > 0 then (path[..slash], path[slash + 1..])
    else ("/", path)
  }

  predicate IsLeaf(k: EntryKind) {
    k.Blob? || k.Symlink?
  }

  function LineOf(name: string, e: Entry): Line {
    Line(name, e.mode, KindByte(e.kind), e.hash)
  }

  function Children(dirs: Dirs, d: string): seq<Line> {
    if d in dirs then dirs[d] else []
  }

  /** Empty leaves are not serialized, and neither is the root itself. */
  predicate Skipped(path: string, e: Entry) {
    (IsLeaf(e.kind) && e.hash == ZERO_HASH) || Split(path).1 == ""
  }

  function AddChild(dirs: Dirs, path: string, e: Entry): Dirs {
    if Skipped(path, e) then dirs
    else
      var (parent, name) := Split(path);
      dirs[parent := Children(dirs, parent) + [LineOf(name, e)]]
  }

  function Collect(es: seq<(string, Entry)>): Dirs {
    if es == [] then map[] else AddChild(Collect(es[..|es| - 1]), es[|es| - 1].0, es[|es| - 1].1)
  }

  /** A directory without children is written too. */
  function AddEmpty(dirs: Dirs, path: string, e: Entry): Dirs {
    if e.kind.Tree? && path !in dirs then dirs[path := []] else dirs
  }

  function WithEmpty(dirs: Dirs, es: seq<(string, Entry)>): Dirs {
    if es == [] then dirs else AddEmpty(WithEmpty(dirs, es[..|es| - 1]), es[|es| - 1].0, es[|es| - 1].1)
  }

  function DirsOf(es: seq<(string, Entry)>): Dirs {
    WithEmpty(Collect(es), es)
  }

  // ---- the hash of a directory ---------------------------------------------------------------

  ghost predicate Bounded(dirs: Dirs, bound: nat) {
    forall d | d in dirs :: |d| <= bound && forall i :: 0 <= i < |dirs[d]| ==> dirs[d][i].name != ""
  }

  /** A child directory's line gets the hash of its body, which is written before. */
  ghost function Resolve(hashOf: Hasher, dirs: Dirs, bound: nat, d: string, e: Line): Line
    requires Bounded(dirs, bound) && d in dirs && e.name != ""
    decreases bound - |d|, 0
  {
    var child := ChildPath(d, e.name);
    if e.kind == 1 && child in dirs then e.(hash := DirHash(hashOf, dirs, bound, child)) else e
  }

  ghost function DirLines(hashOf: Hasher, dirs: Dirs, bound: nat, d: string): (r: seq<Line>)
    requires Bounded(dirs, bound) && d in dirs
    ensures |r| == |dirs[d]|
    decreases bound - |d|, 1
  {
    seq(|dirs[d]|, i requires 0 <= i < |dirs[d]| => Resolve(hashOf, dirs, bound, d, dirs[d][i]))
  }

  ghost function DirHash(hashOf: Hasher, dirs: Dirs, bound: nat, d: string): Hash
    requires Bounded(dirs, bound) && d in dirs
    decreases bound - |d|, 2
  {
    hashOf(Encode(DirLines(hashOf, dirs, bound, d)))
  }

  // ---- the writer ---------------------------------------------------------------------------

  lemma {:induction false} CollectNames(es: seq<(string, Entry)>)
    ensures forall d | d in Collect(es) :: forall i :: 0 <= i < |Collect(es)[d]| ==> Collect(es)[d][i].name != ""
  {
    if es != [] {
      CollectNames(es[..|es| - 1]);
    }
  }

  lemma {:induction false} WithEmptyNames(dirs: Dirs, es: seq<(string, Entry)>)
    requires forall d | d in dirs :: forall i :: 0 <= i < |dirs[d]| ==> dirs[d][i].name != ""
    ensures forall d | d in WithEmpty(dirs, es) :: forall i :: 0 <= i < |WithEmpty(dirs, es)[d]| ==> WithEmpty(dirs, es)[d][i].name != ""
  {
    if es != [] {
      WithEmptyNames(dirs, es[..|es| - 1]);
    }
  }

  /** The directories of a tree have a longest path. */
  lemma {:induction false} LongestExists(keys: set<string>) returns (bound: nat)
    ensures forall d | d in keys :: |d| <= bound
    decreases keys
  {
    bound := 0;
    if keys != {} {
      var k :| k in keys;
      var rest := LongestExists(keys - {k});
      bound := if |k| > rest then |k| else rest;
    }
  }

  /** There is always a bound, so the hashes of all directories are defined. */
  lemma DirsAreBounded(es: seq<(string, Entry)>) returns (bound: nat)
    ensures Bounded(DirsOf(es), bound)
  {
    CollectNames(es);
    WithEmptyNames(Collect(es), es);
    bound := LongestExists(DirsOf(es).Keys);
  }

  method CollectChildren(es: seq<(string, Entry)>) returns (dirs: Dirs)
    ensures dirs == DirsOf(es)
  {
    dirs := map[];
    for i := 0 to |es|
      invariant dirs == Collect(es[..i])
    {
      var (path, entry) := es[i];
      assert es[..i + 1][..i] == es[..i];
      if !(IsLeaf(entry.kind) && entry.hash == ZERO_HASH) {
        var (parent, name) := Split(path);
        if name != "" {
          dirs := dirs[parent := Children(dirs, parent) + [LineOf(name, entry)]];
        }
      }
    }
    assert es[..|es|] == es;
    ghost var collected := dirs;
    for i := 0 to |es|
      invariant dirs == WithEmpty(collected, es[..i])
    {
      var (path, entry) := es[i];
      assert es[..i + 1][..i] == es[..i];
      if entry.kind.Tree? {
        if path !in dirs {
          dirs := dirs[path := []];
        }
      }
    }
  }

  /** All directories, longest path first. */
  method ByLength(keys: set<string>) returns (order: seq<string>)
    ensures forall d :: d in order <==> d in keys
    ensures forall i, j :: 0 <= i < j < |order| ==> |order[i]| >= |order[j]| && order[i] != order[j]
    ensures |order| == |keys|
  {
    order := [];
    var rest := keys;
    while rest != {}
      invariant rest <= keys && |order| + |rest| == |keys|
      invariant forall d :: d in order <==> d in keys - rest
      invariant forall d, i | d in rest && 0 <= i < |order| :: |order[i]| >= |d|
      invariant forall i, j :: 0 <= i < j < |order| ==> |order[i]| >= |order[j]| && order[i] != order[j]
      decreases rest
    {
      var next := Longest(rest);
      assert next !in order && forall i :: 0 <= i < |order| ==> order[i] in order;
      order := order + [next];
      rest := rest - {next};
    }
  }

  method Longest(keys: set<string>) returns (d: string)
    requires keys != {}
    ensures d in keys && forall x | x in keys :: |x| <= |d|
  {
    d :| d in keys;
    var rest := keys - {d};
    while rest != {}
      invariant rest <= keys && d in keys && forall x | x in keys - rest :: |x| <= |d|
      decreases rest
    {
      var x :| x in rest;
      rest := rest - {x};
      if |x| > |d| {
        d := x;
      }
    }
  }

  /** Hashes are known for every directory that is longer than d. */
  ghost predicate HashedBeyond(hashOf: Hasher, dirs: Dirs, bound: nat, hashes: map<string, Hash>, d: string)
    requires Bounded(dirs, bound)
  {
    && (forall x | x in hashes :: x in dirs && hashes[x] == DirHash(hashOf, dirs, bound, x))
    && (forall x | x in dirs && |x| > |d| :: x in hashes)
  }

  lemma ChildIsLonger(d: string, name: string)
    requires name != ""
    ensures |ChildPath(d, name)| > |d|
  {}

  method ResolveLine(hashOf: Hasher, dirs: Dirs, ghost bound: nat, hashes: map<string, Hash>, d: string, e: Line) returns (e': Line)
    requires Bounded(dirs, bound) && d in dirs && e.name != "" && HashedBeyond(hashOf, dirs, bound, hashes, d)
    ensures e' == Resolve(hashOf, dirs, bound, d, e)
  {
    e' := e;
    if e.kind == 1 {
      var child := if d == "/" then "/" + e.name else d + "/" + e.name;
      ChildIsLonger(d, e.name);
      if child in hashes {
        e' := e.(hash := hashes[child]);
      }
    }
  }

  method ResolveChildren(hashOf: Hasher, dirs: Dirs, ghost bound: nat, hashes: map<string, Hash>, d: string) returns (lines: seq<Line>)
    requires Bounded(dirs, bound) && d in dirs && HashedBeyond(hashOf, dirs, bound, hashes, d)
    ensures lines == DirLines(hashOf, dirs, bound, d)
  {
    lines := [];
    ghost var all := DirLines(hashOf, dirs, bound, d);
    for i := 0 to |dirs[d]|
      invariant lines == all[..i]
    {
      var e := ResolveLine(hashOf, dirs, bound, hashes, d, dirs[d][i]);
      LineAt(hashOf, dirs, bound, d, i);
      lines := lines + [e];
    }
  }

  lemma LineAt(hashOf: Hasher, dirs: Dirs, bound: nat, d: string, i: nat)
    requires Bounded(dirs, bound) && d in dirs && i < |dirs[d]|
    ensures DirLines(hashOf, dirs, bound, d)[i] == Resolve(hashOf, dirs, bound, d, dirs[d][i])
  {}

  method BodyOf(hashOf: Hasher, dirs: Dirs, ghost bound: nat, hashes: map<string, Hash>, d: string) returns (body: seq<byte>)
    requires Bounded(dirs, bound) && d in dirs && HashedBeyond(hashOf, dirs, bound, hashes, d)
    ensures hashOf(body) == DirHash(hashOf, dirs, bound, d)
  {
    var lines := ResolveChildren(hashOf, dirs, bound, hashes, d);
    body := SerializeTreeEntries(lines);
  }

  // ---- the store ---------------------------------------------------------------------------

  ghost predicate Honest(hashOf: Hasher, store: TreeStore) {
    forall h | h in store :: hashOf(store[h]) == h
  }

  /** An object that is already there is adopted; a failed write yields the zero hash. */
  method WriteTree(hashOf: Hasher, store: TreeStore, body: seq<byte>, fails: bool) returns (h: Hash, store': TreeStore)
    ensures fails ==> h == ZERO_HASH && store' == store
    ensures !fails ==> h == hashOf(body) && h in store' && store' == (if h in store then store else store[h := body])
    ensures Honest(hashOf, store) ==> Honest(hashOf, store')
  {
    if fails {
      return ZERO_HASH, store;
    }
    h := hashOf(body);
    store' := if h in store then store else store[h := body];
  }

  ghost predicate Extends(store: TreeStore, store': TreeStore) {
    forall h | h in store :: h in store' && store'[h] == store[h]
  }

  /** What a finished serialization leaves behind. */
  ghost predicate Written(hashOf: Hasher, dirs: Dirs, bound: nat, store: TreeStore, written: set<Hash>)
    requires Bounded(dirs, bound)
  {
    && (forall d | d in dirs :: DirHash(hashOf, dirs, bound, d) in store && DirHash(hashOf, dirs, bound, d) in written)
    && (forall h | h in written :: h in store)
  }

  ghost function RootHash(hashOf: Hasher, dirs: Dirs, bound: nat): Hash
    requires Bounded(dirs, bound)
  {
    if "/" in dirs then DirHash(hashOf, dirs, bound, "/") else hashOf(Encode([]))
  }

  ghost predicate Progress(hashOf: Hasher, dirs: Dirs, bound: nat, order: seq<string>, k: nat,
                           hashes: map<string, Hash>, store: TreeStore, written: set<Hash>)
    requires Bounded(dirs, bound) && k <= |order|
  {
    && (forall d :: d in hashes <==> d in order[..k])
    && (forall d | d in hashes :: d in dirs && hashes[d] == DirHash(hashOf, dirs, bound, d) && hashes[d] in store && hashes[d] in written)
    && (forall h | h in written :: h in store)
  }

  ghost predicate LongestFirst(order: seq<string>, dirs: Dirs) {
    && (forall d :: d in order <==> d in dirs)
    && (forall i, j :: 0 <= i < j < |order| ==> |order[i]| >= |order[j]| && order[i] != order[j])
  }

  lemma LongerIsDone(hashOf: Hasher, dirs: Dirs, bound: nat, order: seq<string>, k: nat,
                     hashes: map<string, Hash>, store: TreeStore, written: set<Hash>)
    requires Bounded(dirs, bound) && LongestFirst(order, dirs) && k < |order|
    requires Progress(hashOf, dirs, bound, order, k, hashes, store, written)
    ensures order[k] in dirs && HashedBeyond(hashOf, dirs, bound, hashes, order[k])
  {
    assert order[k] in order;
    forall x | x in dirs && |x| > |order[k]| ensures x in hashes {
      assert x in order;
      var i :| 0 <= i < |order| && order[i] == x;
      assert order[..k][i] == x;
    }
  }

  lemma ProgressNext(hashOf: Hasher, dirs: Dirs, bound: nat, order: seq<string>, k: nat,
                     hashes: map<string, Hash>, store: TreeStore, written: set<Hash>, store': TreeStore, h: Hash)
    requires Bounded(dirs, bound) && k < |order| && order[k] in dirs && h == DirHash(hashOf, dirs, bound, order[k])
    requires Progress(hashOf, dirs, bound, order, k, hashes, store, written)
    requires Extends(store, store') && h in store'
    ensures Progress(hashOf, dirs, bound, order, k + 1, hashes[order[k] := h], store', written + {h})
  {
    OneMore(order, k);
  }

  lemma OneMore(order: seq<string>, k: nat)
    requires k < |order|
    ensures forall d :: d in order[..k + 1] <==> d in order[..k] || d == order[k]
  {
    assert order[..k + 1] == order[..k] + [order[k]];
  }

  /** Writes one directory; every longer one has been written. */
  method WriteDir(hashOf: Hasher, dirs: Dirs, ghost bound: nat, ghost order: seq<string>, ghost k: nat, d: string,
                  hashes: map<string, Hash>, store: TreeStore, written: set<Hash>, fails: bool)
    returns (ok: bool, hashes': map<string, Hash>, store': TreeStore, written': set<Hash>)
    requires Bounded(dirs, bound) && LongestFirst(order, dirs) && k < |order| && d == order[k]
    requires Progress(hashOf, dirs, bound, order, k, hashes, store, written)
    ensures ok == !fails && Extends(store, store') && (Honest(hashOf, store) ==> Honest(hashOf, store'))
    ensures ok ==> Progress(hashOf, dirs, bound, order, k + 1, hashes', store', written')
  {
    hashes', written' := hashes, written;
    LongerIsDone(hashOf, dirs, bound, order, k, hashes, store, written);
    var body := BodyOf(hashOf, dirs, bound, hashes, d);
    var h;
    h, store' := WriteTree(hashOf, store, body, fails);
    ok := !fails;
    if ok {
      ProgressNext(hashOf, dirs, bound, order, k, hashes, store, written, store', h);
      hashes' := hashes[d := h];
      written' := written + {h};
    }
  }

  /** One object for each directory, and one for a root without entries. */
  function TreeWrites(dirs: Dirs): nat {
    |dirs.Keys| + if "/" in dirs then 0 else 1
  }

  /** None of the first n writes is among the failing ones. */
  ghost predicate NoneFails(faulty: set<nat>, n: nat) {
    forall k | k in faulty :: k >= n
  }

  lemma OneMoreWrite(faulty: set<nat>, n: nat)
    ensures NoneFails(faulty, n + 1) <==> NoneFails(faulty, n) && n !in faulty
  {}

  /** The loop over the directories; k in faulty is the k-th write failing. */
  method WriteDirs(hashOf: Hasher, dirs: Dirs, ghost bound: nat, order: seq<string>, store: TreeStore, faulty: set<nat>)
    returns (ok: bool, hashes: map<string, Hash>, store': TreeStore, written: set<Hash>)
    requires Bounded(dirs, bound) && LongestFirst(order, dirs)
    ensures Extends(store, store') && (Honest(hashOf, store) ==> Honest(hashOf, store'))
    ensures ok <==> NoneFails(faulty, |order|)
    ensures ok ==> Progress(hashOf, dirs, bound, order, |order|, hashes, store', written)
  {
    hashes, store', written := map[], store, {};
    for k := 0 to |order|
      invariant Extends(store, store') && (Honest(hashOf, store) ==> Honest(hashOf, store'))
      invariant Progress(hashOf, dirs, bound, order, k, hashes, store', written) && NoneFails(faulty, k)
    {
      ok, hashes, store', written := WriteDir(hashOf, dirs, bound, order, k, order[k], hashes, store', written, k in faulty);
      if !ok {
        return;
      }
    }
    ok := true;
  }

  /** All directories have been written. */
  lemma AllWritten(hashOf: Hasher, dirs: Dirs, bound: nat, order: seq<string>, hashes: map<string, Hash>,
                   store: TreeStore, written: set<Hash>)
    requires Bounded(dirs, bound) && LongestFirst(order, dirs)
    requires Progress(hashOf, dirs, bound, order, |order|, hashes, store, written)
    ensures Written(hashOf, dirs, bound, store, written) && hashes.Keys == dirs.Keys
    ensures "/" in dirs ==> hashes["/"] == RootHash(hashOf, dirs, bound) && hashes["/"] in written
  {
    assert order[..|order|] == order;
  }

  /**
   * Serializes a tree given as its merged entries.  faulty are the turns at which a
   * write fails; when no turn fails every directory ends up in the store under the hash
   * of its body, children before parents.
   */
  method SerializeWorkingTree(hashOf: Hasher, es: seq<(string, Entry)>, store: TreeStore, faulty: set<nat>, ghost bound: nat)
    returns (root: Option<Hash>, store': TreeStore, written: set<Hash>)
    requires Bounded(DirsOf(es), bound)
    ensures Extends(store, store') && (Honest(hashOf, store) ==> Honest(hashOf, store'))
    ensures root.Some? ==> root.value == RootHash(hashOf, DirsOf(es), bound) && root.value in written
    ensures root.Some? ==> Written(hashOf, DirsOf(es), bound, store', written)
    ensures root.Some? <==> NoneFails(faulty, TreeWrites(DirsOf(es)))
  {
    var dirs := CollectChildren(es);
    var order := ByLength(dirs.Keys);
    var ok, hashes;
    ok, hashes, store', written := WriteDirs(hashOf, dirs, bound, order, store, faulty);
    OneMoreWrite(faulty, |order|);
    if !ok {
      return None, store', written;
    }
    AllWritten(hashOf, dirs, bound, order, hashes, store', written);
    if "/" in hashes {
      return Some(hashes["/"]), store', written;
    }
    var body := SerializeTreeEntries([]);
    var h;
    h, store' := WriteTree(hashOf, store', body, |order| in faulty);
    if |order| in faulty {
      return None, store', written;
    }
    written := written + {h};
    root := Some(h);
  }
}
