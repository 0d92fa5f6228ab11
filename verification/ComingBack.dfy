/**
 * How a removed path comes back (src/cas/bootstrap.cpp, src/cas/working_tree.cpp): with
 * a real source directory, steps that a user can take at any time bring back exactly
 * what is not anchored.  No background walk is needed.
 */
module ComingBack {
  import opened Bootstrap
  import opened CasTypes
  import opened Paths
  import Spec = WorkingTreeSpec

  function SomeBlob(): Entry {
    Entry(Blob, ZERO_HASH, 0)
  }

  function SomeDir(): Entry {
    Entry(Tree, ZERO_HASH, 0)
  }

  /** What a source directory holds lies in directories that it holds; reserved names are left out. */
  predicate RealSource(source: Source) {
    forall p | p in source :: InDirectory(source, p)
  }

  predicate InDirectory(source: Source, p: string)
    requires p in source
  {
    && Absolute(p) && p != "/" && !Reserved(BaseName(p)) && !source[p].kind.Deleted?
    && (Parent(p) == "/" || (Parent(p) in source && source[Parent(p)].kind.Tree?))
  }

  /** Creating what is not there, removing what is, and looking something up without a failure. */
  predicate Ordinary(t: Spec.Wt, a: Action) {
    match a
    case Put(p, _) => t.Lookup(p).None?
    case Unlink(p) => t.Lookup(p).Some?
    case EnsureAt(_, broken) => broken == {}
    case _ => false
  }

  ghost predicate OrdinaryRun(source: Source, w: World, run: seq<Action>)
    requires Legal(source, w, run)
    decreases |run|
  {
    run == [] || (Ordinary(w.t, run[0]) && OrdinaryRun(source, Apply(source, w, run[0]), run[1..]))
  }

  lemma {:induction false} OrdinaryIsCareful(source: Source, w: World, run: seq<Action>)
    requires Legal(source, w, run) && OrdinaryRun(source, w, run)
    ensures CarefulRun(source, w, run)
    decreases |run|
  {
    if run != [] {
      OrdinaryIsCareful(source, Apply(source, w, run[0]), run[1..]);
    }
  }

  lemma {:induction false} OneMoreStep(source: Source, w: World, run: seq<Action>, a: Action)
    requires Legal(source, w, run) && OrdinaryRun(source, w, run)
    requires Enabled(source, After(source, w, run).t, a) && Ordinary(After(source, w, run).t, a)
    ensures Legal(source, w, run + [a]) && OrdinaryRun(source, w, run + [a])
    ensures After(source, w, run + [a]) == Apply(source, After(source, w, run), a)
    decreases |run|
  {
    if run == [] {
      assert [] + [a] == [a] && [a][1..] == [];
      var w1 := Apply(source, w, a);
      assert Legal(source, w1, []) && After(source, w1, []) == w1;
    } else {
      assert (run + [a])[0] == run[0] && (run + [a])[1..] == run[1..] + [a];
      OneMoreStep(source, Apply(source, w, run[0]), run[1..], a);
    }
  }

  // ---- making a parent visible ----------------------------------------------------------

  predicate Open(t: Spec.Wt, q: string) {
    q == "/" || t.Lookup(q).Some?
  }

  /** Between the two trees nothing that decides about p has changed, and p is still known. */
  predicate Spares(t: Spec.Wt, t': Spec.Wt, p: string) {
    t'.base == t.base && t'.auth == t.auth && (p in t'.marks <==> p in t.marks) && (p in t.Known() ==> p in t'.Known())
  }

  lemma OpenEnsures(source: Source, t: Spec.Wt, q: string)
    requires Absolute(q) && Open(t, q)
    ensures Ensure(source, {}, t, q) == (t, true)
  {}

  /** In an open directory an unknown source path is brought in. */
  lemma ProbeBringsIn(source: Source, t: Spec.Wt, q: string)
    requires q in source && Absolute(q) && q != "/" && !Reserved(BaseName(q)) && Open(t, Parent(q)) && t.LookupRaw(q).None?
    ensures Ensure(source, {}, t, q) == (Spec.InsertSource(t, q, source[q]), true)
  {
    OpenEnsures(source, t, Parent(q));
    EnsureUnknown(source, {}, t, q);
  }

  lemma ProbeFinds(source: Source, t: Spec.Wt, q: string)
    requires Absolute(q) && q != "/" && t.LookupRaw(q).Some?
    ensures Ensure(source, {}, t, q).0 == t
  {}

  lemma InsertedSpares(t: Spec.Wt, q: string, e: Entry, p: string)
    requires p != q
    ensures Spares(t, Spec.InsertSource(t, q, e), p) && Spec.InsertSource(t, q, e).LookupRaw(q).Some?
  {}

  lemma ProbeKnows(source: Source, t: Spec.Wt, q: string, p: string)
    requires q in source && Absolute(q) && q != "/" && !Reserved(BaseName(q)) && Open(t, Parent(q)) && p != q
    ensures var t1 := Ensure(source, {}, t, q).0; t1.LookupRaw(q).Some? && Spares(t, t1, p)
  {
    if t.LookupRaw(q).None? {
      ProbeBringsIn(source, t, q);
      InsertedSpares(t, q, source[q], p);
    } else {
      ProbeFinds(source, t, q);
    }
  }

  /** Create a directory when it is hidden. */
  function Opened(t: Spec.Wt, q: string): Spec.Wt {
    if t.Lookup(q).None? then Spec.Insert(t, q, SomeDir()) else t
  }

  lemma OpenedIsOpen(t: Spec.Wt, t1: Spec.Wt, q: string, p: string)
    requires Spares(t, t1, p) && p != q
    ensures Open(Opened(t1, q), q) && Spares(t, Opened(t1, q), p)
  {}

  /** Look a directory up, and create it when it is hidden. */
  lemma OpenOne(source: Source, w: World, run: seq<Action>, q: string) returns (run': seq<Action>)
    requires Absolute(q) && Legal(source, w, run) && OrdinaryRun(source, w, run)
    requires q in source ==> Ensure(source, {}, After(source, w, run).t, q).0.LookupRaw(q).Some?
    ensures Legal(source, w, run') && OrdinaryRun(source, w, run')
    ensures After(source, w, run').t == Opened(Ensure(source, {}, After(source, w, run).t, q).0, q)
  {
    var probe := EnsureAt(q, {});
    OneMoreStep(source, w, run, probe);
    run' := run + [probe];
    if After(source, w, run').t.Lookup(q).None? {
      OneMoreStep(source, w, run', Put(q, SomeDir()));
      run' := run' + [Put(q, SomeDir())];
    }
  }

  lemma {:induction false} OpenAll(source: Source, w: World, q: string, p: string) returns (run: seq<Action>)
    requires RealSource(source) && Absolute(q) && (q == "/" || q in source) && |q| < |p|
    ensures Legal(source, w, run) && OrdinaryRun(source, w, run)
    ensures Open(After(source, w, run).t, q) && Spares(w.t, After(source, w, run).t, p)
    decreases |q|
  {
    run := [];
    if q != "/" {
      assert InDirectory(source, q);
      var above := OpenAll(source, w, Parent(q), p);
      var t := After(source, w, above).t;
      ProbeKnows(source, t, q, p);
      OpenedIsOpen(t, Ensure(source, {}, t, q).0, q, p);
      run := OpenOne(source, w, above, q);
    }
  }

  // ---- what is not anchored comes back ------------------------------------------------------

  /** Remove a path and look it up again. */
  function RemoveThenProbe(p: string): seq<Action> {
    [Unlink(p), EnsureAt(p, {})]
  }

  /** A visible path of the source that nothing anchors, in an open directory. */
  predicate Loose(source: Source, t: Spec.Wt, p: string) {
    && p in source && InDirectory(source, p) && t.auth && p !in t.base && p !in t.marks
    && t.Lookup(p).Some? && Open(t, Parent(p))
  }

  /** Removed, it is unknown and its directory is still open, so a lookup brings it in. */
  lemma LooseReturns(source: Source, t: Spec.Wt, p: string)
    requires Loose(source, t, p)
    ensures Spec.Remove(t, p).Lookup(p).None? && Ensure(source, {}, Spec.Remove(t, p), p).0.Lookup(p) == Some(source[p])
  {
    var t1 := Spec.Remove(t, p);
    Spec.RemoveHides(t, p, Parent(p));
    ForgottenExactly(t, p);
    ProbeBringsIn(source, t1, p);
    InsertedShows(t1, p, source[p]);
  }

  lemma LooseComesBack(source: Source, w: World, p: string)
    requires Loose(source, w.t, p)
    ensures var w1 := Apply(source, w, Unlink(p)); var w2 := Apply(source, w1, EnsureAt(p, {}));
      p in w2.gone && w2.t.Lookup(p).Some?
  {
    LooseReturns(source, w.t, p);
  }

  lemma RemoveAndProbe(source: Source, w: World, run: seq<Action>, p: string)
    requires Legal(source, w, run) && OrdinaryRun(source, w, run) && Loose(source, After(source, w, run).t, p)
    ensures var run' := run + RemoveThenProbe(p);
      && Legal(source, w, run') && OrdinaryRun(source, w, run')
      && p in After(source, w, run').gone && After(source, w, run').t.Lookup(p).Some?
  {
    LooseComesBack(source, After(source, w, run), p);
    var run1 := run + [Unlink(p)];
    OneMoreStep(source, w, run, Unlink(p));
    OneMoreStep(source, w, run1, EnsureAt(p, {}));
    assert run + RemoveThenProbe(p) == run1 + [EnsureAt(p, {})];
  }

  /** A known path can be shown, in an open directory. */
  lemma ShowPath(source: Source, w: World, p: string) returns (run: seq<Action>)
    requires RealSource(source) && p in source && p in w.t.Known() && Absolute(p) && p != "/"
    ensures Legal(source, w, run) && OrdinaryRun(source, w, run)
    ensures Shown(w.t, After(source, w, run).t, p)
  {
    assert InDirectory(source, p);
    run := OpenAll(source, w, Parent(p), p);
    if After(source, w, run).t.Lookup(p).None? {
      run := CreateIt(source, w, run, p);
    }
  }

  /** p is visible now, in an open directory, and nothing else that decides about it has changed. */
  predicate Shown(t: Spec.Wt, t': Spec.Wt, p: string)
    requires Absolute(p) && p != "/"
  {
    t'.Lookup(p).Some? && Open(t', Parent(p)) && Spares(t, t', p)
  }

  lemma CreateIt(source: Source, w: World, run: seq<Action>, p: string) returns (run': seq<Action>)
    requires Absolute(p) && p != "/" && p in w.t.Known() && Legal(source, w, run) && OrdinaryRun(source, w, run)
    requires var t := After(source, w, run).t; t.Lookup(p).None? && Open(t, Parent(p)) && Spares(w.t, t, p)
    ensures Legal(source, w, run') && OrdinaryRun(source, w, run') && Shown(w.t, After(source, w, run').t, p)
  {
    run' := run + [Put(p, SomeBlob())];
    OneMoreStep(source, w, run, Put(p, SomeBlob()));
    var t, t' := After(source, w, run).t, After(source, w, run').t;
    assert t' == Spec.Insert(t, p, SomeBlob());
  }

  lemma UnanchoredComesBack(source: Source, t: Spec.Wt, p: string) returns (run: seq<Action>)
    requires RealSource(source) && t.auth && p in source && p in t.Known() && p !in t.base && p !in t.marks
    ensures Legal(source, World(t, {}), run) && OrdinaryRun(source, World(t, {}), run)
    ensures p in After(source, World(t, {}), run).gone && After(source, World(t, {}), run).t.Lookup(p).Some?
  {
    assert InDirectory(source, p);
    var w := World(t, {});
    var shown := ShowPath(source, w, p);
    RemoveAndProbe(source, w, shown, p);
    run := shown + RemoveThenProbe(p);
  }

  /** Whatever ordinary steps come next, nothing gone is seen again. */
  ghost predicate OrdinarilySafe(source: Source, t: Spec.Wt) {
    forall run :: Legal(source, World(t, {}), run) && OrdinaryRun(source, World(t, {}), run) ==>
      StaysGone(After(source, World(t, {}), run))
  }

  /**
   * For every real source a tree is safe exactly when every known source path is
   * anchored, or there is no authority: then against every careful run, and otherwise not
   * even against ordinary steps.
   */
  lemma OrdinarilySafeExactlyWhenAnchored(source: Source, t: Spec.Wt)
    requires RealSource(source)
    ensures OrdinarilySafe(source, t) <==> Anchored(source, t)
    ensures OrdinarilySafe(source, t) <==> SafeFrom(source, t)
  {
    assert forall p | p in source :: !source[p].kind.Deleted? by {
      assert forall p | p in source :: InDirectory(source, p);
    }
    SafeExactlyWhenAnchored(source, t);
    if Anchored(source, t) {
      forall run | Legal(source, World(t, {}), run) && OrdinaryRun(source, World(t, {}), run)
        ensures StaysGone(After(source, World(t, {}), run))
      {
        OrdinaryIsCareful(source, World(t, {}), run);
      }
    } else {
      var p :| p in source && p in t.Known() && p !in t.base && p !in t.marks;
      var run := UnanchoredComesBack(source, t, p);
      assert !StaysGone(After(source, World(t, {}), run));
    }
  }

  /** A directory rename keeps a tree ordinarily safe exactly when it is careful. */
  lemma RenameOrdinarilySafeExactlyWhenCareful(source: Source, t: Spec.Wt, todo: seq<(string, Entry)>, from: string, to: string)
    requires RealSource(source)
    requires Anchored(source, t) && Spec.ListsSubtree(todo, t, from) && Spec.Apart(todo, from, to)
    ensures OrdinarilySafe(source, Spec.MoveAll(t, todo, from, to)) <==> Careful(source, t, RenameTree(todo, from, to))
  {
    assert forall p | p in source :: !source[p].kind.Deleted? by {
      assert forall p | p in source :: InDirectory(source, p);
    }
    OrdinarilySafeExactlyWhenAnchored(source, Spec.MoveAll(t, todo, from, to));
    RenameSafeExactlyWhenCareful(source, t, todo, from, to);
  }

  // ---- a rename that is not careful -----------------------------------------------------------

  predicate Name(n: string) {
    n != "" && '/' !in n && !Reserved(n)
  }

  function At(d: string, n: string): (p: string)
    ensures d <= p
  {
    d + "/" + n
  }

  /** A directory below the root with a file. */
  predicate DirWithFile(b: string, bx: string) {
    && Absolute(b) && b != "/" && Parent(b) == "/" && !Reserved(BaseName(b))
    && Absolute(bx) && bx != "/" && Parent(bx) == b && !Reserved(BaseName(bx)) && b != bx
  }

  predicate Four(a: string, ax: string, b: string, bx: string) {
    a != b && a != bx && ax != b && ax != bx && a != ax && b != bx
  }

  /** Renaming a to b takes a and ax to b and bx. */
  predicate Renames(a: string, ax: string, b: string, bx: string) {
    && a <= ax && Spec.Target(a, a, b) == b && Spec.Target(ax, a, b) == bx
    && Spec.InSubtree(a, a) && Spec.InSubtree(ax, a) && !Spec.InSubtree(b, a)
  }

  lemma SplitsAt(d: string, n: string)
    requires '/' !in n
    ensures LastSlash(At(d, n)) == |d| && At(d, n)[|d| + 1..] == n && At(d, n)[..|d|] == d
  {
    LastSlashIsLast(At(d, n), |d|);
  }

  lemma NamesFit(m: string, n: string, x: string)
    requires Name(m) && Name(n) && Name(x) && m != n
    ensures var a, b := At("", m), At("", n);
      DirWithFile(b, At(b, x)) && Four(a, At(a, x), b, At(b, x)) && Renames(a, At(a, x), b, At(b, x))
  {
    var a, b := At("", m), At("", n);
    NamesNest(n, x);
    NamesDiffer(m, n, x);
    TargetsOf(a, x, b);
    Outside(m, n);
  }

  lemma NamesNest(n: string, x: string)
    requires Name(n) && Name(x)
    ensures DirWithFile(At("", n), At(At("", n), x))
  {
    SplitsAt("", n);
    SplitsAt(At("", n), x);
  }

  lemma NamesDiffer(m: string, n: string, x: string)
    requires Name(m) && Name(n) && Name(x) && m != n
    ensures Four(At("", m), At(At("", m), x), At("", n), At(At("", n), x))
  {
    SplitsAt("", m);
    SplitsAt("", n);
    SplitsAt(At("", m), x);
    SplitsAt(At("", n), x);
  }

  lemma TargetsOf(a: string, x: string, b: string)
    requires a != "" && a[|a| - 1] != '/'
    ensures a <= At(a, x) && Spec.Target(a, a, b) == b && Spec.Target(At(a, x), a, b) == At(b, x)
    ensures Spec.InSubtree(a, a) && Spec.InSubtree(At(a, x), a)
  {
    assert At(a, x)[|a|..] == "/" + x;
    assert b + ("/" + x) == At(b, x);
  }

  lemma Outside(m: string, n: string)
    requires Name(m) && Name(n) && m != n
    ensures !Spec.InSubtree(At("", n), At("", m))
  {
    var a, b := At("", m), At("", n);
    assert a[1..] == m && b[1..] == n && Spec.Scan(a) == a + "/";
    if |a| < |b| {
      assert b[|a|] == n[|m|];
      assert (a + "/")[|a|] == '/';
    }
  }

  /** The source has a directory with a file. */
  function SourceDir(b: string, bx: string): Source {
    map[b := SomeDir(), bx := SomeBlob()]
  }

  lemma SourceDirIsReal(b: string, bx: string)
    requires DirWithFile(b, bx)
    ensures RealSource(SourceDir(b, bx))
  {}

  /** Roll back to an empty tree, make a directory with a file, look the source's directory up. */
  function Prelude(a: string, ax: string, b: string): seq<Action> {
    [Rollback(map[]), Put(a, SomeDir()), Put(ax, SomeBlob()), EnsureAt(b, {})]
  }

  /** The tree then: authoritative, with the probed directory known and marked. */
  function Before(a: string, ax: string, b: string): Spec.Wt {
    Spec.Wt(map[], map[a := SomeDir(), ax := SomeBlob(), b := SomeDir()], {b}, true)
  }

  function Moved(a: string, ax: string): (todo: seq<(string, Entry)>)
    requires a <= ax
    ensures forall i :: 0 <= i < |todo| ==> a <= todo[i].0
  {
    [(a, SomeDir()), (ax, SomeBlob())]
  }

  /** The tree after renaming the one directory onto the other. */
  function Renamed(b: string, bx: string): Spec.Wt {
    Spec.Wt(map[], map[b := SomeDir(), bx := SomeBlob()], {b}, true)
  }

  lemma OneStep(source: Source, w: World, a: Action, rest: seq<Action>)
    requires Enabled(source, w.t, a)
    ensures Legal(source, w, [a] + rest) <==> Legal(source, Apply(source, w, a), rest)
    ensures Legal(source, w, [a] + rest) ==> After(source, w, [a] + rest) == After(source, Apply(source, w, a), rest)
  {
    assert ([a] + rest)[0] == a && ([a] + rest)[1..] == rest;
  }

  lemma MadeDir(source: Source, a: string, ax: string)
    requires a != ax && a !in source && ax !in source
    ensures var run := [Rollback(map[]), Put(a, SomeDir()), Put(ax, SomeBlob())];
      && Legal(source, Fresh(), run)
      && After(source, Fresh(), run) == World(Spec.Wt(map[], map[a := SomeDir(), ax := SomeBlob()], {}, true), {})
  {
    var s1, s2, s3 := Rollback(map[]), Put(a, SomeDir()), Put(ax, SomeBlob());
    var w1 := Apply(source, Fresh(), s1);
    assert w1 == World(Spec.Wt(map[], map[], {}, true), {});
    var w2 := Apply(source, w1, s2);
    assert w2 == World(Spec.Wt(map[], map[a := SomeDir()], {}, true), {});
    var w3 := Apply(source, w2, s3);
    assert w3 == World(Spec.Wt(map[], map[a := SomeDir(), ax := SomeBlob()], {}, true), {});
    assert Legal(source, w3, []) && After(source, w3, []) == w3;
    OneStep(source, w2, s3, []);
    OneStep(source, w1, s2, [s3] + []);
    OneStep(source, Fresh(), s1, [s2] + ([s3] + []));
    assert [s1] + ([s2] + ([s3] + [])) == [s1, s2, s3];
  }

  lemma {:induction false} ThenOne(source: Source, w: World, run: seq<Action>, a: Action)
    requires Legal(source, w, run) && Enabled(source, After(source, w, run).t, a)
    ensures Legal(source, w, run + [a]) && After(source, w, run + [a]) == Apply(source, After(source, w, run), a)
    decreases |run|
  {
    if run == [] {
      assert Legal(source, Apply(source, w, a), []);
      OneStep(source, w, a, []);
      assert [] + [a] == [a] + [];
    } else {
      assert (run + [a])[0] == run[0] && (run + [a])[1..] == run[1..] + [a];
      ThenOne(source, Apply(source, w, run[0]), run[1..], a);
    }
  }

  lemma PreludeReaches(a: string, ax: string, b: string, bx: string)
    requires DirWithFile(b, bx) && Four(a, ax, b, bx)
    ensures Legal(SourceDir(b, bx), Fresh(), Prelude(a, ax, b))
    ensures After(SourceDir(b, bx), Fresh(), Prelude(a, ax, b)) == World(Before(a, ax, b), {})
  {
    var source, run := SourceDir(b, bx), [Rollback(map[]), Put(a, SomeDir()), Put(ax, SomeBlob())];
    MadeDir(source, a, ax);
    var t := Spec.Wt(map[], map[a := SomeDir(), ax := SomeBlob()], {}, true);
    ProbeBringsIn(source, t, b);
    assert Spec.InsertSource(t, b, SomeDir()) == Before(a, ax, b);
    ThenOne(source, Fresh(), run, EnsureAt(b, {}));
    assert run + [EnsureAt(b, {})] == Prelude(a, ax, b);
  }

  lemma MoveTwo(t: Spec.Wt, p: string, e: Entry, q: string, f: Entry, from: string, to: string)
    requires from <= p && from <= q
    ensures Spec.MoveAll(t, [(p, e), (q, f)], from, to) ==
            Spec.Move(Spec.Move(t, p, e, Spec.Target(p, from, to)), q, f, Spec.Target(q, from, to))
  {
    var todo := [(p, e), (q, f)];
    var t1 := Spec.Move(t, p, e, Spec.Target(p, from, to));
    var t2 := Spec.Move(t1, q, f, Spec.Target(q, from, to));
    assert todo[1..] == [(q, f)] && todo[1..][1..] == [];
    assert Spec.MoveAll(t2, todo[1..][1..], from, to) == t2;
    assert Spec.MoveAll(t1, todo[1..], from, to) == t2;
  }

  /** The rename leaves the file where the source has its own. */
  lemma RenameReaches(a: string, ax: string, b: string, bx: string)
    requires Four(a, ax, b, bx) && Renames(a, ax, b, bx)
    ensures Spec.MoveAll(Before(a, ax, b), Moved(a, ax), a, b) == Renamed(b, bx)
  {
    MoveTwo(Before(a, ax, b), a, SomeDir(), ax, SomeBlob(), a, b);
    BothMoves(a, ax, b, bx);
  }

  lemma BothMoves(a: string, ax: string, b: string, bx: string)
    requires Four(a, ax, b, bx)
    ensures Spec.Move(Spec.Move(Before(a, ax, b), a, SomeDir(), b), ax, SomeBlob(), bx) == Renamed(b, bx)
  {
    var t1 := Spec.Move(Before(a, ax, b), a, SomeDir(), b);
    assert t1 == Spec.Wt(map[], map[ax := SomeBlob(), b := SomeDir()], {b}, true);
    assert Spec.Move(t1, ax, SomeBlob(), bx) == Renamed(b, bx);
  }

  lemma MovedIsListed(a: string, ax: string, b: string, bx: string)
    requires Four(a, ax, b, bx) && Renames(a, ax, b, bx)
    ensures Spec.ListsSubtree(Moved(a, ax), Before(a, ax, b), a)
  {
    forall p | p in Before(a, ax, b).Known() && Spec.InSubtree(p, a) ensures exists i :: 0 <= i < |Moved(a, ax)| && Moved(a, ax)[i].0 == p {
      assert Moved(a, ax)[0].0 == a && Moved(a, ax)[1].0 == ax;
    }
  }

  /** The rename is allowed, for its end has been probed, but it is not careful. */
  lemma RenameIsAllowed(a: string, ax: string, b: string, bx: string)
    requires Four(a, ax, b, bx) && Renames(a, ax, b, bx)
    ensures Enabled(SourceDir(b, bx), Before(a, ax, b), RenameTree(Moved(a, ax), a, b))
    ensures !Careful(SourceDir(b, bx), Before(a, ax, b), RenameTree(Moved(a, ax), a, b))
  {
    assert !Lands(SourceDir(b, bx), Before(a, ax, b), bx);
    assert !Moved(a, ax)[1].1.kind.Deleted? && Spec.Target(Moved(a, ax)[1].0, a, b) == bx;
  }

  /** The run ends with something visible that a user removed. */
  ghost predicate BringsBack(source: Source, w: World, run: seq<Action>, p: string) {
    Legal(source, w, run) && p in After(source, w, run).gone && After(source, w, run).t.Lookup(p).Some?
  }

  lemma ThenComesBack(source: Source, w: World, first: Action, p: string)
    requires Enabled(source, w.t, first) && Loose(source, TreeAfter(source, w.t, first), p)
    ensures BringsBack(source, w, [first] + RemoveThenProbe(p), p)
  {
    var w1 := Apply(source, w, first);
    assert Legal(source, w1, []) && OrdinaryRun(source, w1, []) && After(source, w1, []) == w1;
    RemoveAndProbe(source, w1, [], p);
    assert [] + RemoveThenProbe(p) == RemoveThenProbe(p);
    OneStep(source, w, first, RemoveThenProbe(p));
  }

  lemma LooseAfterRename(b: string, bx: string)
    requires DirWithFile(b, bx)
    ensures Loose(SourceDir(b, bx), Renamed(b, bx), bx)
  {}

  /** A rename of a whole directory that the adapter allows, but that is not careful. */
  ghost predicate Careless(source: Source, t: Spec.Wt, rename: Action) {
    && rename.RenameTree? && Enabled(source, t, rename)
    && Spec.ListsSubtree(rename.todo, t, rename.from) && !Careful(source, t, rename)
  }

  /** With a real source: a careless rename, from which on a removed path comes back. */
  ghost predicate GoesWrong(source: Source, prelude: seq<Action>, rename: Action, p: string) {
    && RealSource(source) && Legal(source, Fresh(), prelude)
    && (var w := After(source, Fresh(), prelude);
        Anchored(source, w.t) && Careless(source, w.t, rename) && BringsBack(source, w, [rename] + RemoveThenProbe(p), p))
  }

  lemma RenameGoesWrong(a: string, ax: string, b: string, bx: string)
    requires DirWithFile(b, bx) && Four(a, ax, b, bx) && Renames(a, ax, b, bx)
    ensures GoesWrong(SourceDir(b, bx), Prelude(a, ax, b), RenameTree(Moved(a, ax), a, b), bx)
  {
    var source, rename, w := SourceDir(b, bx), RenameTree(Moved(a, ax), a, b), World(Before(a, ax, b), {});
    SourceDirIsReal(b, bx);
    PreludeReaches(a, ax, b, bx);
    assert Careless(source, w.t, rename) by {
      MovedIsListed(a, ax, b, bx);
      RenameIsAllowed(a, ax, b, bx);
    }
    assert BringsBack(source, w, [rename] + RemoveThenProbe(bx), bx) by {
      RenameReaches(a, ax, b, bx);
      LooseAfterRename(b, bx);
      ThenComesBack(source, w, rename, bx);
    }
  }

  /**
   * For any two directory names m and n and file name x, with a real source that holds
   * n/x: from an empty tree on, renaming m onto n, which has been looked up, and then
   * removing n/x; the next lookup brings the source's file of that name in.
   */
  lemma RenamedChildComesBack(m: string, n: string, x: string)
    requires Name(m) && Name(n) && Name(x) && m != n
    ensures var a, b := At("", m), At("", n);
      GoesWrong(SourceDir(b, At(b, x)), Prelude(a, At(a, x), b), RenameTree(Moved(a, At(a, x)), a, b), At(b, x))
  {
    NamesFit(m, n, x);
    RenameGoesWrong(At("", m), At(At("", m), x), At("", n), At(At("", n), x));
  }
}
