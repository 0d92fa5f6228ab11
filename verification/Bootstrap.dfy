/**
 * Lazy and background ingestion from the live source directory
 * (src/cas/bootstrap.cpp), and the guarantee that it brings nothing back that was
 * removed.  The source directory is a finite map from virtual paths to the entries
 * their ingestion would insert; reads that fail are the set `broken`.
 */
module Bootstrap {
  import opened CasTypes
  import opened Paths
  import Spec = WorkingTreeSpec
  import Trees = WorkingTree

  type Source = map<string, Entry>

  // ---- paths ---------------------------------------------------------------------------

  predicate Absolute(p: string) {
    p != "" && p[0] == '/'
  }

  function Parent(p: string): (q: string)
    requires Absolute(p) && p != "/"
    ensures Absolute(q) && |q| < |p|
  {
    LastSlashIsLast(p, 0);
    if LastSlash(p) == 0 then "/" else p[..LastSlash(p)]
  }

  function BaseName(p: string): string
    requires Absolute(p)
  {
    LastSlashIsLast(p, 0);
    p[LastSlash(p) + 1..]
  }

  predicate Reserved(name: string) {
    name == ".agentvfs-store" || name == ".agentvfs-control"
  }

  // ---- what ensuring a path does ---------------------------------------------------------

  predicate Ingests(source: Source, broken: set<string>, p: string) {
    p in source && p !in broken
  }

  /** The nearest known ancestor decides; what lies between is ingested from the top down. */
  function Ensure(source: Source, broken: set<string>, t: Spec.Wt, p: string): (Spec.Wt, bool)
    requires Absolute(p)
    decreases |p|
  {
    if p == "/" then (t, true)
    else
      match t.LookupRaw(p)
      case Some(e) => (t, !e.kind.Deleted?)
      case None =>
        var (t', ok) := Ensure(source, broken, t, Parent(p));
        if ok && !Reserved(BaseName(p)) && Ingests(source, broken, p) then (Spec.InsertSource(t', p, source[p]), true)
        else (t', false)
  }

  /** One entry of the background walk's enumeration. */
  function WalkEntry(source: Source, broken: set<string>, t: Spec.Wt, p: string): Spec.Wt {
    if t.LookupRaw(p).None? && Ingests(source, broken, p) then Spec.InsertSource(t, p, source[p]) else t
  }

  /** Ensuring never changes what is known, and adds only what the source has. */
  lemma {:induction false} EnsureOnlyAdds(source: Source, broken: set<string>, t: Spec.Wt, p: string, q: string)
    requires Absolute(p)
    ensures var t' := Ensure(source, broken, t, p).0;
      && (t.LookupRaw(q).Some? ==> t'.LookupRaw(q) == t.LookupRaw(q))
      && (t.LookupRaw(q).None? && t'.LookupRaw(q).Some? ==>
            Ingests(source, broken, q) && t'.LookupRaw(q) == Some(source[q]) && |q| <= |p|)
    decreases |p|
  {
    if p != "/" && t.LookupRaw(p).None? {
      EnsureOnlyAdds(source, broken, t, Parent(p), q);
    }
  }

  /** It succeeds exactly when the path is visible afterwards. */
  lemma {:induction false} EnsureAnswers(source: Source, broken: set<string>, t: Spec.Wt, p: string)
    requires Absolute(p) && p != "/"
    requires forall q | q in source :: !source[q].kind.Deleted?
    ensures Ensure(source, broken, t, p).1 <==> Ensure(source, broken, t, p).0.Lookup(p).Some?
  {
    if t.LookupRaw(p).None? {
      EnsureOnlyAdds(source, broken, t, Parent(p), p);
    }
  }

  // ---- chains of unknown ancestors -----------------------------------------------------------

  ghost predicate IsChain(missing: seq<string>, vpath: string, t: Spec.Wt) {
    && Absolute(vpath)
    && (forall i :: 0 <= i < |missing| ==> Absolute(missing[i]) && missing[i] != "/" && t.LookupRaw(missing[i]).None?)
    && (missing != [] ==> missing[0] == vpath)
    && (forall i :: 0 <= i < |missing| - 1 ==> missing[i + 1] == Parent(missing[i]))
  }

  /** Where the chain above vpath ends. */
  function Top(missing: seq<string>, vpath: string): string
    requires missing != [] ==> Absolute(missing[|missing| - 1]) && missing[|missing| - 1] != "/"
  {
    if missing == [] then vpath else Parent(missing[|missing| - 1])
  }

  /** A failure somewhere on the chain is the failure of the whole. */
  lemma {:induction false} FailsUpwards(source: Source, broken: set<string>, t: Spec.Wt, missing: seq<string>, vpath: string,
                                        k: nat, t': Spec.Wt)
    requires IsChain(missing, vpath, t) && k < |missing|
    requires Ensure(source, broken, t, missing[k]) == (t', false)
    ensures Ensure(source, broken, t, vpath) == (t', false)
  {
    if k > 0 {
      assert missing[k] == Parent(missing[k - 1]);
      FailsUpwards(source, broken, t, missing, vpath, k - 1, t');
    }
  }

  lemma FailsAtTop(source: Source, broken: set<string>, t: Spec.Wt, missing: seq<string>, vpath: string)
    requires IsChain(missing, vpath, t) && Ensure(source, broken, t, Top(missing, vpath)) == (t, false)
    ensures Ensure(source, broken, t, vpath) == (t, false)
  {
    if missing != [] {
      FailsUpwards(source, broken, t, missing, vpath, |missing| - 1, t);
    }
  }

  // ---- the object ------------------------------------------------------------------------

  class Bootstrap {
    const source: Source
    const wt: Trees.WorkingTree

    constructor (source: Source, wt: Trees.WorkingTree)
      ensures this.source == source && this.wt == wt
    {
      this.source := source;
      this.wt := wt;
    }

    /** Runs under the checkpoint lock from beginning to end. */
    method EnsurePath(vpath: string, broken: set<string>) returns (ok: bool)
      requires wt.Valid() && Absolute(vpath)
      modifies wt`delta, wt`sourceOriginPaths
      ensures wt.Valid() && (wt.V(), ok) == Ensure(source, broken, old(wt.V()), vpath)
    {
      if vpath == "/" {
        return true;
      }
      var missing, hidden := FindMissing(vpath, broken);
      if hidden {
        return false;
      }
      ghost var start := wt.V();
      var k: nat := |missing|;
      while k > 0
        invariant k <= |missing| && wt.Valid() && IsChain(missing, vpath, start)
        invariant Ensure(source, broken, start, if k == |missing| then Top(missing, vpath) else missing[k]) == (wt.V(), true)
      {
        k := k - 1;
        var p := missing[k];
        ghost var above := if k + 1 == |missing| then Top(missing, vpath) else missing[k + 1];
        assert Parent(p) == above;
        if Reserved(BaseName(p)) || !Ingests(source, broken, p) {
          FailsUpwards(source, broken, start, missing, vpath, k, wt.V());
          return false;
        }
        wt.InsertSource(p, source[p]);
      }
      ok := true;
    }

    /** The chain of unknown paths from vpath upwards; hidden when it ends at a whiteout. */
    method FindMissing(vpath: string, ghost broken: set<string>) returns (missing: seq<string>, hidden: bool)
      requires wt.Valid() && Absolute(vpath) && vpath != "/"
      ensures IsChain(missing, vpath, wt.V())
      ensures hidden ==> Ensure(source, broken, wt.V(), vpath) == (wt.V(), false)
      ensures !hidden ==> Ensure(source, broken, wt.V(), Top(missing, vpath)) == (wt.V(), true)
    {
      missing := [];
      hidden := false;
      var cur := vpath;
      while cur != "/"
        invariant Absolute(cur) && IsChain(missing, vpath, wt.V()) && cur == Top(missing, vpath)
        decreases |cur|
      {
        var existing := wt.LookupRaw(cur);
        if existing.Some? {
          if existing.value.kind.Deleted? {
            FailsAtTop(source, broken, wt.V(), missing, vpath);
            hidden := true;
          }
          return;
        }
        missing := missing + [cur];
        cur := Parent(cur);
      }
    }
  }

  // ---- nothing removed comes back -----------------------------------------------------------------

  /** User operations, ingestion and changes of authority, each under the checkpoint lock. */
  datatype Action =
    | Put(p: string, e: Entry)
    | Unlink(p: string)
    | Rename(from: string, to: string)
    | RenameTree(todo: seq<(string, Entry)>, from: string, to: string)
    | EnsureAt(p: string, broken: set<string>)
    | Walk(p: string, broken: set<string>)
    | BeginWalk
    | Publish
    | Rollback(entries: map<string, Entry>)

  /**
   * gone: the paths known at some time since the last rollback that were invisible
   * after the last operation of a user.
   */
  datatype World = World(t: Spec.Wt, gone: set<string>)

  /** An insertion onto a source path comes after a probe that made the path known. */
  predicate Probed(source: Source, t: Spec.Wt, p: string) {
    p in source ==> t.LookupRaw(p).Some?
  }

  /** An entry put at p leaves a whiteout behind when it is removed, if one is needed. */
  predicate Lands(source: Source, t: Spec.Wt, p: string) {
    t.auth && p in source ==> p in t.base || p in t.marks
  }

  /**
   * The adapters probe the two ends of a rename and nothing below them; this is what is
   * missing: no live child lands on a source path that the tree does not know.
   */
  predicate Careful(source: Source, t: Spec.Wt, a: Action)
    requires a.RenameTree? ==> forall i :: 0 <= i < |a.todo| ==> a.from <= a.todo[i].0
  {
    a.RenameTree? ==> forall i :: 0 <= i < |a.todo| && !a.todo[i].1.kind.Deleted? ==>
      Lands(source, t, Spec.Target(a.todo[i].0, a.from, a.to))
  }

  ghost predicate Enabled(source: Source, t: Spec.Wt, a: Action) {
    match a
    case Put(p, e) => Probed(source, t, p) && !e.kind.Deleted?
    case Unlink(p) => true
    case Rename(from, to) => Probed(source, t, to)
    case RenameTree(todo, from, to) => Probed(source, t, to) && forall i :: 0 <= i < |todo| ==> from <= todo[i].0
    case EnsureAt(p, _) => Absolute(p)
    case _ => true
  }

  predicate IsUsers(a: Action) {
    a.Put? || a.Unlink? || a.Rename? || a.RenameTree?
  }

  function TreeAfter(source: Source, t: Spec.Wt, a: Action): Spec.Wt
    requires a.EnsureAt? ==> Absolute(a.p)
    requires a.RenameTree? ==> forall i :: 0 <= i < |a.todo| ==> a.from <= a.todo[i].0
  {
    match a
    case Put(p, e) => Spec.Insert(t, p, e)
    case Unlink(p) => Spec.Remove(t, p)
    case Rename(from, to) => Spec.RenameEntry(t, from, to)
    case RenameTree(todo, from, to) => Spec.MoveAll(t, todo, from, to)
    case EnsureAt(p, broken) => Ensure(source, broken, t, p).0
    case Walk(p, broken) => WalkEntry(source, broken, t, p)
    case BeginWalk => Spec.BeginSourceWalk(t)
    case Publish => Spec.Fold(t)
    case Rollback(entries) => Spec.SetBase(entries)
  }

  function Apply(source: Source, w: World, a: Action): World
    requires a.EnsureAt? ==> Absolute(a.p)
    requires a.RenameTree? ==> forall i :: 0 <= i < |a.todo| ==> a.from <= a.todo[i].0
  {
    var t' := TreeAfter(source, w.t, a);
    World(t', if IsUsers(a) then set p | p in w.gone + w.t.Known() && t'.Lookup(p).None?
              else if a.Rollback? then set p | p in a.entries && a.entries[p].kind.Deleted?
              else w.gone)
  }

  /** Authority may forget a whiteout only where ingestion cannot find the path again. */
  predicate Anchored(source: Source, t: Spec.Wt) {
    t.auth ==> forall p | p in source && p in t.Known() :: p in t.base || p in t.marks
  }

  predicate Inv(source: Source, w: World) {
    && Anchored(source, w.t)
    && (forall p | p in w.gone :: w.t.Lookup(p).None?)
    && (forall p | p in w.gone && p in source :: p in w.t.Known())
  }

  /** From t to t' no source path was forgotten. */
  predicate Keeps(source: Source, t: Spec.Wt, t': Spec.Wt) {
    Anchored(source, t') && forall p | p in source && p in t.Known() :: p in t'.Known()
  }

  lemma RemoveKeeps(source: Source, t: Spec.Wt, p: string)
    requires Anchored(source, t)
    ensures Keeps(source, t, Spec.Remove(t, p))
  {}

  lemma InsertKeeps(source: Source, t: Spec.Wt, p: string, e: Entry)
    requires Anchored(source, t) && Lands(source, t, p)
    ensures Keeps(source, t, Spec.Insert(t, p, e))
  {}

  lemma MoveKeeps(source: Source, t: Spec.Wt, from: string, e: Entry, to: string)
    requires Anchored(source, t) && (!e.kind.Deleted? ==> Lands(source, t, to))
    ensures Keeps(source, t, Spec.Move(t, from, e, to))
  {
    RemoveKeeps(source, t, from);
    var t1 := Spec.Remove(t, from);
    if e.kind.Deleted? {
      RemoveKeeps(source, t1, to);
    } else {
      InsertKeeps(source, t1, to, e);
    }
  }

  lemma {:induction false} MoveAllKeeps(source: Source, t: Spec.Wt, todo: seq<(string, Entry)>, from: string, to: string)
    requires Anchored(source, t) && forall i :: 0 <= i < |todo| ==> from <= todo[i].0
    requires Careful(source, t, RenameTree(todo, from, to))
    ensures Keeps(source, t, Spec.MoveAll(t, todo, from, to))
    decreases |todo|
  {
    if todo != [] {
      var t1 := Spec.Move(t, todo[0].0, todo[0].1, Spec.Target(todo[0].0, from, to));
      MoveKeeps(source, t, todo[0].0, todo[0].1, Spec.Target(todo[0].0, from, to));
      forall i | 0 <= i < |todo[1..]| && !todo[1..][i].1.kind.Deleted?
        ensures Lands(source, t1, Spec.Target(todo[1..][i].0, from, to))
      {
        assert todo[1..][i] == todo[i + 1];
      }
      MoveAllKeeps(source, t1, todo[1..], from, to);
    }
  }

  lemma {:induction false} EnsureKeeps(source: Source, broken: set<string>, t: Spec.Wt, p: string)
    requires Anchored(source, t) && Absolute(p)
    ensures Keeps(source, t, Ensure(source, broken, t, p).0)
    decreases |p|
  {
    if p != "/" && t.LookupRaw(p).None? {
      EnsureKeeps(source, broken, t, Parent(p));
    }
  }

  lemma UserStepKeeps(source: Source, t: Spec.Wt, a: Action)
    requires Anchored(source, t) && Enabled(source, t, a) && Careful(source, t, a) && IsUsers(a)
    ensures Keeps(source, t, TreeAfter(source, t, a))
  {
    match a
    case Put(p, e) => InsertKeeps(source, t, p, e);
    case Unlink(p) => RemoveKeeps(source, t, p);
    case Rename(from, to) =>
      if t.LookupRaw(from).Some? {
        MoveKeeps(source, t, from, t.LookupRaw(from).value, to);
      }
    case RenameTree(todo, from, to) => MoveAllKeeps(source, t, todo, from, to);
  }

  lemma UserStepKeepsInv(source: Source, w: World, a: Action)
    requires Inv(source, w) && Enabled(source, w.t, a) && Careful(source, w.t, a) && IsUsers(a)
    ensures Inv(source, Apply(source, w, a))
  {
    UserStepKeeps(source, w.t, a);
  }

  lemma OtherStepKeepsInv(source: Source, w: World, a: Action)
    requires Inv(source, w) && Enabled(source, w.t, a) && !IsUsers(a)
    ensures Inv(source, Apply(source, w, a))
  {
    if a.EnsureAt? {
      EnsureKeeps(source, a.broken, w.t, a.p);
      forall q | q in w.gone ensures Ensure(source, a.broken, w.t, a.p).0.Lookup(q).None? {
        EnsureOnlyAdds(source, a.broken, w.t, a.p, q);
      }
    }
  }

  ghost predicate Legal(source: Source, w: World, run: seq<Action>)
    decreases |run|
  {
    run == [] || (Enabled(source, w.t, run[0]) && Legal(source, Apply(source, w, run[0]), run[1..]))
  }

  ghost predicate CarefulRun(source: Source, w: World, run: seq<Action>)
    requires Legal(source, w, run)
    decreases |run|
  {
    run == [] || (Careful(source, w.t, run[0]) && CarefulRun(source, Apply(source, w, run[0]), run[1..]))
  }

  ghost function After(source: Source, w: World, run: seq<Action>): World
    requires Legal(source, w, run)
    decreases |run|
  {
    if run == [] then w else After(source, Apply(source, w, run[0]), run[1..])
  }

  lemma {:induction false} RunsKeepInv(source: Source, w: World, run: seq<Action>)
    requires Inv(source, w) && Legal(source, w, run) && CarefulRun(source, w, run)
    ensures Inv(source, After(source, w, run))
    decreases |run|
  {
    if run != [] {
      if IsUsers(run[0]) {
        UserStepKeepsInv(source, w, run[0]);
      } else {
        OtherStepKeepsInv(source, w, run[0]);
      }
      RunsKeepInv(source, Apply(source, w, run[0]), run[1..]);
    }
  }

  function Fresh(): World {
    World(Spec.Wt(map[], map[], {}, false), {})
  }

  /** What is gone is invisible. */
  predicate StaysGone(w: World) {
    forall p | p in w.gone :: w.t.Lookup(p).None?
  }

  /**
   * In every run whose directory renames are careful, from an empty tree on, what was
   * known and then removed or renamed away stays invisible until a user puts something
   * there, whatever is probed or walked and whenever authority comes and goes.
   */
  lemma NothingComesBack(source: Source, run: seq<Action>)
    requires Legal(source, Fresh(), run) && CarefulRun(source, Fresh(), run)
    ensures StaysGone(After(source, Fresh(), run))
  {
    RunsKeepInv(source, Fresh(), run);
  }

  // ---- the exact condition ----------------------------------------------------------------------

  /** Whatever comes next from tree t on, nothing gone is seen again. */
  ghost predicate SafeFrom(source: Source, t: Spec.Wt) {
    forall run :: Legal(source, World(t, {}), run) && CarefulRun(source, World(t, {}), run) ==>
      StaysGone(After(source, World(t, {}), run))
  }

  /** Removing p and walking over the source. */
  function RemoveAndWalk(p: string): seq<Action> {
    [Unlink(p), Walk(p, {})]
  }

  lemma RemoveAndWalkRun(source: Source, t: Spec.Wt, p: string)
    ensures Legal(source, World(t, {}), RemoveAndWalk(p)) && CarefulRun(source, World(t, {}), RemoveAndWalk(p))
    ensures After(source, World(t, {}), RemoveAndWalk(p)) ==
            Apply(source, Apply(source, World(t, {}), Unlink(p)), Walk(p, {}))
  {
    var run, w := RemoveAndWalk(p), World(t, {});
    assert run[1..] == [Walk(p, {})] && run[1..][1..] == [];
    var w1 := Apply(source, w, run[0]);
    assert Legal(source, w1, run[1..]) && CarefulRun(source, w1, run[1..]);
    var w2 := Apply(source, w1, run[1..][0]);
    assert After(source, w2, run[1..][1..]) == w2;
    assert After(source, w1, run[1..]) == w2;
  }

  /** A tree is safe exactly when every known source path is anchored, or there is no authority. */
  lemma SafeExactlyWhenAnchored(source: Source, t: Spec.Wt)
    requires forall p | p in source :: !source[p].kind.Deleted?
    ensures SafeFrom(source, t) <==> Anchored(source, t)
  {
    if Anchored(source, t) {
      forall run | Legal(source, World(t, {}), run) && CarefulRun(source, World(t, {}), run)
        ensures StaysGone(After(source, World(t, {}), run))
      {
        RunsKeepInv(source, World(t, {}), run);
      }
    } else {
      var p :| p in source && p in t.Known() && p !in t.base && p !in t.marks;
      RemoveAndWalkRun(source, t, p);
      ForgottenExactly(t, p);
      var w1 := Apply(source, World(t, {}), Unlink(p));
      assert p in w1.gone;
      InsertedShows(w1.t, p, source[p]);
    }
  }

  /** A directory rename keeps a tree safe exactly when it is careful. */
  lemma RenameSafeExactlyWhenCareful(source: Source, t: Spec.Wt, todo: seq<(string, Entry)>, from: string, to: string)
    requires forall p | p in source :: !source[p].kind.Deleted?
    requires Anchored(source, t) && Spec.ListsSubtree(todo, t, from) && Spec.Apart(todo, from, to)
    ensures SafeFrom(source, Spec.MoveAll(t, todo, from, to)) <==> Careful(source, t, RenameTree(todo, from, to))
  {
    var t' := Spec.MoveAll(t, todo, from, to);
    SafeExactlyWhenAnchored(source, t');
    MoveAllLayers(t, todo, from, to);
    if Careful(source, t, RenameTree(todo, from, to)) {
      MoveAllKeeps(source, t, todo, from, to);
    }
    if Anchored(source, t') {
      forall i | 0 <= i < |todo| && !todo[i].1.kind.Deleted?
        ensures Lands(source, t, Spec.Target(todo[i].0, from, to))
      {
        Spec.MoveAllTarget(t, todo, from, to, i);
      }
    }
  }

  lemma {:induction false} MoveAllLayers(t: Spec.Wt, todo: seq<(string, Entry)>, from: string, to: string)
    requires forall i :: 0 <= i < |todo| ==> from <= todo[i].0
    ensures var t' := Spec.MoveAll(t, todo, from, to); t'.base == t.base && t'.marks == t.marks && t'.auth == t.auth
    decreases |todo|
  {
    if todo != [] {
      MoveAllLayers(Spec.Move(t, todo[0].0, todo[0].1, Spec.Target(todo[0].0, from, to)), todo[1..], from, to);
    }
  }

  // ---- no whiteout without a use ----------------------------------------------------------------------

  /** With authority every whiteout hides an entry of the base or a path the source gave. */
  predicate Hygienic(t: Spec.Wt) {
    t.auth ==> forall p | p in t.delta && t.delta[p].kind.Deleted? ::
      (p in t.base && !t.base[p].kind.Deleted?) || p in t.marks
  }

  lemma RemoveKeepsHygiene(t: Spec.Wt, p: string)
    requires Hygienic(t)
    ensures Hygienic(Spec.Remove(t, p))
  {
    if t.auth {
      Spec.RemoveIsHygienic(t, p);
    }
  }

  lemma {:induction false} MoveAllKeepsHygiene(t: Spec.Wt, todo: seq<(string, Entry)>, from: string, to: string)
    requires Hygienic(t) && forall i :: 0 <= i < |todo| ==> from <= todo[i].0
    ensures Hygienic(Spec.MoveAll(t, todo, from, to))
    decreases |todo|
  {
    if todo != [] {
      MoveKeepsHygiene(t, todo[0].0, todo[0].1, Spec.Target(todo[0].0, from, to));
      MoveAllKeepsHygiene(Spec.Move(t, todo[0].0, todo[0].1, Spec.Target(todo[0].0, from, to)), todo[1..], from, to);
    }
  }

  lemma MoveKeepsHygiene(t: Spec.Wt, from: string, e: Entry, to: string)
    requires Hygienic(t)
    ensures Hygienic(Spec.Move(t, from, e, to))
  {
    RemoveKeepsHygiene(t, from);
    if e.kind.Deleted? {
      RemoveKeepsHygiene(Spec.Remove(t, from), to);
    }
  }

  lemma {:induction false} EnsureKeepsHygiene(source: Source, broken: set<string>, t: Spec.Wt, p: string)
    requires Hygienic(t) && Absolute(p)
    ensures Hygienic(Ensure(source, broken, t, p).0)
    decreases |p|
  {
    if p != "/" && t.LookupRaw(p).None? {
      EnsureKeepsHygiene(source, broken, t, Parent(p));
    }
  }

  lemma StepKeepsHygiene(source: Source, w: World, a: Action)
    requires Hygienic(w.t) && Enabled(source, w.t, a)
    ensures Hygienic(Apply(source, w, a).t)
  {
    match a
    case Unlink(p) => RemoveKeepsHygiene(w.t, p);
    case Rename(from, to) =>
      if w.t.LookupRaw(from).Some? {
        MoveKeepsHygiene(w.t, from, w.t.LookupRaw(from).value, to);
      }
    case RenameTree(todo, from, to) => MoveAllKeepsHygiene(w.t, todo, from, to);
    case EnsureAt(p, broken) => EnsureKeepsHygiene(source, broken, w.t, p);
    case _ =>
  }

  /** In every run, careful or not, no whiteout of an authoritative tree is idle. */
  lemma {:induction false} WhiteoutsStayNeeded(source: Source, w: World, run: seq<Action>)
    requires Hygienic(w.t) && Legal(source, w, run)
    ensures Hygienic(After(source, w, run).t)
    decreases |run|
  {
    if run != [] {
      StepKeepsHygiene(source, w, run[0]);
      WhiteoutsStayNeeded(source, Apply(source, w, run[0]), run[1..]);
    }
  }

  // ---- one removal -------------------------------------------------------------------------------

  lemma ForgottenExactly(t: Spec.Wt, p: string)
    ensures Spec.Remove(t, p).LookupRaw(p).None? <==> t.auth && p !in t.base && p !in t.marks
  {}

  /** One level of the recursion. */
  lemma EnsureUnknown(source: Source, broken: set<string>, t: Spec.Wt, p: string)
    requires Absolute(p) && p != "/" && t.LookupRaw(p).None?
    ensures Ensure(source, broken, t, Parent(p)).1 && !Reserved(BaseName(p)) && Ingests(source, broken, p) ==>
      Ensure(source, broken, t, p) == (Spec.InsertSource(Ensure(source, broken, t, Parent(p)).0, p, source[p]), true)
  {}

  lemma InsertedShows(t: Spec.Wt, p: string, e: Entry)
    requires !e.kind.Deleted?
    ensures Spec.InsertSource(t, p, e).Lookup(p) == Some(e)
  {}

  /** Ensuring a forgotten path whose parent can be ensured brings it back; a whiteout keeps it away. */
  lemma EnsureRevives(source: Source, broken: set<string>, t: Spec.Wt, p: string)
    requires Absolute(p) && p != "/" && Ingests(source, broken, p) && !source[p].kind.Deleted? && !Reserved(BaseName(p))
    requires t.Lookup(p).None? && Ensure(source, broken, t, Parent(p)).1
    ensures Ensure(source, broken, t, p).0.Lookup(p).Some? <==> t.LookupRaw(p).None?
  {
    if t.LookupRaw(p).None? {
      EnsureUnknown(source, broken, t, p);
      InsertedShows(Ensure(source, broken, t, Parent(p)).0, p, source[p]);
    }
  }

  /** Without the probe: a removed source path comes back exactly when nothing anchors it. */
  lemma ComesBackExactly(source: Source, broken: set<string>, t: Spec.Wt, p: string)
    requires Absolute(p) && p != "/" && Ingests(source, broken, p) && !source[p].kind.Deleted? && !Reserved(BaseName(p))
    requires Ensure(source, broken, Spec.Remove(t, p), Parent(p)).1
    ensures Ensure(source, broken, Spec.Remove(t, p), p).0.Lookup(p).Some? <==> t.auth && p !in t.base && p !in t.marks
  {
    Spec.RemoveHides(t, p, p);
    ForgottenExactly(t, p);
    EnsureRevives(source, broken, Spec.Remove(t, p), p);
  }
}
