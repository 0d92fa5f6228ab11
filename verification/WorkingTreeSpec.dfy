/**
 * The two-layer path map as a value (src/cas/working_tree.cpp), and what it means:
 * one flat map of live entries.
 */
module WorkingTreeSpec {
  import opened CasTypes

  /** base may hold whiteouts; delta shadows it; marks are paths still in the live source. */
  datatype Wt = Wt(base: map<string, Entry>, delta: map<string, Entry>, marks: set<string>, auth: bool)
  {
    /** Both layers seen as one, whiteouts included. */
    function Raw(): map<string, Entry> {
      base + delta
    }

    function LookupRaw(p: string): Option<Entry> {
      if p in delta then Some(delta[p]) else if p in base then Some(base[p]) else None
    }

    /** The flat map: what a user of the tree sees at p. */
    function Lookup(p: string): Option<Entry> {
      Visible(LookupRaw(p))
    }

    function Known(): set<string> {
      base.Keys + delta.Keys
    }
  }

  function Visible(e: Option<Entry>): Option<Entry> {
    if e.Some? && !e.value.kind.Deleted? then e else None
  }

  function Whiteout(): Entry {
    Entry(Deleted, ZERO_HASH, 0)
  }

  lemma RawIsLookup(t: Wt, p: string)
    ensures t.LookupRaw(p) == if p in t.Raw() then Some(t.Raw()[p]) else None
  {}

  // ---- the operations ------------------------------------------------------------------

  function Insert(t: Wt, p: string, e: Entry): Wt {
    t.(delta := t.delta[p := e])
  }

  function InsertSource(t: Wt, p: string, e: Entry): Wt {
    Insert(t, p, e).(marks := if t.auth then t.marks + {p} else t.marks)
  }

  predicate NeedsNoWhiteout(t: Wt, p: string) {
    t.auth && (p !in t.base || t.base[p].kind.Deleted?) && p !in t.marks
  }

  function Remove(t: Wt, p: string): Wt {
    if NeedsNoWhiteout(t, p) then t.(delta := t.delta - {p}) else Insert(t, p, Whiteout())
  }

  /** One entry goes to another path; a moved whiteout removes the destination. */
  function Move(t: Wt, from: string, e: Entry, to: string): Wt {
    if e.kind.Deleted? then Remove(Remove(t, from), to) else Insert(Remove(t, from), to, e)
  }

  function RenameEntry(t: Wt, from: string, to: string): Wt {
    match t.LookupRaw(from)
    case None => t
    case Some(e) => Move(t, from, e, to)
  }

  function Fold(t: Wt): Wt {
    Wt(t.Raw(), map[], {}, true)
  }

  function SetBase(entries: map<string, Entry>): Wt {
    Wt(entries, map[], {}, true)
  }

  function BeginSourceWalk(t: Wt): Wt {
    t.(auth := false)
  }

  // ---- they act on the flat map ---------------------------------------------------------

  lemma RemoveHides(t: Wt, p: string, q: string)
    ensures Remove(t, p).Lookup(q) == if q == p then None else t.Lookup(q)
    ensures q != p ==> Remove(t, p).LookupRaw(q) == t.LookupRaw(q)
  {}

  /** Hygiene never leaves a whiteout that nothing needs, and never drops one that is needed. */
  lemma RemoveIsHygienic(t: Wt, p: string)
    requires t.auth
    ensures p in Remove(t, p).delta <==> (p in t.base && !t.base[p].kind.Deleted?) || p in t.marks
  {}

  lemma RenameEntryMoves(t: Wt, from: string, to: string, q: string)
    requires from != to && t.Lookup(from).Some?
    ensures RenameEntry(t, from, to).Lookup(q) ==
            if q == to then t.Lookup(from) else if q == from then None else t.Lookup(q)
  {
    RemoveHides(t, from, q);
  }

  lemma FoldKeeps(t: Wt, q: string)
    ensures Fold(t).LookupRaw(q) == t.LookupRaw(q)
  {}

  // ---- moving a directory ------------------------------------------------------------------

  /** Paths below a directory start with it and a slash. */
  function Scan(dir: string): string {
    if dir != "" && dir[|dir| - 1] != '/' then dir + "/" else dir
  }

  predicate InSubtree(p: string, dir: string) {
    p == dir || Scan(dir) <= p
  }

  function Target(p: string, from: string, to: string): string
    requires |from| <= |p|
  {
    to + p[|from|..]
  }

  /** All known entries of the subtree, each once. */
  ghost predicate ListsSubtree(todo: seq<(string, Entry)>, t: Wt, from: string) {
    && (forall i, j :: 0 <= i < j < |todo| ==> todo[i].0 != todo[j].0)
    && (forall i :: 0 <= i < |todo| ==> from <= todo[i].0 && InSubtree(todo[i].0, from) && t.LookupRaw(todo[i].0) == Some(todo[i].1))
    && (forall p | p in t.Known() && InSubtree(p, from) :: exists i :: 0 <= i < |todo| && todo[i].0 == p)
  }

  function MoveAll(t: Wt, todo: seq<(string, Entry)>, from: string, to: string): Wt
    requires forall i :: 0 <= i < |todo| ==> from <= todo[i].0
    decreases |todo|
  {
    if todo == [] then t
    else MoveAll(Move(t, todo[0].0, todo[0].1, Target(todo[0].0, from, to)), todo[1..], from, to)
  }

  /** No path that is moved is also the destination of another. */
  ghost predicate Apart(todo: seq<(string, Entry)>, from: string, to: string)
    requires forall i :: 0 <= i < |todo| ==> from <= todo[i].0
  {
    forall i, j :: 0 <= i < |todo| && 0 <= j < |todo| ==> todo[i].0 != Target(todo[j].0, from, to)
  }

  lemma MoveAt(t: Wt, from: string, e: Entry, to: string, q: string)
    requires from != to
    ensures Move(t, from, e, to).Lookup(q) ==
            if q == to then Visible(Some(e)) else if q == from then None else t.Lookup(q)
  {
    RemoveHides(t, from, q);
    RemoveHides(Remove(t, from), to, q);
  }

  /** Paths that take no part stay as they are. */
  lemma {:induction false} MoveAllElsewhere(t: Wt, todo: seq<(string, Entry)>, from: string, to: string, q: string)
    requires forall i :: 0 <= i < |todo| ==> from <= todo[i].0
    requires Apart(todo, from, to)
    requires forall i :: 0 <= i < |todo| ==> q != todo[i].0 && q != Target(todo[i].0, from, to)
    ensures MoveAll(t, todo, from, to).Lookup(q) == t.Lookup(q)
    decreases |todo|
  {
    if todo != [] {
      assert todo[0].0 != Target(todo[0].0, from, to);
      MoveAt(t, todo[0].0, todo[0].1, Target(todo[0].0, from, to), q);
      MoveAllElsewhere(Move(t, todo[0].0, todo[0].1, Target(todo[0].0, from, to)), todo[1..], from, to, q);
    }
  }

  /** What is moved away is gone. */
  lemma {:induction false} MoveAllSource(t: Wt, todo: seq<(string, Entry)>, from: string, to: string, k: nat)
    requires k < |todo| && forall i :: 0 <= i < |todo| ==> from <= todo[i].0
    requires Apart(todo, from, to) && forall i, j :: 0 <= i < j < |todo| ==> todo[i].0 != todo[j].0
    ensures MoveAll(t, todo, from, to).Lookup(todo[k].0) == None
    decreases |todo|
  {
    var q, t' := todo[k].0, Move(t, todo[0].0, todo[0].1, Target(todo[0].0, from, to));
    assert todo[0].0 != Target(todo[0].0, from, to);
    if k == 0 {
      MoveAt(t, todo[0].0, todo[0].1, Target(todo[0].0, from, to), q);
      MoveAllElsewhere(t', todo[1..], from, to, q);
    } else {
      MoveAllSource(t', todo[1..], from, to, k - 1);
    }
  }

  /** What is moved arrives as it was; a whiteout removes what it lands on. */
  lemma {:induction false} MoveAllTarget(t: Wt, todo: seq<(string, Entry)>, from: string, to: string, k: nat)
    requires k < |todo| && forall i :: 0 <= i < |todo| ==> from <= todo[i].0
    requires Apart(todo, from, to) && forall i, j :: 0 <= i < j < |todo| ==> todo[i].0 != todo[j].0
    ensures MoveAll(t, todo, from, to).Lookup(Target(todo[k].0, from, to)) == Visible(Some(todo[k].1))
    decreases |todo|
  {
    var q, t' := Target(todo[k].0, from, to), Move(t, todo[0].0, todo[0].1, Target(todo[0].0, from, to));
    assert todo[0].0 != Target(todo[0].0, from, to);
    if k == 0 {
      MoveAt(t, todo[0].0, todo[0].1, q, q);
      forall i | 0 < i < |todo| ensures q != Target(todo[i].0, from, to) {
        TargetInjective(todo[0].0, todo[i].0, from, to);
      }
      MoveAllElsewhere(t', todo[1..], from, to, q);
    } else {
      MoveAllTarget(t', todo[1..], from, to, k - 1);
    }
  }

  lemma TargetInjective(p: string, q: string, from: string, to: string)
    requires from <= p && from <= q && p != q
    ensures Target(p, from, to) != Target(q, from, to)
  {
    var a, b := p[|from|..], q[|from|..];
    assert p == from + a && q == from + b;
    assert (to + a)[|to|..] == a && (to + b)[|to|..] == b;
  }

  // ---- directories side by side ----------------------------------------------------------------

  predicate PlainDir(d: string) {
    d != "" && d[|d| - 1] != '/'
  }

  /** Neither directory is the other or lies in it. */
  predicate Incomparable(a: string, b: string) {
    PlainDir(a) && PlainDir(b) && a != b && !(a + "/" <= b) && !(b + "/" <= a)
  }

  lemma Nested(a: string, b: string, p: string)
    requires PlainDir(a) && PlainDir(b) && InSubtree(p, a) && InSubtree(p, b) && |a| <= |b|
    ensures a == b || a + "/" <= b
  {
    assert a == p[..|a|] && b == p[..|b|];
    if |a| < |b| {
      assert (a + "/")[|a|] == p[|a|];
    }
  }

  /** Subtrees of incomparable directories do not meet. */
  lemma SubtreesApart(a: string, b: string, p: string)
    requires Incomparable(a, b) && InSubtree(p, a)
    ensures !InSubtree(p, b)
  {
    if InSubtree(p, b) {
      if |a| <= |b| {
        Nested(a, b, p);
      } else {
        Nested(b, a, p);
      }
    }
  }

  lemma TargetInSubtree(p: string, from: string, to: string)
    requires PlainDir(from) && PlainDir(to) && InSubtree(p, from)
    ensures |from| <= |p| && InSubtree(Target(p, from, to), to)
  {
    if p == from {
      assert Target(p, from, to) == to;
    } else {
      assert p[|from|] == '/';
      assert Scan(to) <= Target(p, from, to);
    }
  }

  lemma SubtreeStarts(p: string, from: string)
    requires InSubtree(p, from)
    ensures from <= p
  {}

  /** The path that a path of the new subtree comes from. */
  function Origin(q: string, from: string, to: string): string
    requires |to| <= |q|
  {
    Target(q, to, from)
  }

  /** What a path of the new subtree shows afterwards. */
  function Arrived(t: Wt, from: string, to: string, q: string): Option<Entry>
    requires |to| <= |q|
  {
    if t.LookupRaw(Origin(q, from, to)).Some? then t.Lookup(Origin(q, from, to)) else t.Lookup(q)
  }

  lemma IncomparableApart(todo: seq<(string, Entry)>, t: Wt, from: string, to: string)
    requires Incomparable(from, to) && ListsSubtree(todo, t, from)
    ensures Apart(todo, from, to)
  {
    forall i, j | 0 <= i < |todo| && 0 <= j < |todo| ensures todo[i].0 != Target(todo[j].0, from, to) {
      TargetInSubtree(todo[j].0, from, to);
      SubtreesApart(from, to, todo[i].0);
    }
  }

  /**
   * Renaming a directory to an incomparable one, on the flat map: the old subtree is
   * gone, each path of the new subtree shows what the path it comes from was known
   * to be (and otherwise what it showed before), and every other path is untouched.
   */
  lemma RenameDirMovesSubtree(t: Wt, todo: seq<(string, Entry)>, from: string, to: string, q: string)
    requires Incomparable(from, to) && ListsSubtree(todo, t, from)
    ensures InSubtree(q, from) ==> MoveAll(t, todo, from, to).Lookup(q) == None
    ensures InSubtree(q, to) ==> |to| <= |q| && MoveAll(t, todo, from, to).Lookup(q) == Arrived(t, from, to, q)
    ensures !InSubtree(q, from) && !InSubtree(q, to) ==> MoveAll(t, todo, from, to).Lookup(q) == t.Lookup(q)
  {
    IncomparableApart(todo, t, from, to);
    if InSubtree(q, from) {
      SubtreesApart(from, to, q);
      OldSubtreeGone(t, todo, from, to, q);
    } else if InSubtree(q, to) {
      NewSubtreeFilled(t, todo, from, to, q);
    } else {
      forall i | 0 <= i < |todo| ensures q != todo[i].0 && q != Target(todo[i].0, from, to) {
        TargetInSubtree(todo[i].0, from, to);
      }
      MoveAllElsewhere(t, todo, from, to, q);
    }
  }

  lemma OldSubtreeGone(t: Wt, todo: seq<(string, Entry)>, from: string, to: string, q: string)
    requires Incomparable(from, to) && ListsSubtree(todo, t, from) && Apart(todo, from, to) && InSubtree(q, from)
    ensures MoveAll(t, todo, from, to).Lookup(q) == None
  {
    if q in t.Known() {
      var k :| 0 <= k < |todo| && todo[k].0 == q;
      MoveAllSource(t, todo, from, to, k);
    } else {
      forall i | 0 <= i < |todo| ensures q != todo[i].0 && q != Target(todo[i].0, from, to) {
        TargetInSubtree(todo[i].0, from, to);
        SubtreesApart(from, to, q);
      }
      MoveAllElsewhere(t, todo, from, to, q);
    }
  }

  lemma OriginInverts(q: string, from: string, to: string)
    requires PlainDir(from) && PlainDir(to) && InSubtree(q, to)
    ensures |to| <= |q| && InSubtree(Origin(q, from, to), from) && Target(Origin(q, from, to), from, to) == q
  {
    TargetInSubtree(q, to, from);
    SubtreeStarts(q, to);
    assert q == to + q[|to|..];
    assert Origin(q, from, to)[|from|..] == q[|to|..];
  }

  lemma NewSubtreeFilled(t: Wt, todo: seq<(string, Entry)>, from: string, to: string, q: string)
    requires Incomparable(from, to) && ListsSubtree(todo, t, from) && Apart(todo, from, to) && InSubtree(q, to)
    ensures |to| <= |q| && MoveAll(t, todo, from, to).Lookup(q) == Arrived(t, from, to, q)
  {
    OriginInverts(q, from, to);
    var p := Origin(q, from, to);
    if t.LookupRaw(p).Some? {
      assert p in t.Known();
      var k :| 0 <= k < |todo| && todo[k].0 == p;
      MoveAllTarget(t, todo, from, to, k);
    } else {
      forall i | 0 <= i < |todo| ensures q != todo[i].0 && q != Target(todo[i].0, from, to) {
        if q == Target(todo[i].0, from, to) {
          SameTarget(p, todo[i].0, from, to);
        }
        SubtreesApart(from, to, todo[i].0);
      }
      MoveAllElsewhere(t, todo, from, to, q);
    }
  }

  lemma SameTarget(p: string, p': string, from: string, to: string)
    requires from <= p && from <= p' && Target(p, from, to) == Target(p', from, to)
    ensures p == p'
  {
    if p != p' {
      TargetInjective(p, p', from, to);
    }
  }

  /** Onto a target without live descendants, exactly the live subtree moves. */
  lemma RenameDirOntoNothing(t: Wt, todo: seq<(string, Entry)>, from: string, to: string, q: string)
    requires Incomparable(from, to) && ListsSubtree(todo, t, from)
    requires forall p | p in t.Known() && InSubtree(p, to) && p != to :: t.Lookup(p).None?
    requires t.Lookup(from).Some?
    ensures MoveAll(t, todo, from, to).Lookup(q) ==
      if InSubtree(q, from) then None
      else if InSubtree(q, to) && |to| <= |q| then t.Lookup(Origin(q, from, to))
      else t.Lookup(q)
  {
    RenameDirMovesSubtree(t, todo, from, to, q);
    if InSubtree(q, from) {
      SubtreesApart(from, to, q);
    } else if InSubtree(q, to) {
      OriginInverts(q, from, to);
      if q == to {
        assert Origin(q, from, to) == from;
      }
    }
  }
}
