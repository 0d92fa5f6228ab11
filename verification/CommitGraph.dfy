/**
 * Ancestors and merge bases on the commit graph (src/cas/branch_merge.cpp).  A graph
 * maps each readable commit to its parents; a hash outside it cannot be read.
 */
module CommitGraph {
  import opened CasTypes

  type Graph = map<Hash, seq<Hash>>

  // ---- reachability --------------------------------------------------------------------

  ghost predicate IsPath(g: Graph, p: seq<Hash>) {
    p != [] && forall i :: 0 <= i < |p| - 1 ==> p[i] in g && p[i + 1] in g[p[i]]
  }

  ghost predicate PathBetween(g: Graph, p: seq<Hash>, descendant: Hash, ancestor: Hash) {
    IsPath(g, p) && p[0] == descendant && p[|p| - 1] == ancestor
  }

  /** A commit counts as its own ancestor. */
  ghost predicate Ancestor(g: Graph, ancestor: Hash, descendant: Hash) {
    exists p :: PathBetween(g, p, descendant, ancestor)
  }

  ghost predicate Readable(g: Graph, start: Hash) {
    forall h | Ancestor(g, h, start) :: h in g
  }

  /** Parents come earlier: the graph has no cycle. */
  ghost predicate Acyclic(g: Graph, rank: Hash -> nat) {
    forall h, p | h in g && p in g[h] :: rank(p) < rank(h)
  }

  lemma AncestorOfSelf(g: Graph, h: Hash)
    ensures Ancestor(g, h, h)
  {
    assert PathBetween(g, [h], h, h);
  }

  lemma AncestorStep(g: Graph, descendant: Hash, h: Hash, parent: Hash)
    requires Ancestor(g, h, descendant) && h in g && parent in g[h]
    ensures Ancestor(g, parent, descendant)
  {
    var p :| PathBetween(g, p, descendant, h);
    assert PathBetween(g, p + [parent], descendant, parent);
  }

  lemma AncestorTrans(g: Graph, a: Hash, b: Hash, c: Hash)
    requires Ancestor(g, a, b) && Ancestor(g, b, c)
    ensures Ancestor(g, a, c)
  {
    var p :| PathBetween(g, p, b, a);
    var q :| PathBetween(g, q, c, b);
    var r := q + p[1..];
    forall i | 0 <= i < |r| - 1 ensures r[i] in g && r[i + 1] in g[r[i]] {
      if i >= |q| - 1 {
        assert r[i] == p[i - (|q| - 1)] && r[i + 1] == p[i + 1 - (|q| - 1)];
      }
    }
    assert PathBetween(g, r, c, a);
  }

  /** A set closed under parents that holds the descendant holds every ancestor. */
  lemma {:induction false} PathStaysInside(g: Graph, p: seq<Hash>, s: set<Hash>)
    requires IsPath(g, p) && p[0] in s
    requires forall h, q | h in s && h in g && q in g[h] :: q in s
    ensures p[|p| - 1] in s
    decreases |p|
  {
    if |p| > 1 {
      assert p[0] in g && p[1] in g[p[0]];
      PathStaysInside(g, p[1..], s);
    }
  }

  lemma {:induction false} PathDescends(g: Graph, rank: Hash -> nat, p: seq<Hash>)
    requires IsPath(g, p) && Acyclic(g, rank)
    ensures |p| > 1 ==> rank(p[|p| - 1]) < rank(p[0])
    decreases |p|
  {
    if |p| > 1 {
      assert p[0] in g && p[1] in g[p[0]];
      PathDescends(g, rank, p[1..]);
    }
  }

  lemma AncestorsAreEarlier(g: Graph, rank: Hash -> nat, a: Hash, b: Hash)
    requires Acyclic(g, rank) && Ancestor(g, a, b)
    ensures a == b || rank(a) < rank(b)
  {
    var p :| PathBetween(g, p, b, a);
    PathDescends(g, rank, p);
  }

  lemma ReadableBelow(g: Graph, a: Hash, b: Hash)
    requires Readable(g, b) && Ancestor(g, a, b)
    ensures Readable(g, a)
  {
    forall h | Ancestor(g, h, a) ensures h in g {
      AncestorTrans(g, h, a, b);
    }
  }

  // ---- breadth first ---------------------------------------------------------------------

  /** What a breadth-first walk has done so far. */
  ghost predicate Frontier(g: Graph, start: Hash, seen: set<Hash>, q: seq<Hash>) {
    && (start in seen || start in q)
    && (forall h | h in seen :: h in g && Ancestor(g, h, start))
    && (forall h | h in q :: Ancestor(g, h, start))
    && (forall h, p | h in seen && p in g[h] :: p in seen || p in q)
  }

  lemma VisitNew(g: Graph, start: Hash, seen: set<Hash>, q: seq<Hash>)
    requires Frontier(g, start, seen, q) && q != [] && q[0] in g
    ensures Frontier(g, start, seen + {q[0]}, q[1..] + g[q[0]])
  {
    var h, q' := q[0], q[1..] + g[q[0]];
    assert q == [h] + q[1..];
    forall x | x in q' ensures Ancestor(g, x, start) {
      if x in g[h] {
        AncestorStep(g, start, h, x);
      }
    }
    forall x ensures x in q' <==> x in q[1..] || x in g[h] {}
  }

  lemma VisitOld(g: Graph, start: Hash, seen: set<Hash>, q: seq<Hash>)
    requires Frontier(g, start, seen, q) && q != [] && q[0] in seen
    ensures Frontier(g, start, seen, q[1..])
  {
    assert q == [q[0]] + q[1..];
  }

  lemma WalkDone(g: Graph, start: Hash, seen: set<Hash>)
    requires Frontier(g, start, seen, [])
    ensures forall h :: h in seen <==> Ancestor(g, h, start)
    ensures Readable(g, start)
  {
    forall h | Ancestor(g, h, start) ensures h in seen {
      var p :| PathBetween(g, p, start, h);
      PathStaysInside(g, p, seen);
    }
  }

  /** Succeeds exactly when every ancestor can be read, and finds exactly the ancestors. */
  method CollectAncestors(g: Graph, start: Hash) returns (ok: bool, ancestors: set<Hash>)
    ensures ok <==> Readable(g, start)
    ensures ok ==> forall h :: h in ancestors <==> Ancestor(g, h, start)
  {
    ancestors := {};
    var q := [start];
    AncestorOfSelf(g, start);
    while q != []
      invariant Frontier(g, start, ancestors, q)
      decreases g.Keys - ancestors, |q|
    {
      var h := q[0];
      if h in ancestors {
        VisitOld(g, start, ancestors, q);
        q := q[1..];
      } else {
        if h !in g {
          return false, ancestors;
        }
        VisitNew(g, start, ancestors, q);
        ancestors := ancestors + {h};
        q := q[1..] + g[h];
      }
    }
    WalkDone(g, start, ancestors);
    ok := true;
  }

  /** Answers no as well when the walk meets a commit that cannot be read. */
  method IsAncestorOf(g: Graph, candidate: Hash, descendant: Hash) returns (found: bool)
    ensures found ==> Ancestor(g, candidate, descendant)
    ensures Readable(g, descendant) ==> (found <==> Ancestor(g, candidate, descendant))
  {
    var seen: set<Hash> := {};
    var q := [descendant];
    AncestorOfSelf(g, descendant);
    while q != []
      invariant Frontier(g, descendant, seen, q) && candidate !in seen
      decreases g.Keys - seen, |q|
    {
      var h := q[0];
      if h in seen {
        VisitOld(g, descendant, seen, q);
        q := q[1..];
      } else {
        if h == candidate {
          return true;
        }
        if h !in g {
          return false;
        }
        VisitNew(g, descendant, seen, q);
        seen := seen + {h};
        q := q[1..] + g[h];
      }
    }
    WalkDone(g, descendant, seen);
    found := false;
  }

  // ---- merge bases -------------------------------------------------------------------------

  ghost predicate Common(g: Graph, a: Hash, b: Hash, c: Hash) {
    Ancestor(g, c, a) && Ancestor(g, c, b)
  }

  /** A common ancestor that no other common ancestor descends from. */
  ghost predicate MergeBase(g: Graph, a: Hash, b: Hash, c: Hash) {
    Common(g, a, b, c) && forall d | Common(g, a, b, d) && d != c :: !Ancestor(g, c, d)
  }

  /** The order of hex strings is the order of the bytes. */
  predicate BytesLess(a: seq<byte>, b: seq<byte>)
    requires |a| == |b|
  {
    if a == [] then false else a[0] < b[0] || (a[0] == b[0] && BytesLess(a[1..], b[1..]))
  }

  predicate HashLess(a: Hash, b: Hash) {
    BytesLess(a.bytes, b.bytes)
  }

  lemma {:induction false} BytesTotal(a: seq<byte>, b: seq<byte>)
    requires |a| == |b|
    ensures (BytesLess(a, b) || a == b || BytesLess(b, a)) && !(BytesLess(a, b) && BytesLess(b, a))
  {
    if a != [] {
      BytesTotal(a[1..], b[1..]);
      assert a == [a[0]] + a[1..] && b == [b[0]] + b[1..];
    }
  }

  lemma {:induction false} BytesTrans(a: seq<byte>, b: seq<byte>, c: seq<byte>)
    requires |a| == |b| == |c| && BytesLess(a, b) && BytesLess(b, c)
    ensures BytesLess(a, c)
  {
    if a[0] == b[0] && b[0] == c[0] {
      BytesTrans(a[1..], b[1..], c[1..]);
    }
  }

  /** The answer: of several merge bases the one with the lowest hash. */
  ghost predicate Chosen(g: Graph, a: Hash, b: Hash, c: Hash) {
    MergeBase(g, a, b, c) && forall d | MergeBase(g, a, b, d) :: !HashLess(d, c)
  }

  lemma ChosenIsUnique(g: Graph, a: Hash, b: Hash, c: Hash, c': Hash)
    requires Chosen(g, a, b, c) && Chosen(g, a, b, c')
    ensures c == c'
  {
    BytesTotal(c.bytes, c'.bytes);
  }

  /** The arguments' order does not matter. */
  lemma ChosenIsSymmetric(g: Graph, a: Hash, b: Hash, c: Hash)
    ensures Chosen(g, a, b, c) <==> Chosen(g, b, a, c)
  {
    forall d ensures Common(g, a, b, d) <==> Common(g, b, a, d) {}
    forall d ensures MergeBase(g, a, b, d) <==> MergeBase(g, b, a, d) {}
  }

  /** A commit that is an ancestor of the other is the answer. */
  lemma ChosenOfAncestor(g: Graph, rank: Hash -> nat, a: Hash, b: Hash)
    requires Acyclic(g, rank) && Ancestor(g, a, b)
    ensures Chosen(g, a, b, a)
  {
    AncestorOfSelf(g, a);
    forall d | Common(g, a, b, d) && d != a ensures !Ancestor(g, a, d) {
      AncestorsAreEarlier(g, rank, d, a);
      if Ancestor(g, a, d) {
        AncestorsAreEarlier(g, rank, a, d);
      }
    }
    forall d | MergeBase(g, a, b, d) ensures d == a {
      if d != a {
        assert Common(g, a, b, a);
      }
    }
    BytesTotal(a.bytes, a.bytes);
  }

  /** On an acyclic graph some candidate is never superseded: the latest one. */
  lemma LatestIsMergeBase(g: Graph, rank: Hash -> nat, a: Hash, b: Hash, candidates: set<Hash>, latest: Hash)
    requires Acyclic(g, rank) && (forall c :: c in candidates <==> Common(g, a, b, c))
    requires latest in candidates && forall c | c in candidates :: rank(c) <= rank(latest)
    ensures MergeBase(g, a, b, latest)
  {
    forall d | Common(g, a, b, d) && d != latest ensures !Ancestor(g, latest, d) {
      if Ancestor(g, latest, d) {
        AncestorsAreEarlier(g, rank, latest, d);
      }
    }
  }

  lemma {:induction false} LatestExists(s: set<Hash>, rank: Hash -> nat) returns (latest: Hash)
    requires s != {}
    ensures latest in s && forall c | c in s :: rank(c) <= rank(latest)
    decreases s
  {
    latest :| latest in s;
    if s - {latest} != {} {
      var other := LatestExists(s - {latest}, rank);
      if rank(latest) < rank(other) {
        latest := other;
      }
    }
  }

  method Superseded(g: Graph, a: Hash, b: Hash, candidates: set<Hash>, candidate: Hash) returns (yes: bool)
    requires Readable(g, a) && (forall c :: c in candidates <==> Common(g, a, b, c)) && candidate in candidates
    ensures !yes <==> MergeBase(g, a, b, candidate)
  {
    var rest := candidates;
    yes := false;
    while rest != {}
      invariant rest <= candidates
      invariant forall d | d in candidates - rest && d != candidate :: !Ancestor(g, candidate, d)
      decreases rest
    {
      var other :| other in rest;
      rest := rest - {other};
      if candidate != other {
        ReadableBelow(g, other, a);
        yes := IsAncestorOf(g, candidate, other);
        if yes {
          return;
        }
      }
    }
  }

  /**
   * Succeeds exactly when both histories can be read and share a commit, and then
   * answers with the chosen merge base.  Content hashes make real graphs acyclic.
   */
  method FindCommonAncestor(g: Graph, first: Hash, second: Hash, ghost rank: Hash -> nat) returns (common: Option<Hash>)
    requires Acyclic(g, rank)
    ensures common.Some? <==> first != ZERO_HASH && second != ZERO_HASH && Readable(g, first) && Readable(g, second) && exists c :: Common(g, first, second, c)
    ensures common.Some? ==> Chosen(g, first, second, common.value)
  {
    if first == ZERO_HASH || second == ZERO_HASH {
      return None;
    }
    var ok, firstAncestors := CollectAncestors(g, first);
    if !ok {
      return None;
    }
    var secondAncestors;
    ok, secondAncestors := CollectAncestors(g, second);
    if !ok {
      return None;
    }
    var candidates := firstAncestors * secondAncestors;
    assert forall c :: c in candidates <==> Common(g, first, second, c);
    if candidates == {} {
      return None;
    }
    ghost var latest := LatestExists(candidates, rank);
    LatestIsMergeBase(g, rank, first, second, candidates, latest);
    var best := PickLowest(g, first, second, candidates);
    common := Some(best);
  }

  /** Sorting the merge bases and taking the front one. */
  method PickLowest(g: Graph, a: Hash, b: Hash, candidates: set<Hash>) returns (best: Hash)
    requires Readable(g, a) && (forall c :: c in candidates <==> Common(g, a, b, c))
    requires exists c :: c in candidates && MergeBase(g, a, b, c)
    ensures Chosen(g, a, b, best)
  {
    var rest := candidates;
    var found: Option<Hash> := None;
    while rest != {}
      invariant rest <= candidates
      invariant found.Some? ==> MergeBase(g, a, b, found.value)
      invariant forall c | c in candidates - rest && MergeBase(g, a, b, c) :: found.Some? && !HashLess(c, found.value)
      decreases rest
    {
      var c :| c in rest;
      rest := rest - {c};
      var yes := Superseded(g, a, b, candidates, c);
      if !yes && (found.None? || HashLess(c, found.value)) {
        LowerStillLowest(g, a, b, candidates - rest - {c}, c, found);
        found := Some(c);
      }
    }
    best := found.value;
  }

  lemma LowerStillLowest(g: Graph, a: Hash, b: Hash, done: set<Hash>, c: Hash, found: Option<Hash>)
    requires forall x | x in done && MergeBase(g, a, b, x) :: found.Some? && !HashLess(x, found.value)
    requires found.Some? ==> HashLess(c, found.value)
    ensures forall x | x in done + {c} && MergeBase(g, a, b, x) :: !HashLess(x, c)
  {
    BytesTotal(c.bytes, c.bytes);
    forall x | x in done && MergeBase(g, a, b, x) ensures !HashLess(x, c) {
      if HashLess(x, c) {
        BytesTrans(x.bytes, c.bytes, found.value.bytes);
      }
    }
  }
}
