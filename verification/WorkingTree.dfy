/**
 * The working tree as the object whose layers its methods update
 * (src/cas/working_tree.cpp).  The base layer is one immutable object that clones share.
 */
module WorkingTree {
  import opened CasTypes
  import opened OrderedMap
  import opened Sequences
  import Spec = WorkingTreeSpec

  /** What `shared_ptr<const EntryMap>` points to. */
  class BaseMap {
    const entries: Ordered<Entry>

    constructor (entries: Ordered<Entry>)
      ensures this.entries == entries
    {
      this.entries := entries;
    }
  }

  // ---- two-cursor walks ---------------------------------------------------------------

  /** The entries a two-cursor walk visits; on equal keys the delta wins. */
  function MergeEntries(b: seq<string>, d: seq<string>, t: Spec.Wt): seq<(string, Entry)>
    requires (forall k | k in b :: k in t.base) && (forall k | k in d :: k in t.delta)
    decreases |b| + |d|
  {
    if b == [] && d == [] then []
    else if b == [] then [(d[0], t.delta[d[0]])] + MergeEntries(b, d[1..], t)
    else if d == [] then [(b[0], t.base[b[0]])] + MergeEntries(b[1..], d, t)
    else if Less(d[0], b[0]) then [(d[0], t.delta[d[0]])] + MergeEntries(b, d[1..], t)
    else if Less(b[0], d[0]) then [(b[0], t.base[b[0]])] + MergeEntries(b[1..], d, t)
    else [(d[0], t.delta[d[0]])] + MergeEntries(b[1..], d[1..], t)
  }

  ghost predicate Layers(b: seq<string>, d: seq<string>, t: Spec.Wt) {
    (forall k | k in b :: k in t.base) && (forall k | k in d :: k in t.delta)
  }

  lemma TakeDelta(b: seq<string>, d: seq<string>, i: nat, j: nat, m: nat, n: nat, t: Spec.Wt)
    requires Layers(b, d, t) && i <= m <= |b| && j < n <= |d| && (i == m || Less(d[j], b[i]))
    ensures MergeEntries(b[i..m], d[j..n], t) == [(d[j], t.delta[d[j]])] + MergeEntries(b[i..m], d[j + 1..n], t)
  {
    assert d[j..n][1..] == d[j + 1..n];
  }

  lemma TakeBase(b: seq<string>, d: seq<string>, i: nat, j: nat, m: nat, n: nat, t: Spec.Wt)
    requires Layers(b, d, t) && i < m <= |b| && j <= n <= |d| && (j == n || (!Less(d[j], b[i]) && Less(b[i], d[j])))
    ensures MergeEntries(b[i..m], d[j..n], t) == [(b[i], t.base[b[i]])] + MergeEntries(b[i + 1..m], d[j..n], t)
  {
    assert b[i..m][1..] == b[i + 1..m];
  }

  lemma TakeBoth(b: seq<string>, d: seq<string>, i: nat, j: nat, m: nat, n: nat, t: Spec.Wt)
    requires Layers(b, d, t) && i < m <= |b| && j < n <= |d| && !Less(d[j], b[i]) && !Less(b[i], d[j])
    ensures MergeEntries(b[i..m], d[j..n], t) == [(d[j], t.delta[d[j]])] + MergeEntries(b[i + 1..m], d[j + 1..n], t)
  {
    assert b[i..m][1..] == b[i + 1..m];
    assert d[j..n][1..] == d[j + 1..n];
  }

  /** One turn of a two-cursor walk; m and n are where the layers' ranges end. */
  method NextVisit(b: Ordered<Entry>, d: Ordered<Entry>, i: nat, j: nat, bOk: bool, dOk: bool,
                   ghost m: nat, ghost n: nat, ghost t: Spec.Wt)
    returns (e: (string, Entry), i': nat, j': nat)
    requires b.Valid() && d.Valid() && t.base == b.at && t.delta == d.at && Layers(b.keys, d.keys, t)
    requires i <= m <= |b.keys| && j <= n <= |d.keys| && (bOk <==> i < m) && (dOk <==> j < n) && (bOk || dOk)
    ensures i <= i' <= m && j <= j' <= n && i + j < i' + j'
    ensures (bOk && e.0 == b.keys[i]) || (dOk && e.0 == d.keys[j])
    ensures MergeEntries(b.keys[i..m], d.keys[j..n], t) == [e] + MergeEntries(b.keys[i'..m], d.keys[j'..n], t)
  {
    if dOk && (!bOk || Less(d.keys[j], b.keys[i])) {
      TakeDelta(b.keys, d.keys, i, j, m, n, t);
      e, i', j' := (d.keys[j], d.at[d.keys[j]]), i, j + 1;
    } else if bOk && (!dOk || Less(b.keys[i], d.keys[j])) {
      TakeBase(b.keys, d.keys, i, j, m, n, t);
      e, i', j' := (b.keys[i], b.at[b.keys[i]]), i + 1, j;
    } else {
      TakeBoth(b.keys, d.keys, i, j, m, n, t);
      e, i', j' := (d.keys[j], d.at[d.keys[j]]), i + 1, j + 1;
    }
  }

  function PathsOf(es: seq<(string, Entry)>): seq<string> {
    seq(|es|, i requires 0 <= i < |es| => es[i].0)
  }

  lemma {:induction false} MergeVisits(b: seq<string>, d: seq<string>, t: Spec.Wt)
    requires (forall k | k in b :: k in t.base) && (forall k | k in d :: k in t.delta)
    ensures PathsOf(MergeEntries(b, d, t)) == Merge(b, d)
    decreases |b| + |d|
  {
    if b == [] && d == [] {
    } else if b == [] {
      MergeVisits(b, d[1..], t);
      assert Merge(b, d[1..]) == d[1..];
    } else if d == [] {
      MergeVisits(b[1..], d, t);
      assert Merge(b[1..], d) == b[1..];
    } else if Less(d[0], b[0]) {
      MergeVisits(b, d[1..], t);
    } else if Less(b[0], d[0]) {
      MergeVisits(b[1..], d, t);
    } else {
      MergeVisits(b[1..], d[1..], t);
    }
  }

  /** Every visited entry is the one a lookup would find. */
  lemma {:induction false} MergeShadows(b: seq<string>, d: seq<string>, t: Spec.Wt)
    requires (forall k | k in b :: k in t.base) && (forall k | k in d :: k in t.delta)
    requires Sorted(b) && Sorted(d) && (forall k | k in b && k in t.delta :: k in d)
    ensures forall e | e in MergeEntries(b, d, t) :: t.LookupRaw(e.0) == Some(e.1)
    decreases |b| + |d|
  {
    if b == [] && d == [] {
    } else if b == [] {
      MergeShadows(b, d[1..], t);
    } else if d == [] {
      MergeShadows(b[1..], d, t);
    } else if Less(d[0], b[0]) {
      RestStays(b, d, t, b);
      MergeShadows(b, d[1..], t);
    } else if Less(b[0], d[0]) {
      HeadFirst(b[0], d);
      assert b[0] !in d by { NotAmong(b[0], d); }
      MergeShadows(b[1..], d, t);
    } else {
      LessTrichotomy(b[0], d[0]);
      RestStays(b, d, t, b[1..]);
      MergeShadows(b[1..], d[1..], t);
    }
  }

  lemma NotAmong(x: string, keys: seq<string>)
    requires AllAfter(x, keys)
    ensures x !in keys
  {
    if x in keys {
      var i :| 0 <= i < |keys| && keys[i] == x;
      LessTrichotomy(x, keys[i]);
    }
  }

  /** Passing the first delta key loses none that the remaining base keys need. */
  lemma RestStays(b: seq<string>, d: seq<string>, t: Spec.Wt, rest: seq<string>)
    requires Sorted(b) && d != [] && (forall k | k in b && k in t.delta :: k in d)
    requires (forall k | k in rest :: k in b)
    requires (rest == b && b != [] && Less(d[0], b[0])) || (b != [] && rest == b[1..] && b[0] == d[0])
    ensures forall k | k in rest && k in t.delta :: k in d[1..]
  {
    forall k | k in rest && k in t.delta ensures k in d[1..] {
      if rest == b {
        HeadFirst(d[0], b);
        NotAmong(d[0], b);
      } else {
        HeadFirst(b[0], b[1..]);
        NotAmong(b[0], b[1..]);
      }
      assert d == [d[0]] + d[1..];
    }
  }

  /** A listing is in path order, without duplicates, and exact. */
  ghost predicate Lists(es: seq<(string, Entry)>, t: Spec.Wt, prefix: string, flat: bool, whiteouts: bool) {
    && Sorted(PathsOf(es))
    && (forall p, e :: (p, e) in es <==> t.LookupRaw(p) == Some(e) && Wanted(p, e, prefix, flat, whiteouts))
  }

  /** flat asks for direct children only. */
  predicate Wanted(p: string, e: Entry, prefix: string, flat: bool, whiteouts: bool) {
    prefix <= p && (flat ==> '/' !in p[|prefix|..]) && (whiteouts || !e.kind.Deleted?)
  }

  lemma DistinctPaths(es: seq<(string, Entry)>, i: nat, j: nat)
    requires Sorted(PathsOf(es)) && i < j < |es|
    ensures es[i].0 != es[j].0
  {
    assert PathsOf(es)[i] == es[i].0 && PathsOf(es)[j] == es[j].0;
    LessTrichotomy(es[i].0, es[j].0);
  }

  function Filter(es: seq<(string, Entry)>, prefix: string, flat: bool, whiteouts: bool): seq<(string, Entry)> {
    if es == [] then []
    else if Wanted(es[0].0, es[0].1, prefix, flat, whiteouts) then [es[0]] + Filter(es[1..], prefix, flat, whiteouts)
    else Filter(es[1..], prefix, flat, whiteouts)
  }

  lemma {:induction false} FilterMembers(es: seq<(string, Entry)>, prefix: string, flat: bool, whiteouts: bool, x: (string, Entry))
    ensures x in Filter(es, prefix, flat, whiteouts) <==> x in es && Wanted(x.0, x.1, prefix, flat, whiteouts)
  {
    if es != [] {
      FilterMembers(es[1..], prefix, flat, whiteouts, x);
      assert x in es <==> x == es[0] || x in es[1..];
    }
  }

  lemma {:induction false} FilterSorted(es: seq<(string, Entry)>, prefix: string, flat: bool, whiteouts: bool)
    requires Sorted(PathsOf(es))
    ensures Sorted(PathsOf(Filter(es, prefix, flat, whiteouts)))
  {
    if es != [] {
      var rest := Filter(es[1..], prefix, flat, whiteouts);
      assert PathsOf(es[1..]) == PathsOf(es)[1..];
      FilterSorted(es[1..], prefix, flat, whiteouts);
      forall i | 0 <= i < |rest| ensures Less(es[0].0, rest[i].0) {
        FilterMembers(es[1..], prefix, flat, whiteouts, rest[i]);
        var j :| 0 <= j < |es[1..]| && es[1..][j] == rest[i];
        assert PathsOf(es)[0] == es[0].0 && PathsOf(es)[j + 1] == rest[i].0;
      }
      if Wanted(es[0].0, es[0].1, prefix, flat, whiteouts) {
        assert PathsOf([es[0]] + rest) == [es[0].0] + PathsOf(rest);
      }
    }
  }

  lemma FilterStep(es: seq<(string, Entry)>, e: (string, Entry), prefix: string, flat: bool, whiteouts: bool)
    requires es != [] && es[0] == e
    ensures Filter(es, prefix, flat, whiteouts) ==
            (if Wanted(e.0, e.1, prefix, flat, whiteouts) then [e] else []) + Filter(es[1..], prefix, flat, whiteouts)
  {}

  /** A walk over all keys with the prefix, filtered, is the listing. */
  lemma WalkLists(b: Ordered<Entry>, d: Ordered<Entry>, t: Spec.Wt, prefix: string, flat: bool, whiteouts: bool)
    requires b.Valid() && d.Valid() && t.base == b.at && t.delta == d.at
    ensures (forall k | k in PrefixRange(b.keys, prefix) :: k in t.base) && (forall k | k in PrefixRange(d.keys, prefix) :: k in t.delta)
    ensures Lists(Filter(MergeEntries(PrefixRange(b.keys, prefix), PrefixRange(d.keys, prefix), t), prefix, flat, whiteouts),
                  t, prefix, flat, whiteouts)
  {
    var rb, rd := PrefixRange(b.keys, prefix), PrefixRange(d.keys, prefix);
    PrefixRangeIsExact(b.keys, prefix);
    PrefixRangeIsExact(d.keys, prefix);
    var es := MergeEntries(rb, rd, t);
    MergeShadows(rb, rd, t);
    MergeVisits(rb, rd, t);
    MergeSorted(rb, rd);
    FilterSorted(es, prefix, flat, whiteouts);
    forall p, e ensures (p, e) in Filter(es, prefix, flat, whiteouts) <==>
                        t.LookupRaw(p) == Some(e) && Wanted(p, e, prefix, flat, whiteouts) {
      FilterMembers(es, prefix, flat, whiteouts, (p, e));
      if t.LookupRaw(p) == Some(e) && prefix <= p {
        VisitedOnce(rb, rd, t, p);
      }
    }
  }

  lemma VisitedOnce(b: seq<string>, d: seq<string>, t: Spec.Wt, p: string)
    requires (forall k | k in b :: k in t.base) && (forall k | k in d :: k in t.delta) && (p in b || p in d)
    requires forall e | e in MergeEntries(b, d, t) :: t.LookupRaw(e.0) == Some(e.1)
    ensures t.LookupRaw(p).Some? && (p, t.LookupRaw(p).value) in MergeEntries(b, d, t)
  {
    MergeVisits(b, d, t);
    MergeMembers(b, d, p);
    var es := MergeEntries(b, d, t);
    var i :| 0 <= i < |PathsOf(es)| && PathsOf(es)[i] == p;
    assert es[i] in es && es[i].0 == p;
  }

  /** Paths and how many there are. */
  lemma CountListed(es: seq<(string, Entry)>, t: Spec.Wt)
    requires Lists(es, t, "", false, false)
    ensures |es| == |LivePaths(t)|
  {
    DistinctCount(PathsOf(es));
    assert LivePaths(t) == (set p | p in PathsOf(es)) by {
      forall p ensures p in LivePaths(t) <==> p in PathsOf(es) {
        if p in LivePaths(t) {
          var e := t.Lookup(p).value;
          assert (p, e) in es;
          var i :| 0 <= i < |es| && es[i] == (p, e);
          assert PathsOf(es)[i] == p;
        }
        if p in PathsOf(es) {
          var i :| 0 <= i < |es| && PathsOf(es)[i] == p;
          assert es[i] == (p, es[i].1) && es[i] in es;
        }
      }
    }
  }

  function LivePaths(t: Spec.Wt): set<string> {
    set p | p in t.Known() && t.Lookup(p).Some?
  }

  lemma {:induction false} DistinctCount(keys: seq<string>)
    requires Sorted(keys)
    ensures |set k | k in keys| == |keys|
  {
    if keys != [] {
      var rest := keys[1..];
      DistinctCount(rest);
      HeadFirst(keys[0], rest);
      NotAmong(keys[0], rest);
      assert (set k | k in keys) == {keys[0]} + (set k | k in rest);
    }
  }

  // ---- the class ---------------------------------------------------------------------------

  class WorkingTree {
    var base: BaseMap?
    var delta: Ordered<Entry>
    var sourceOriginPaths: set<string>
    var baseAuthoritative: bool

    function BaseEntries(): Ordered<Entry>
      reads this
    {
      if base == null then Empty() else base.entries
    }

    ghost predicate Valid()
      reads this
    {
      BaseEntries().Valid() && delta.Valid()
    }

    ghost function V(): Spec.Wt
      reads this
    {
      Spec.Wt(BaseEntries().at, delta.at, sourceOriginPaths, baseAuthoritative)
    }

    constructor ()
      ensures Valid() && V() == Spec.Wt(map[], map[], {}, false)
    {
      base := null;
      delta := Empty();
      sourceOriginPaths := {};
      baseAuthoritative := false;
    }

    method LookupRaw(p: string) returns (r: Option<Entry>)
      requires Valid()
      ensures r == V().LookupRaw(p)
    {
      if delta.keys != [] {
        if p in delta.at {
          return Some(delta.at[p]);
        }
      }
      if base != null {
        if p in base.entries.at {
          return Some(base.entries.at[p]);
        }
      }
      assert delta.keys == [] ==> p !in delta.at;
      r := None;
    }

    method Lookup(p: string) returns (r: Option<Entry>)
      requires Valid()
      ensures r == V().Lookup(p)
    {
      r := LookupRaw(p);
      if r.None? || r.value.kind.Deleted? {
        r := None;
      }
    }

    method Insert(p: string, e: Entry)
      requires Valid()
      modifies this`delta
      ensures Valid() && V() == Spec.Insert(old(V()), p, e)
    {
      PutValid(delta, p, e);
      delta := Put(delta, p, e);
    }

    method InsertSource(p: string, e: Entry)
      requires Valid()
      modifies this`delta, this`sourceOriginPaths
      ensures Valid() && V() == Spec.InsertSource(old(V()), p, e)
    {
      Insert(p, e);
      if baseAuthoritative {
        sourceOriginPaths := sourceOriginPaths + {p};
      }
    }

    method Remove(p: string)
      requires Valid()
      modifies this`delta
      ensures Valid() && V() == Spec.Remove(old(V()), p)
    {
      if baseAuthoritative {
        var inBase := false;
        if base != null && p in base.entries.at {
          inBase := !base.entries.at[p].kind.Deleted?;
        }
        if !inBase && p !in sourceOriginPaths {
          EraseValid(delta, p);
          delta := Erase(delta, p);
          return;
        }
      }
      Insert(p, Entry(Deleted, ZERO_HASH, 0));
    }

    method RenameEntry(from: string, to: string)
      requires Valid()
      modifies this`delta
      ensures Valid() && V() == Spec.RenameEntry(old(V()), from, to)
    {
      var e := LookupRaw(from);
      if e.None? {
        return;
      }
      Remove(from);
      if e.value.kind.Deleted? {
        Remove(to);
      } else {
        Insert(to, e.value);
      }
    }

    // ---- listings ---------------------------------------------------------------------

    /** Both layers in one order; the callback's arguments are the result. */
    method MergedForEach() returns (visited: seq<(string, Entry)>)
      requires Valid()
      ensures Lists(visited, V(), "", false, true)
    {
      visited := WalkAll(BaseEntries(), delta, V());
      WholeWalk(BaseEntries(), delta, V(), visited);
    }

    /** Live entries only. */
    method ForEach() returns (visited: seq<(string, Entry)>)
      requires Valid()
      ensures Lists(visited, V(), "", false, false)
    {
      var all := MergedForEach();
      visited := [];
      for k := 0 to |all|
        invariant visited + Filter(all[k..], "", false, false) == Filter(all, "", false, false)
      {
        FilterStep(all[k..], all[k], "", false, false);
        if !all[k].1.kind.Deleted? {
          visited := visited + [all[k]];
        }
      }
      FilterSorted(all, "", false, false);
      assert visited == Filter(all, "", false, false);
      LiveAmongAll(all, V());
    }

    method Size() returns (count: nat)
      requires Valid()
      ensures count == |LivePaths(V())|
    {
      var live := ForEach();
      count := 0;
      for k := 0 to |live|
        invariant count == k
      {
        count := count + 1;
      }
      CountListed(live, V());
    }

    /** The live direct children of a directory, from the prefix range of each layer. */
    method ListDir(dir: string) returns (result: seq<(string, Entry)>)
      requires Valid()
      ensures Lists(result, V(), Spec.Scan(dir), true, false)
    {
      var prefix := if dir != "" && dir[|dir| - 1] != '/' then dir + "/" else dir;
      result := WalkRange(BaseEntries(), delta, prefix, V());
      WalkLists(BaseEntries(), delta, V(), prefix, true, false);
    }

    // ---- directories -------------------------------------------------------------------

    /** Moves the collected entries one by one, in path order. */
    method RenameDir(from: string, to: string) returns (ghost todo: seq<(string, Entry)>)
      requires Valid()
      modifies this`delta
      ensures Spec.ListsSubtree(todo, old(V()), from)
      ensures Valid() && V() == Spec.MoveAll(old(V()), todo, from, to)
    {
      var dir := LookupRaw(from);
      var toMove := CollectSubtree(BaseEntries(), delta, from, dir, V());
      todo := ItemsOf(toMove);
      MoveListed(toMove, from, to, todo);
    }

    method MoveListed(toMove: Ordered<Entry>, from: string, to: string, ghost todo: seq<(string, Entry)>)
      requires Valid() && (forall k | k in toMove.keys :: k in toMove.at) && todo == ItemsOf(toMove)
      requires forall i :: 0 <= i < |todo| ==> from <= todo[i].0
      modifies this`delta
      ensures Valid() && V() == Spec.MoveAll(old(V()), todo, from, to)
    {
      for k := 0 to |toMove.keys|
        invariant Valid()
        invariant Spec.MoveAll(V(), todo[k..], from, to) == Spec.MoveAll(old(V()), todo, from, to)
      {
        MoveAllStep(V(), todo, k, from, to);
        assert todo[k] == (toMove.keys[k], toMove.at[toMove.keys[k]]);
        MoveOne(toMove.keys[k], toMove.at[toMove.keys[k]], from, to);
      }
    }

    method MoveOne(path: string, entry: Entry, from: string, to: string)
      requires Valid() && from <= path
      modifies this`delta
      ensures Valid() && V() == Spec.Move(old(V()), path, entry, Spec.Target(path, from, to))
    {
      Remove(path);
      var newPath := if path == from then to else to + path[|from|..];
      assert newPath == Spec.Target(path, from, to);
      if entry.kind.Deleted? {
        Remove(newPath);
      } else {
        Insert(newPath, entry);
      }
    }

    // ---- layers ------------------------------------------------------------------------

    /** A clone shares the base object and copies the rest. */
    method Clone() returns (copy: WorkingTree)
      requires Valid()
      ensures fresh(copy) && copy.Valid() && copy.V() == V() && copy.base == base
    {
      copy := new WorkingTree();
      copy.base := base;
      copy.delta := delta;
      copy.sourceOriginPaths := sourceOriginPaths;
      copy.baseAuthoritative := baseAuthoritative;
    }

    method SetBase(entries: Ordered<Entry>)
      requires entries.Valid()
      modifies this
      ensures Valid() && V() == Spec.SetBase(entries.at) && fresh(base)
    {
      base := new BaseMap(entries);
      delta := Empty();
      sourceOriginPaths := {};
      baseAuthoritative := true;
    }

    method FoldIntoBase()
      requires Valid()
      modifies this
      ensures Valid() && V() == Spec.Fold(old(V())) && fresh(base)
    {
      if base == null || base.entries.keys == [] {
        assert BaseEntries().at == map[];
        base := new BaseMap(delta);
      } else {
        var merged := PutAll(base.entries, delta);
        base := new BaseMap(merged);
      }
      delta := Empty();
      sourceOriginPaths := {};
      baseAuthoritative := true;
    }

    method BeginSourceWalk()
      requires Valid()
      modifies this`baseAuthoritative
      ensures Valid() && V() == Spec.BeginSourceWalk(old(V()))
    {
      baseAuthoritative := false;
    }

    method Clear()
      modifies this
      ensures Valid() && V() == Spec.Wt(map[], map[], {}, false)
    {
      base := null;
      delta := Empty();
      sourceOriginPaths := {};
      baseAuthoritative := false;
    }
  }

  lemma MoveAllStep(t: Spec.Wt, todo: seq<(string, Entry)>, k: nat, from: string, to: string)
    requires k < |todo| && forall i :: 0 <= i < |todo| ==> from <= todo[i].0
    ensures Spec.MoveAll(t, todo[k..], from, to) ==
            Spec.MoveAll(Spec.Move(t, todo[k].0, todo[k].1, Spec.Target(todo[k].0, from, to)), todo[k + 1..], from, to)
  {
    assert todo[k..][1..] == todo[k + 1..];
  }

  function Taken(layer: Ordered<Entry>, ks: seq<string>): map<string, Entry> {
    map k | k in ks && k in layer.at :: layer.at[k]
  }

  lemma TakeNext(m: map<string, Entry>, layer: Ordered<Entry>, ks: seq<string>, k: string)
    requires k in layer.at
    ensures m + Taken(layer, ks + [k]) == (m + Taken(layer, ks))[k := layer.at[k]]
  {
    forall x ensures x in ks + [k] <==> x in ks || x == k {}
  }

  method PutKey(m: Ordered<Entry>, layer: Ordered<Entry>, key: string, ghost start: map<string, Entry>, ghost seen: seq<string>)
    returns (m': Ordered<Entry>)
    requires m.Valid() && key in layer.at && m.at == start + Taken(layer, seen)
    ensures m'.Valid() && m'.at == start + Taken(layer, seen + [key])
  {
    TakeNext(start, layer, seen, key);
    PutValid(m, key, layer.at[key]);
    m' := Put(m, key, layer.at[key]);
  }

  function Below(m: map<string, Entry>, scan: string): map<string, Entry> {
    map p | p in m && scan <= p :: m[p]
  }

  /** Every key from the lower bound up to i has the prefix. */
  ghost predicate Walked(keys: seq<string>, scan: string, i: nat) {
    LowerBound(keys, scan) <= i <= |keys| && forall x :: LowerBound(keys, scan) <= x < i ==> scan <= keys[x]
  }

  /** A walk from the lower bound that stops where the prefix ends has seen all keys below it. */
  lemma WalkedBelow(layer: Ordered<Entry>, scan: string, i: nat)
    requires layer.Valid() && Walked(layer.keys, scan, i) && !InPrefix(layer.keys, i, scan)
    ensures Taken(layer, layer.keys[LowerBound(layer.keys, scan)..i]) == Below(layer.at, scan)
  {
    var seen := layer.keys[LowerBound(layer.keys, scan)..i];
    forall p ensures p in seen <==> p in layer.at && scan <= p {
      SeenExactly(layer.keys, scan, i, p);
      assert p in layer.keys <==> p in layer.at;
    }
  }

  lemma SeenExactly(keys: seq<string>, scan: string, i: nat, p: string)
    requires Sorted(keys) && Walked(keys, scan, i) && !InPrefix(keys, i, scan)
    ensures p in keys[LowerBound(keys, scan)..i] <==> p in keys && scan <= p
  {
    var lo := LowerBound(keys, scan);
    if p in keys && scan <= p {
      var x :| 0 <= x < |keys| && keys[x] == p;
      WalkReaches(keys, scan, i, x);
      assert keys[lo..i][x - lo] == p;
    }
    if p in keys[lo..i] {
      var x :| 0 <= x < i - lo && keys[lo..i][x] == p;
      assert keys[lo + x] == p;
    }
  }

  lemma WalkReaches(keys: seq<string>, scan: string, i: nat, x: nat)
    requires Sorted(keys) && LowerBound(keys, scan) <= i <= |keys| && !InPrefix(keys, i, scan)
    requires x < |keys| && scan <= keys[x]
    ensures LowerBound(keys, scan) <= x < i
  {
    LowerBoundSplits(keys, scan);
    PrefixNotAfter(scan, keys[x]);
    if x > i {
      LessTrichotomy(keys[i], keys[x]);
      PrefixConvex(scan, keys[i], keys[x]);
    }
  }

  /** Adds a layer's entries below scan, overriding what is there. */
  method PutRange(m: Ordered<Entry>, layer: Ordered<Entry>, scan: string) returns (m': Ordered<Entry>)
    requires m.Valid() && layer.Valid()
    ensures m'.Valid() && m'.at == m.at + Below(layer.at, scan)
  {
    m' := m;
    var i: nat := LowerBound(layer.keys, scan);
    assert m.at + Taken(layer, layer.keys[i..i]) == m.at;
    while InPrefix(layer.keys, i, scan)
      invariant PutUpTo(m', m.at, layer, scan, i)
      decreases |layer.keys| - i
    {
      m' := PutHere(m', m.at, layer, scan, i);
      i := i + 1;
    }
    WalkedBelow(layer, scan, i);
  }

  ghost predicate PutUpTo(m: Ordered<Entry>, start: map<string, Entry>, layer: Ordered<Entry>, scan: string, i: nat) {
    && m.Valid() && layer.Valid() && Walked(layer.keys, scan, i)
    && m.at == start + Taken(layer, layer.keys[LowerBound(layer.keys, scan)..i])
  }

  method PutHere(m: Ordered<Entry>, ghost start: map<string, Entry>, layer: Ordered<Entry>, scan: string, i: nat)
    returns (m': Ordered<Entry>)
    requires PutUpTo(m, start, layer, scan, i) && InPrefix(layer.keys, i, scan)
    ensures PutUpTo(m', start, layer, scan, i + 1)
  {
    WalkOn(layer, scan, i);
    m' := PutKey(m, layer, layer.keys[i], start, layer.keys[LowerBound(layer.keys, scan)..i]);
  }

  lemma WalkOn(layer: Ordered<Entry>, scan: string, i: nat)
    requires layer.Valid() && Walked(layer.keys, scan, i) && InPrefix(layer.keys, i, scan)
    ensures layer.keys[i] in layer.at && Walked(layer.keys, scan, i + 1)
    ensures layer.keys[LowerBound(layer.keys, scan)..i + 1] == layer.keys[LowerBound(layer.keys, scan)..i] + [layer.keys[i]]
  {
    assert layer.keys[i] in layer.keys;
  }

  lemma TakenAll(layer: Ordered<Entry>)
    requires layer.Valid()
    ensures Taken(layer, layer.keys) == layer.at
  {}

  method PutAll(m: Ordered<Entry>, layer: Ordered<Entry>) returns (m': Ordered<Entry>)
    requires m.Valid() && layer.Valid()
    ensures m'.Valid() && m'.at == m.at + layer.at
  {
    m' := m;
    assert m.at + Taken(layer, layer.keys[..0]) == m.at;
    for k := 0 to |layer.keys|
      invariant m'.Valid() && m'.at == m.at + Taken(layer, layer.keys[..k])
    {
      assert layer.keys[k] in layer.keys;
      assert layer.keys[..k + 1] == layer.keys[..k] + [layer.keys[k]];
      m' := PutKey(m', layer, layer.keys[k], m.at, layer.keys[..k]);
    }
    assert layer.keys[..|layer.keys|] == layer.keys;
    TakenAll(layer);
  }

  /** Both layers' ranges, and the directory itself, are the subtree. */
  lemma CollectedSubtree(t: Spec.Wt, from: string, m: map<string, Entry>)
    requires var below := Below(t.base, Spec.Scan(from)) + Below(t.delta, Spec.Scan(from));
      m == if t.LookupRaw(from).Some? then below[from := t.LookupRaw(from).value] else below
    ensures forall p :: p in m <==> p in t.Known() && Spec.InSubtree(p, from)
    ensures forall p | p in m :: t.LookupRaw(p) == Some(m[p])
  {}

  /** The merged raw view of a subtree; whiteouts belong to it. */
  method CollectSubtree(b: Ordered<Entry>, d: Ordered<Entry>, from: string, dir: Option<Entry>, ghost t: Spec.Wt)
    returns (toMove: Ordered<Entry>)
    requires b.Valid() && d.Valid() && t.base == b.at && t.delta == d.at && dir == t.LookupRaw(from)
    ensures toMove.Valid() && Spec.ListsSubtree(ItemsOf(toMove), t, from)
  {
    var scan := if from != "" && from[|from| - 1] != '/' then from + "/" else from;
    toMove := PutRange(Empty(), b, scan);
    assert map[] + Below(t.base, scan) == Below(t.base, scan);
    toMove := PutRange(toMove, d, scan);
    if dir.Some? {
      PutValid(toMove, from, dir.value);
      toMove := Put(toMove, from, dir.value);
    }
    CollectedSubtree(t, from, toMove.at);
    SubtreeListed(toMove, t, from);
  }

  function ItemsOf(m: Ordered<Entry>): seq<(string, Entry)>
    requires forall k | k in m.keys :: k in m.at
  {
    seq(|m.keys|, i requires 0 <= i < |m.keys| => (m.keys[i], m.at[m.keys[i]]))
  }

  lemma SubtreeListed(m: Ordered<Entry>, t: Spec.Wt, from: string)
    requires m.Valid() && forall p :: p in m.at <==> p in t.Known() && Spec.InSubtree(p, from)
    requires forall p | p in m.at :: t.LookupRaw(p) == Some(m.at[p])
    ensures Spec.ListsSubtree(ItemsOf(m), t, from)
  {
    var todo := ItemsOf(m);
    forall i, j | 0 <= i < j < |todo| ensures todo[i].0 != todo[j].0 {
      LessTrichotomy(m.keys[i], m.keys[j]);
    }
    forall i | 0 <= i < |todo| ensures from <= todo[i].0 && Spec.InSubtree(todo[i].0, from) {
      assert m.keys[i] in m.at;
      Spec.SubtreeStarts(todo[i].0, from);
    }
    forall p | p in t.Known() && Spec.InSubtree(p, from) ensures exists i :: 0 <= i < |todo| && todo[i].0 == p {
      assert p in m.keys;
      var i :| 0 <= i < |m.keys| && m.keys[i] == p;
      assert todo[i].0 == p;
    }
  }

  /** A walk that has emitted `out` still has to emit what is left of the ranges. */
  ghost predicate WalkAt(b: Ordered<Entry>, d: Ordered<Entry>, t: Spec.Wt, i: nat, j: nat, m: nat, n: nat,
                         out: seq<(string, Entry)>, all: seq<(string, Entry)>)
  {
    && b.Valid() && d.Valid() && t.base == b.at && t.delta == d.at && Layers(b.keys, d.keys, t)
    && i <= m <= |b.keys| && j <= n <= |d.keys|
    && out + MergeEntries(b.keys[i..m], d.keys[j..n], t) == all
  }

  method WalkNext(b: Ordered<Entry>, d: Ordered<Entry>, i: nat, j: nat, out: seq<(string, Entry)>,
                  ghost t: Spec.Wt, ghost all: seq<(string, Entry)>)
    returns (i': nat, j': nat, out': seq<(string, Entry)>)
    requires WalkAt(b, d, t, i, j, |b.keys|, |d.keys|, out, all) && (i < |b.keys| || j < |d.keys|)
    ensures WalkAt(b, d, t, i', j', |b.keys|, |d.keys|, out', all) && i + j < i' + j'
  {
    var e;
    ghost var m, n := |b.keys|, |d.keys|;
    e, i', j' := NextVisit(b, d, i, j, i < |b.keys|, j < |d.keys|, m, n, t);
    out' := out + [e];
    Regroup(out, [e], MergeEntries(b.keys[i'..m], d.keys[j'..n], t));
  }

  method WalkAll(b: Ordered<Entry>, d: Ordered<Entry>, ghost t: Spec.Wt) returns (visited: seq<(string, Entry)>)
    requires b.Valid() && d.Valid() && t.base == b.at && t.delta == d.at && Layers(b.keys, d.keys, t)
    ensures visited == MergeEntries(b.keys, d.keys, t)
  {
    visited := [];
    var i: nat, j: nat := 0, 0;
    assert b.keys[..|b.keys|] == b.keys && d.keys[..|d.keys|] == d.keys;
    ghost var all := MergeEntries(b.keys, d.keys, t);
    while i < |b.keys| || j < |d.keys|
      invariant WalkAt(b, d, t, i, j, |b.keys|, |d.keys|, visited, all)
      decreases |b.keys| - i + |d.keys| - j
    {
      i, j, visited := WalkNext(b, d, i, j, visited, t, all);
    }
  }

  method WalkRange(b: Ordered<Entry>, d: Ordered<Entry>, prefix: string, ghost t: Spec.Wt) returns (result: seq<(string, Entry)>)
    requires b.Valid() && d.Valid() && t.base == b.at && t.delta == d.at && Layers(b.keys, d.keys, t)
    ensures Layers(PrefixRange(b.keys, prefix), PrefixRange(d.keys, prefix), t)
    ensures result == Filter(MergeEntries(PrefixRange(b.keys, prefix), PrefixRange(d.keys, prefix), t), prefix, true, false)
  {
    result := [];
    var i: nat, j: nat := LowerBound(b.keys, prefix), LowerBound(d.keys, prefix);
    RangeSlice(b.keys, prefix);
    RangeSlice(d.keys, prefix);
    ghost var all := Filter(MergeEntries(PrefixRange(b.keys, prefix), PrefixRange(d.keys, prefix), t), prefix, true, false);
    while InPrefix(b.keys, i, prefix) || InPrefix(d.keys, j, prefix)
      invariant RangeAt(b, d, t, prefix, i, j, result, all)
      decreases RangeEnd(b.keys, prefix) - i + RangeEnd(d.keys, prefix) - j
    {
      i, j, result := RangeNext(b, d, prefix, i, j, result, t, all);
    }
    RangeEnds(b.keys, prefix, i);
    RangeEnds(d.keys, prefix, j);
  }

  function RangeEnd(keys: seq<string>, prefix: string): nat {
    LowerBound(keys, prefix) + |PrefixRange(keys, prefix)|
  }

  lemma RangeSlice(keys: seq<string>, prefix: string)
    ensures RangeEnd(keys, prefix) <= |keys|
    ensures keys[LowerBound(keys, prefix)..RangeEnd(keys, prefix)] == PrefixRange(keys, prefix)
  {}

  /** A listing that has emitted `result` still has to emit what is left of the prefix ranges. */
  ghost predicate RangeAt(b: Ordered<Entry>, d: Ordered<Entry>, t: Spec.Wt, prefix: string, i: nat, j: nat,
                          result: seq<(string, Entry)>, all: seq<(string, Entry)>)
  {
    && b.Valid() && d.Valid() && t.base == b.at && t.delta == d.at && Layers(b.keys, d.keys, t)
    && LowerBound(b.keys, prefix) <= i <= RangeEnd(b.keys, prefix) <= |b.keys|
    && LowerBound(d.keys, prefix) <= j <= RangeEnd(d.keys, prefix) <= |d.keys|
    && result + Filter(MergeEntries(b.keys[i..RangeEnd(b.keys, prefix)], d.keys[j..RangeEnd(d.keys, prefix)], t), prefix, true, false) == all
  }

  method RangeNext(b: Ordered<Entry>, d: Ordered<Entry>, prefix: string, i: nat, j: nat, result: seq<(string, Entry)>,
                   ghost t: Spec.Wt, ghost all: seq<(string, Entry)>)
    returns (i': nat, j': nat, result': seq<(string, Entry)>)
    requires RangeAt(b, d, t, prefix, i, j, result, all)
    requires InPrefix(b.keys, i, prefix) || InPrefix(d.keys, j, prefix)
    ensures RangeAt(b, d, t, prefix, i', j', result', all) && i + j < i' + j'
  {
    RangeEnds(b.keys, prefix, i);
    RangeEnds(d.keys, prefix, j);
    ghost var m, n := RangeEnd(b.keys, prefix), RangeEnd(d.keys, prefix);
    var e;
    e, i', j' := NextVisit(b, d, i, j, InPrefix(b.keys, i, prefix), InPrefix(d.keys, j, prefix), m, n, t);
    EmitStep(result, e, MergeEntries(b.keys[i'..m], d.keys[j'..n], t), prefix);
    result' := Emit(result, e, prefix);
  }

  /** The emit callback: whiteouts and grandchildren are left out. */
  function Emit(result: seq<(string, Entry)>, e: (string, Entry), prefix: string): seq<(string, Entry)>
    requires prefix <= e.0
  {
    if e.1.kind.Deleted? || '/' in e.0[|prefix|..] then result else result + [e]
  }

  lemma EmitStep(result: seq<(string, Entry)>, e: (string, Entry), rest: seq<(string, Entry)>, prefix: string)
    requires prefix <= e.0
    ensures result + Filter([e] + rest, prefix, true, false) == Emit(result, e, prefix) + Filter(rest, prefix, true, false)
  {
    FilterStep([e] + rest, e, prefix, true, false);
    assert ([e] + rest)[1..] == rest;
  }

  predicate InPrefix(keys: seq<string>, i: nat, prefix: string) {
    i < |keys| && prefix <= keys[i]
  }

  /** Going on while the prefix holds is going on to the end of the range. */
  lemma RangeEnds(keys: seq<string>, prefix: string, i: nat)
    requires LowerBound(keys, prefix) <= i <= LowerBound(keys, prefix) + |PrefixRange(keys, prefix)|
    ensures InPrefix(keys, i, prefix) <==> i < RangeEnd(keys, prefix)
  {
    var lo := LowerBound(keys, prefix);
    var rest := keys[lo..];
    if i < |keys| {
      assert rest[i - lo] == keys[i];
    }
  }

  lemma LiveAmongAll(all: seq<(string, Entry)>, t: Spec.Wt)
    requires Lists(all, t, "", false, true)
    ensures Lists(Filter(all, "", false, false), t, "", false, false)
  {
    FilterSorted(all, "", false, false);
    forall p, e ensures (p, e) in Filter(all, "", false, false) <==>
                        t.LookupRaw(p) == Some(e) && Wanted(p, e, "", false, false) {
      FilterMembers(all, "", false, false, (p, e));
    }
  }

  lemma WholeWalk(b: Ordered<Entry>, d: Ordered<Entry>, t: Spec.Wt, visited: seq<(string, Entry)>)
    requires b.Valid() && d.Valid() && t.base == b.at && t.delta == d.at
    requires visited == MergeEntries(b.keys, d.keys, t)
    ensures Lists(visited, t, "", false, true)
  {
    WholeRange(b.keys);
    WholeRange(d.keys);
    WalkLists(b, d, t, "", false, true);
    FilterAll(visited);
  }

  lemma WholeRange(keys: seq<string>)
    ensures PrefixRange(keys, "") == keys
  {
    RunsToEnd(keys);
  }

  lemma {:induction false} RunsToEnd(keys: seq<string>)
    ensures RunLength(keys, "") == |keys|
  {
    if keys != [] {
      RunsToEnd(keys[1..]);
    }
  }

  lemma {:induction false} FilterAll(es: seq<(string, Entry)>)
    ensures Filter(es, "", false, true) == es
  {
    if es != [] {
      FilterAll(es[1..]);
    }
  }
}
