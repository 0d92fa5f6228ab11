/**
 * The object graph that garbage collection walks (src/cas/gc.cpp): what each
 * object refers to, and what it means for a set of marks to be closed.
 */
module GcGraph {
  import opened CasTypes

  /** An id field of a record: empty, a full hash, or text that is not a hash. */
  datatype IdField = Unset | Id(hash: Hash) | Malformed

  /** The links of an agent-state record. */
  datatype StateRecord = StateRecord(
    payloadRef: IdField, dependencies: seq<Hash>, fsCommit: Hash,
    unionState: IdField, parentState: IdField, snapshotBase: IdField)

  /** The links of a union runtime state; a ref that is not a hash links nowhere. */
  datatype UnionState = UnionState(
    fsCommit: Hash, commandRef: Option<Hash>, resourceRef: Option<Hash>,
    agentState: IdField, parentUnion: IdField)

  /** A stored object, with what its body parses to; None when it does not parse. */
  datatype Stored =
    | TreeObject(entries: Option<seq<TreeEntry>>)
    | CommitObject(data: Option<CommitData>)
    | BlobObject(asState: Option<StateRecord>, asUnion: Option<UnionState>)

  type Store = map<Hash, Stored>

  datatype Policy = Policy(keepLast: Option<nat>, keepLabels: seq<string>, dryRun: bool)

  // ---- reads -------------------------------------------------------------------------

  function ReadTree(store: Store, h: Hash): Option<seq<TreeEntry>> {
    if h in store && store[h].TreeObject? then store[h].entries else None
  }

  function ReadCommit(store: Store, h: Hash): Option<CommitData> {
    if h in store && store[h].CommitObject? then store[h].data else None
  }

  function ReadState(store: Store, h: Hash): Option<StateRecord> {
    if h in store && store[h].BlobObject? then store[h].asState else None
  }

  function ReadUnion(store: Store, h: Hash): Option<UnionState> {
    if h in store && store[h].BlobObject? then store[h].asUnion else None
  }

  // ---- marks -------------------------------------------------------------------------

  /** The marked objects by what they were reached as; `retained` are the commits kept with data. */
  datatype Marks = Marks(
    commits: set<Hash>, retained: set<Hash>, trees: set<Hash>,
    states: set<Hash>, unions: set<Hash>, leaves: set<Hash>)
  {
    function All(): set<Hash> { commits + trees + states + unions + leaves }

    predicate Within(b: Marks) {
      commits <= b.commits && retained <= b.retained && trees <= b.trees &&
      states <= b.states && unions <= b.unions && leaves <= b.leaves
    }
  }

  /** An id field leads into the set, or nowhere. */
  predicate Leads(f: IdField, s: set<Hash>) {
    f.Id? ==> f.hash in s
  }

  predicate LeadsOpt(f: Option<Hash>, s: set<Hash>) {
    f.Some? ==> f.value in s
  }

  /** A commit link keeps the commit, its data and its history. */
  predicate LeadsCommit(c: Hash, m: Marks) {
    c != ZERO_HASH ==> c in m.commits && c in m.retained
  }

  ghost predicate EntriesIn(entries: seq<TreeEntry>, m: Marks) {
    forall i :: 0 <= i < |entries| ==> EntryIn(entries[i], m)
  }

  predicate EntryIn(e: TreeEntry, m: Marks) {
    && (e.kind.Tree? ==> e.hash in m.trees)
    && (e.kind.Blob? || e.kind.Symlink? ==> e.hash == ZERO_HASH || e.hash in m.leaves)
  }

  predicate KeptByLabel(policy: Policy, commitLabel: string) {
    policy.keepLast.None? || commitLabel in policy.keepLabels
  }

  ghost predicate CommitIn(policy: Policy, c: Hash, d: CommitData, m: Marks) {
    && (forall i :: 0 <= i < |d.parents| ==> d.parents[i] in m.commits)
    && (KeptByLabel(policy, d.commitLabel) ==> c in m.retained)
  }

  ghost predicate StateIn(r: StateRecord, m: Marks) {
    && Leads(r.payloadRef, m.leaves)
    && (forall i :: 0 <= i < |r.dependencies| ==> r.dependencies[i] in m.leaves)
    && LeadsCommit(r.fsCommit, m)
    && Leads(r.unionState, m.unions) && Leads(r.parentState, m.states) && Leads(r.snapshotBase, m.states)
  }

  predicate UnionIn(u: UnionState, m: Marks) {
    && LeadsCommit(u.fsCommit, m)
    && LeadsOpt(u.commandRef, m.leaves) && LeadsOpt(u.resourceRef, m.leaves)
    && Leads(u.agentState, m.states) && Leads(u.parentUnion, m.unions)
  }

  ghost predicate TreeClosed(store: Store, t: Hash, m: Marks) {
    ReadTree(store, t).Some? ==> EntriesIn(ReadTree(store, t).value, m)
  }

  ghost predicate CommitClosed(store: Store, policy: Policy, c: Hash, m: Marks) {
    ReadCommit(store, c).Some? ==> CommitIn(policy, c, ReadCommit(store, c).value, m)
  }

  ghost predicate StateClosed(store: Store, s: Hash, m: Marks) {
    ReadState(store, s).Some? ==> StateIn(ReadState(store, s).value, m)
  }

  ghost predicate UnionClosed(store: Store, u: Hash, m: Marks) {
    ReadUnion(store, u).Some? ==> UnionIn(ReadUnion(store, u).value, m)
  }

  ghost predicate DataClosed(store: Store, c: Hash, m: Marks) {
    ReadCommit(store, c).Some? ==> ReadCommit(store, c).value.tree in m.trees
  }

  /** Nothing that a marked object refers to is left out. */
  ghost predicate Closed(store: Store, policy: Policy, m: Marks) {
    && (forall t | t in m.trees :: TreeClosed(store, t, m))
    && (forall c | c in m.commits :: CommitClosed(store, policy, c, m))
    && (forall c | c in m.retained :: DataClosed(store, c, m))
    && (forall s | s in m.states :: StateClosed(store, s, m))
    && (forall u | u in m.unions :: UnionClosed(store, u, m))
    && m.retained <= m.commits
  }

  predicate WellFormedState(r: StateRecord) {
    !r.payloadRef.Malformed? && !r.unionState.Malformed? && !r.parentState.Malformed? && !r.snapshotBase.Malformed?
  }

  predicate WellFormedUnion(u: UnionState) {
    !u.agentState.Malformed? && !u.parentUnion.Malformed?
  }

  predicate StateReadable(store: Store, s: Hash) {
    ReadState(store, s).Some? && WellFormedState(ReadState(store, s).value)
  }

  predicate UnionReadable(store: Store, u: Hash) {
    ReadUnion(store, u).Some? && WellFormedUnion(ReadUnion(store, u).value)
  }

  /** Every object that had to be read to find the marks is there and parses. */
  ghost predicate Readable(store: Store, m: Marks) {
    && (forall t | t in m.trees :: ReadTree(store, t).Some?)
    && (forall c | c in m.commits :: ReadCommit(store, c).Some?)
    && (forall s | s in m.states :: StateReadable(store, s))
    && (forall u | u in m.unions :: UnionReadable(store, u))
  }

  // ---- retention windows -------------------------------------------------------------

  /** The first n commits of the first-parent chain from head, as far as it can be read. */
  function Window(store: Store, head: Hash, n: nat): set<Hash>
    decreases n
  {
    if n == 0 then {}
    else
      match ReadCommit(store, head)
      case None => {head}
      case Some(d) => if d.parents == [] then {head} else {head} + Window(store, d.parents[0], n - 1)
  }

  /** Size of a branch's retention window; a window of 0 still keeps the head. */
  function WindowSize(policy: Policy): nat {
    if policy.keepLast.None? then 0 else if policy.keepLast.value < 1 then 1 else policy.keepLast.value
  }

  /** What a chain walk from head must keep with data, beyond what labels keep. */
  function KeptFrom(store: Store, policy: Policy, head: Hash, applyWindow: bool): set<Hash> {
    {head} + if applyWindow then Window(store, head, WindowSize(policy)) else {}
  }

  /** A set closed under parents that holds the head holds the whole window. */
  lemma {:induction false} WindowWithin(store: Store, head: Hash, n: nat, s: set<Hash>)
    requires head in s
    requires forall c | c in s :: ReadCommit(store, c).Some? ==>
      forall i :: 0 <= i < |ReadCommit(store, c).value.parents| ==> ReadCommit(store, c).value.parents[i] in s
    ensures Window(store, head, n) <= s
    decreases n
  {
    if n > 0 {
      match ReadCommit(store, head)
      case None =>
      case Some(d) =>
        if d.parents != [] {
          WindowWithin(store, d.parents[0], n - 1, s);
        }
    }
  }

  /** Marks only grow, and what was closed stays closed. */
  lemma ClosedMonotone(store: Store, policy: Policy, a: Marks, b: Marks)
    requires a.Within(b)
    ensures forall t :: TreeClosed(store, t, a) ==> TreeClosed(store, t, b)
    ensures forall c :: CommitClosed(store, policy, c, a) ==> CommitClosed(store, policy, c, b)
    ensures forall s :: StateClosed(store, s, a) ==> StateClosed(store, s, b)
    ensures forall u :: UnionClosed(store, u, a) ==> UnionClosed(store, u, b)
    ensures forall c :: DataClosed(store, c, a) ==> DataClosed(store, c, b)
  {}

  // ---- roots ------------------------------------------------------------------------

  /** Where marking starts: durable refs, state refs and the daemon's live state. */
  datatype Roots = Roots(
    refs: Option<seq<(string, Option<Hash>)>>,  // None when listing fails; a ref may be unreadable
    expectedBranchRefs: seq<string>,
    stateRefs: seq<Option<Hash>>,               // None when a latest ref is unreadable or malformed
    runtimeUnionStates: seq<Hash>,
    wtHashes: seq<Hash>, fhBlobHashes: seq<Hash>, fhPinnedCommits: seq<Hash>, pending: seq<Hash>)
  {
    predicate Named(name: string)
      requires refs.Some?
    {
      exists i :: 0 <= i < |refs.value| && refs.value[i].0 == name
    }

    /** Every root can be listed and read, and no branch has lost its ref. */
    predicate Sound() {
      && refs.Some?
      && (forall i :: 0 <= i < |expectedBranchRefs| ==> Named(expectedBranchRefs[i]))
      && (forall i :: 0 <= i < |refs.value| ==> refs.value[i].1.Some?)
      && (forall i :: 0 <= i < |stateRefs| ==> stateRefs[i].Some?)
    }
  }

  ghost predicate RefsIn(store: Store, policy: Policy, refs: seq<(string, Option<Hash>)>, m: Marks) {
    forall i :: 0 <= i < |refs| && refs[i].1.Some? ==> HeadIn(store, policy, refs[i].1.value, m)
  }

  /** A branch head is kept with data, and so is its retention window. */
  ghost predicate HeadIn(store: Store, policy: Policy, head: Hash, m: Marks) {
    head in m.commits && KeptFrom(store, policy, head, true) <= m.retained
  }

  ghost predicate AllIn(s: seq<Hash>, t: set<Hash>) {
    forall i :: 0 <= i < |s| ==> s[i] in t
  }

  ghost predicate StateRefsIn(refs: seq<Option<Hash>>, m: Marks) {
    forall i :: 0 <= i < |refs| && refs[i].Some? ==> refs[i].value in m.states
  }

  /** Every root is among the marks. */
  ghost predicate RootsIn(store: Store, policy: Policy, r: Roots, m: Marks) {
    && (r.refs.Some? ==> RefsIn(store, policy, r.refs.value, m))
    && StateRefsIn(r.stateRefs, m)
    && AllIn(r.runtimeUnionStates, m.unions)
    && AllIn(r.wtHashes, m.leaves) && AllIn(r.fhBlobHashes, m.leaves)
    && AllIn(r.fhPinnedCommits, m.leaves) && AllIn(r.pending, m.leaves)
  }

  // ---- a bound always exists -----------------------------------------------------------

  function IdHashes(f: IdField): set<Hash> {
    if f.Id? then {f.hash} else {}
  }

  function OptHashes(f: Option<Hash>): set<Hash> {
    if f.Some? then {f.value} else {}
  }

  /** Every hash an object mentions. */
  function Mentioned(o: Stored): set<Hash> {
    match o
    case TreeObject(None) => {}
    case TreeObject(Some(entries)) => set e | e in entries :: e.hash
    case CommitObject(None) => {}
    case CommitObject(Some(d)) => {d.tree} + set p | p in d.parents
    case BlobObject(s, u) =>
      (match s
       case None => {}
       case Some(r) => IdHashes(r.payloadRef) + (set d | d in r.dependencies) + {r.fsCommit} +
                       IdHashes(r.unionState) + IdHashes(r.parentState) + IdHashes(r.snapshotBase)) +
      (match u
       case None => {}
       case Some(r) => {r.fsCommit} + OptHashes(r.commandRef) + OptHashes(r.resourceRef) +
                       IdHashes(r.agentState) + IdHashes(r.parentUnion))
  }

  function AllMentioned(store: Store): set<Hash> {
    set k, h | k in store && h in Mentioned(store[k]) :: h
  }

  function RootHashes(r: Roots): set<Hash> {
    (if r.refs.Some? then set x | x in r.refs.value && x.1.Some? :: x.1.value else {}) +
    (set x | x in r.stateRefs && x.Some? :: x.value) +
    (set x | x in r.runtimeUnionStates) + (set x | x in r.wtHashes) + (set x | x in r.fhBlobHashes) +
    (set x | x in r.fhPinnedCommits) + (set x | x in r.pending)
  }

  /** Marking everything that is mentioned anywhere is closed: there is always some bound. */
  lemma BoundExists(store: Store, policy: Policy, r: Roots) returns (b: Marks)
    ensures Closed(store, policy, b) && RootsIn(store, policy, r, b)
  {
    var u := AllMentioned(store) + RootHashes(r);
    b := Marks(u, u, u, u, u, u);
    forall k, h | k in store && h in Mentioned(store[k]) ensures h in u {
      assert h in AllMentioned(store);
    }
    forall t | t in u ensures TreeClosed(store, t, b) {
      if ReadTree(store, t).Some? {
        var entries := ReadTree(store, t).value;
        forall i | 0 <= i < |entries| ensures EntryIn(entries[i], b) {
          assert entries[i].hash in Mentioned(store[t]);
        }
      }
    }
    forall c | c in u ensures CommitClosed(store, policy, c, b) && DataClosed(store, c, b) {
      if ReadCommit(store, c).Some? {
        var d := ReadCommit(store, c).value;
        assert d.tree in Mentioned(store[c]);
        forall i | 0 <= i < |d.parents| ensures d.parents[i] in u {
          assert d.parents[i] in Mentioned(store[c]);
        }
      }
    }
    forall s | s in u ensures StateClosed(store, s, b) && UnionClosed(store, s, b) {
      RecordBound(store, s, b);
    }
    RootsBound(store, policy, r, b);
  }

  lemma RecordBound(store: Store, s: Hash, b: Marks)
    requires forall h | s in store && h in Mentioned(store[s]) :: h in b.leaves
    requires b == Marks(b.leaves, b.leaves, b.leaves, b.leaves, b.leaves, b.leaves)
    ensures StateClosed(store, s, b) && UnionClosed(store, s, b)
  {
    if ReadState(store, s).Some? {
      var r := ReadState(store, s).value;
      forall i | 0 <= i < |r.dependencies| ensures r.dependencies[i] in b.leaves {
        assert r.dependencies[i] in Mentioned(store[s]);
      }
      assert StateIn(r, b);
    }
    if ReadUnion(store, s).Some? {
      assert UnionIn(ReadUnion(store, s).value, b);
    }
  }

  lemma RootsBound(store: Store, policy: Policy, r: Roots, b: Marks)
    requires b == Marks(b.leaves, b.leaves, b.leaves, b.leaves, b.leaves, b.leaves)
    requires RootHashes(r) <= b.leaves && forall c | c in b.leaves :: CommitClosed(store, policy, c, b)
    ensures RootsIn(store, policy, r, b)
  {
    if r.refs.Some? {
      forall i | 0 <= i < |r.refs.value| && r.refs.value[i].1.Some?
        ensures HeadIn(store, policy, r.refs.value[i].1.value, b)
      {
        var head := r.refs.value[i].1.value;
        assert r.refs.value[i] in r.refs.value;
        assert head in RootHashes(r);
        WindowWithin(store, head, WindowSize(policy), b.leaves);
      }
    }
    forall i | 0 <= i < |r.stateRefs| && r.stateRefs[i].Some? ensures r.stateRefs[i].value in b.leaves {
      assert r.stateRefs[i] in r.stateRefs;
      assert r.stateRefs[i].value in RootHashes(r);
    }
  }

  // ---- the least bound -----------------------------------------------------------------

  ghost predicate IsBound(store: Store, policy: Policy, r: Roots, b: Marks) {
    Closed(store, policy, b) && RootsIn(store, policy, r, b)
  }

  /** What has to be kept: closed, holding the roots, and inside every other such set. */
  ghost predicate IsLeast(store: Store, policy: Policy, r: Roots, m: Marks) {
    && IsBound(store, policy, r, m)
    && (forall b :: IsBound(store, policy, r, b) ==> m.Within(b))
  }

  /** m holds exactly what all bounds have in common. */
  ghost predicate Meet(store: Store, policy: Policy, r: Roots, m: Marks) {
    && (forall h :: h in m.commits <==> forall b :: IsBound(store, policy, r, b) ==> h in b.commits)
    && (forall h :: h in m.retained <==> forall b :: IsBound(store, policy, r, b) ==> h in b.retained)
    && (forall h :: h in m.trees <==> forall b :: IsBound(store, policy, r, b) ==> h in b.trees)
    && (forall h :: h in m.states <==> forall b :: IsBound(store, policy, r, b) ==> h in b.states)
    && (forall h :: h in m.unions <==> forall b :: IsBound(store, policy, r, b) ==> h in b.unions)
    && (forall h :: h in m.leaves <==> forall b :: IsBound(store, policy, r, b) ==> h in b.leaves)
  }

  lemma MeetExists(store: Store, policy: Policy, r: Roots) returns (m: Marks)
    ensures Meet(store, policy, r, m)
  {
    var u := BoundExists(store, policy, r);
    m := Marks(set h | h in u.commits && forall b :: IsBound(store, policy, r, b) ==> h in b.commits,
               set h | h in u.retained && forall b :: IsBound(store, policy, r, b) ==> h in b.retained,
               set h | h in u.trees && forall b :: IsBound(store, policy, r, b) ==> h in b.trees,
               set h | h in u.states && forall b :: IsBound(store, policy, r, b) ==> h in b.states,
               set h | h in u.unions && forall b :: IsBound(store, policy, r, b) ==> h in b.unions,
               set h | h in u.leaves && forall b :: IsBound(store, policy, r, b) ==> h in b.leaves);
    assert IsBound(store, policy, r, u);
  }

  lemma MeetTrees(store: Store, policy: Policy, r: Roots, m: Marks)
    requires Meet(store, policy, r, m)
    ensures forall t | t in m.trees :: TreeClosed(store, t, m)
    ensures forall c | c in m.retained :: DataClosed(store, c, m) && c in m.commits
  {
    forall t | t in m.trees && ReadTree(store, t).Some?
      ensures EntriesIn(ReadTree(store, t).value, m)
    {
      var entries := ReadTree(store, t).value;
      forall i | 0 <= i < |entries| ensures EntryIn(entries[i], m) {
        forall b | IsBound(store, policy, r, b) ensures EntryIn(entries[i], b) {
          assert TreeClosed(store, t, b);
        }
      }
    }
    forall c | c in m.retained ensures DataClosed(store, c, m) && c in m.commits {
      forall b | IsBound(store, policy, r, b) ensures DataClosed(store, c, b) && c in b.commits {
        assert c in b.retained;
      }
    }
  }

  lemma MeetCommits(store: Store, policy: Policy, r: Roots, m: Marks)
    requires Meet(store, policy, r, m)
    ensures forall c | c in m.commits :: CommitClosed(store, policy, c, m)
  {
    forall c | c in m.commits && ReadCommit(store, c).Some?
      ensures CommitIn(policy, c, ReadCommit(store, c).value, m)
    {
      var d := ReadCommit(store, c).value;
      forall b | IsBound(store, policy, r, b) ensures CommitIn(policy, c, d, b) {
        assert CommitClosed(store, policy, c, b);
      }
    }
  }

  lemma MeetRecords(store: Store, policy: Policy, r: Roots, m: Marks)
    requires Meet(store, policy, r, m)
    ensures forall s | s in m.states :: StateClosed(store, s, m)
    ensures forall u | u in m.unions :: UnionClosed(store, u, m)
  {
    forall s | s in m.states && ReadState(store, s).Some?
      ensures StateIn(ReadState(store, s).value, m)
    {
      var rec := ReadState(store, s).value;
      forall b | IsBound(store, policy, r, b) ensures StateIn(rec, b) {
        assert StateClosed(store, s, b);
      }
    }
    forall u | u in m.unions && ReadUnion(store, u).Some?
      ensures UnionIn(ReadUnion(store, u).value, m)
    {
      var rec := ReadUnion(store, u).value;
      forall b | IsBound(store, policy, r, b) ensures UnionIn(rec, b) {
        assert UnionClosed(store, u, b);
      }
    }
  }

  lemma MeetRoots(store: Store, policy: Policy, r: Roots, m: Marks)
    requires Meet(store, policy, r, m)
    ensures RootsIn(store, policy, r, m)
  {
    if r.refs.Some? {
      forall i | 0 <= i < |r.refs.value| && r.refs.value[i].1.Some?
        ensures HeadIn(store, policy, r.refs.value[i].1.value, m)
      {
        var head := r.refs.value[i].1.value;
        forall b | IsBound(store, policy, r, b) ensures HeadIn(store, policy, head, b) {
          assert RefsIn(store, policy, r.refs.value, b);
        }
      }
    }
  }

  /** There is exactly one least bound. */
  lemma LeastExists(store: Store, policy: Policy, r: Roots) returns (m: Marks)
    ensures IsLeast(store, policy, r, m)
  {
    m := MeetExists(store, policy, r);
    MeetTrees(store, policy, r, m);
    MeetCommits(store, policy, r, m);
    MeetRecords(store, policy, r, m);
    MeetRoots(store, policy, r, m);
  }

  lemma LeastUnique(store: Store, policy: Policy, r: Roots, m: Marks, m': Marks)
    requires IsLeast(store, policy, r, m) && IsBound(store, policy, r, m') && m'.Within(m)
    ensures m == m'
  {}

  // ---- growing marks -----------------------------------------------------------------

  /**
   * From a to b marks were only added, and everything added was read and is
   * closed in b, save for what is still open: the objects on the call stack.
   */
  ghost predicate GrownBut(store: Store, policy: Policy, a: Marks, b: Marks,
                           openTrees: set<Hash>, openStates: set<Hash>, openUnions: set<Hash>)
  {
    && a.Within(b)
    && (forall t | t in b.trees - a.trees - openTrees :: ReadTree(store, t).Some? && TreeClosed(store, t, b))
    && (forall c | c in b.commits - a.commits :: ReadCommit(store, c).Some? && CommitClosed(store, policy, c, b))
    && (forall s | s in b.states - a.states - openStates :: StateReadable(store, s) && StateClosed(store, s, b))
    && (forall u | u in b.unions - a.unions - openUnions :: UnionReadable(store, u) && UnionClosed(store, u, b))
  }

  ghost predicate Grown(store: Store, policy: Policy, a: Marks, b: Marks) {
    GrownBut(store, policy, a, b, {}, {}, {})
  }

  lemma GrownTrans(store: Store, policy: Policy, a: Marks, b: Marks, c: Marks,
                   openTrees: set<Hash>, openStates: set<Hash>, openUnions: set<Hash>)
    requires GrownBut(store, policy, a, b, openTrees, openStates, openUnions) && Grown(store, policy, b, c)
    ensures GrownBut(store, policy, a, c, openTrees, openStates, openUnions)
  {
    ClosedMonotone(store, policy, b, c);
  }

  lemma GrownRefl(store: Store, policy: Policy, a: Marks)
    ensures Grown(store, policy, a, a)
  {}

  /** Adding leaves or retained commits opens nothing. */
  lemma GrownLeaves(store: Store, policy: Policy, a: Marks, b: Marks)
    requires a.Within(b) && b.(leaves := a.leaves, retained := a.retained) == a
    ensures Grown(store, policy, a, b)
  {}

  lemma EntriesMonotone(entries: seq<TreeEntry>, a: Marks, b: Marks)
    requires EntriesIn(entries, a) && a.Within(b)
    ensures EntriesIn(entries, b)
  {}
}
