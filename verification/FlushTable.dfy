/**
 * The flush of a branch's open files before a checkpoint or a merge
 * (src/cas/daemon.cpp): every dirty handle of the branch becomes a blob and an entry
 * of the branch's tree, and no reader of any handle can tell.
 */
module FlushTable {
  import opened CasTypes
  import opened FileHandle
  import Spec = WorkingTreeSpec
  import Trees = WorkingTree

  /** A handle as the flush finds it: due, when it is a dirty one of the branch and not stale. */
  datatype Found = Found(path: string, due: bool, view: seq<byte>)

  predicate Due(fh: FhState, branchId: nat)
    reads fh, fh.writeBuf
  {
    fh.branchId == branchId && !fh.stale && fh.Dirty()
  }

  ghost function Find(fh: FhState, branchId: nat): Found
    reads fh, fh.writeBuf
  {
    Found(fh.path, Due(fh, branchId), fh.View())
  }

  /** A path that is visible keeps its mode. */
  function ModeOf(e: Option<Entry>): nat {
    if e.Some? then e.value.mode else 0x81A4
  }

  // ---- the tree after the flush -------------------------------------------------------

  function FlushOne(hashOf: seq<byte> -> Hash, t: Spec.Wt, f: Found): Spec.Wt {
    if f.due then Spec.Insert(t, f.path, Entry(Blob, hashOf(f.view), ModeOf(t.Lookup(f.path)))) else t
  }

  function FlushAll(hashOf: seq<byte> -> Hash, t: Spec.Wt, found: seq<Found>): Spec.Wt {
    if found == [] then t else FlushOne(hashOf, FlushAll(hashOf, t, found[..|found| - 1]), found[|found| - 1])
  }

  /** The k-th handle is the last that is due for its path. */
  ghost predicate LastDue(found: seq<Found>, k: nat) {
    k < |found| && found[k].due && forall i :: k < i < |found| && found[i].path == found[k].path ==> !found[i].due
  }

  /** Each path takes the contents of the last handle that is due for it, with the mode it had. */
  lemma {:induction false} LastHandleWins(hashOf: seq<byte> -> Hash, t: Spec.Wt, found: seq<Found>, k: nat)
    requires LastDue(found, k)
    ensures FlushAll(hashOf, t, found).LookupRaw(found[k].path) ==
            Some(Entry(Blob, hashOf(found[k].view), ModeOf(t.Lookup(found[k].path))))
    decreases |found|
  {
    var n := |found| - 1;
    var p := found[k].path;
    if k < n {
      assert LastDue(found[..n], k);
      LastHandleWins(hashOf, t, found[..n], k);
      assert found[n].path == p ==> !found[n].due;
    } else {
      ModeKept(hashOf, t, found[..n], p);
    }
  }

  lemma {:induction false} ModeKept(hashOf: seq<byte> -> Hash, t: Spec.Wt, found: seq<Found>, p: string)
    ensures ModeOf(FlushAll(hashOf, t, found).Lookup(p)) == ModeOf(t.Lookup(p))
    decreases |found|
  {
    if found != [] {
      var n := |found| - 1;
      ModeKept(hashOf, t, found[..n], p);
      var t1 := FlushAll(hashOf, t, found[..n]);
      assert found[n].due && found[n].path == p ==>
        FlushOne(hashOf, t1, found[n]).LookupRaw(p) == Some(Entry(Blob, hashOf(found[n].view), ModeOf(t1.Lookup(p))));
    }
  }

  lemma {:induction false} OtherPathsStay(hashOf: seq<byte> -> Hash, t: Spec.Wt, found: seq<Found>, p: string)
    requires forall i :: 0 <= i < |found| && found[i].due ==> found[i].path != p
    ensures FlushAll(hashOf, t, found).LookupRaw(p) == t.LookupRaw(p)
    decreases |found|
  {
    if found != [] {
      OtherPathsStay(hashOf, t, found[..|found| - 1], p);
    }
  }

  // ---- the loop over the table -----------------------------------------------------------

  /** Handles and their buffers are owned by one table entry each. */
  ghost predicate Separate(table: seq<FhState>) {
    forall i, j :: 0 <= i < j < |table| ==> table[i] != table[j] && table[i].writeBuf != table[j].writeBuf
  }

  ghost predicate AllValid(table: seq<FhState>)
    reads set i | 0 <= i < |table| :: table[i], set i | 0 <= i < |table| :: table[i].writeBuf
  {
    forall i :: 0 <= i < |table| ==> table[i].Valid()
  }

  ghost function FindAll(table: seq<FhState>, branchId: nat): (found: seq<Found>)
    reads set i | 0 <= i < |table| :: table[i], set i | 0 <= i < |table| :: table[i].writeBuf
    ensures |found| == |table|
  {
    seq(|table|, i requires 0 <= i < |table|
                 reads set i | 0 <= i < |table| :: table[i], set i | 0 <= i < |table| :: table[i].writeBuf
                 => Find(table[i], branchId))
  }

  /** One handle after the loop has passed it, or before. */
  ghost predicate PassedAt(hashOf: seq<byte> -> Hash, fh: FhState, branchId: nat, f: Found, passed: bool)
    reads fh, fh.writeBuf
  {
    && fh.Valid() && fh.View() == f.view && fh.path == f.path
    && (passed && f.due ==> !fh.Dirty() && fh.baseBlob == hashOf(f.view))
    && (!passed ==> Find(fh, branchId) == f)
  }

  ghost predicate Passed(hashOf: seq<byte> -> Hash, table: seq<FhState>, branchId: nat, found: seq<Found>, k: nat)
    requires |found| == |table|
    reads set i | 0 <= i < |table| :: table[i], set i | 0 <= i < |table| :: table[i].writeBuf
  {
    forall i :: 0 <= i < |table| ==> PassedAt(hashOf, table[i], branchId, found[i], i < k)
  }

  method FlushHandle(hashOf: seq<byte> -> Hash, fh: FhState, branchId: nat, wt: Trees.WorkingTree, fails: bool, ghost f: Found)
    returns (ok: bool)
    requires wt.Valid() && PassedAt(hashOf, fh, branchId, f, false)
    modifies fh, fh.writeBuf, wt`delta
    ensures wt.Valid() && PassedAt(hashOf, fh, branchId, f, ok)
    ensures ok == (!f.due || (!fails && hashOf(f.view) != ZERO_HASH))
    ensures wt.V() == if ok then FlushOne(hashOf, old(wt.V()), f) else old(wt.V())
  {
    if fh.branchId != branchId || fh.stale || !fh.Dirty() {
      return true;
    }
    var newBlob := fh.Flush(hashOf, fails);
    if newBlob == ZERO_HASH {
      return false;
    }
    var existing := wt.Lookup(fh.path);
    var mode := if existing.Some? then existing.value.mode else 0x81A4;
    wt.Insert(fh.path, Entry(Blob, newBlob, mode));
    ok := true;
  }

  /** The loop before handle k: the handles passed are clean and in the tree. */
  ghost predicate FlushedUpTo(hashOf: seq<byte> -> Hash, table: seq<FhState>, branchId: nat, wt: Trees.WorkingTree,
                              found: seq<Found>, t: Spec.Wt, k: nat)
    reads set i | 0 <= i < |table| :: table[i], set i | 0 <= i < |table| :: table[i].writeBuf, wt, wt.base
  {
    && wt.Valid() && |found| == |table| && k <= |table|
    && Passed(hashOf, table, branchId, found, k)
    && wt.V() == FlushAll(hashOf, t, found[..k])
  }

  /**
   * The whole table.  Whatever happens every handle reads as before; on success all
   * that were due are clean and in the tree, on failure those before the failing one.
   */
  method FlushFhsForBranch(hashOf: seq<byte> -> Hash, table: seq<FhState>, branchId: nat, wt: Trees.WorkingTree, faulty: set<nat>)
    returns (ok: bool, ghost k: nat)
    requires wt.Valid() && AllValid(table) && Separate(table)
    modifies set i | 0 <= i < |table| :: table[i], set i | 0 <= i < |table| :: table[i].writeBuf, wt`delta
    ensures FlushedUpTo(hashOf, table, branchId, wt, old(FindAll(table, branchId)), old(wt.V()), k)
    ensures ok ==> k == |table|
    ensures !ok ==> k < |table| && old(FindAll(table, branchId))[k].due
    ensures faulty == {} && (forall data :: hashOf(data) != ZERO_HASH) ==> ok
  {
    ghost var found, t := FindAll(table, branchId), wt.V();
    k := 0;
    ok := true;
    var i: nat := 0;
    while i < |table|
      invariant FlushedUpTo(hashOf, table, branchId, wt, found, t, i)
    {
      ok := FlushNext(hashOf, table, branchId, wt, i in faulty, i, found, t);
      if !ok {
        return false, i;
      }
      i := i + 1;
    }
    k := i;
  }

  method FlushNext(hashOf: seq<byte> -> Hash, table: seq<FhState>, branchId: nat, wt: Trees.WorkingTree, fails: bool,
                   i: nat, ghost found: seq<Found>, ghost t: Spec.Wt)
    returns (ok: bool)
    requires FlushedUpTo(hashOf, table, branchId, wt, found, t, i) && Separate(table) && i < |table|
    modifies table[i], table[i].writeBuf, wt`delta
    ensures FlushedUpTo(hashOf, table, branchId, wt, found, t, if ok then i + 1 else i)
    ensures ok == (!found[i].due || (!fails && hashOf(found[i].view) != ZERO_HASH))
  {
    assert PassedAt(hashOf, table[i], branchId, found[i], i < i);
    label before:
    ok := FlushHandle(hashOf, table[i], branchId, wt, fails, found[i]);
    forall j | 0 <= j < |table|
      ensures PassedAt(hashOf, table[j], branchId, found[j], j < if ok then i + 1 else i)
    {
      if j != i {
        assert table[j] != table[i] && table[j].writeBuf != table[i].writeBuf;
        assert old@before(PassedAt(hashOf, table[j], branchId, found[j], j < i));
      }
    }
    assert found[..i + 1][..i] == found[..i];
  }
}
