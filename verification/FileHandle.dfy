/**
 * An open file as the daemon holds it (src/cas/daemon.cpp): a base blob and a
 * write buffer, flushed by making the materialized contents the new base.  And
 * how far what a handle shows is a POSIX file.
 */
module FileHandle {
  import opened CasTypes
  import opened WriteBuffer

  /** A handle opened for reading only keeps an empty write buffer. */
  class FhState {
    const branchId: nat
    const path: string
    const pinnedCommit: Hash
    const writeBuf: WriteBuffer
    var stale: bool
    var baseBlob: Hash
    var baseCache: seq<byte>

    ghost predicate Valid()
      reads this, writeBuf
    {
      writeBuf.Valid()
    }

    /** What a reader of the handle sees. */
    ghost function View(): seq<byte>
      reads this, writeBuf
    {
      Contents(writeBuf.history, baseCache)
    }

    constructor (branchId: nat, path: string, pinnedCommit: Hash, blob: Hash, base: seq<byte>)
      ensures Valid() && fresh(writeBuf) && View() == base && !stale
      ensures this.branchId == branchId && this.path == path && this.pinnedCommit == pinnedCommit && baseBlob == blob
    {
      this.branchId, this.path, this.pinnedCommit := branchId, path, pinnedCommit;
      stale, baseBlob := false, blob;
      writeBuf := new WriteBuffer(|base|);
      baseCache := base;
      new;
      EmptyHistory(base);
    }

    predicate Dirty()
      reads this, writeBuf
    {
      writeBuf.dirtyBytes > 0 || writeBuf.sizeOverride.Some?
    }

    /**
     * The flush of one handle; fails when the blob cannot be written, and then changes
     * nothing.  The write buffer keeps the size of the first base it was built with; no
     * later call depends on it.
     */
    method Flush(hashOf: seq<byte> -> Hash, fails: bool) returns (blob: Hash)
      requires Valid()
      modifies this, writeBuf
      ensures Valid() && View() == old(View()) && stale == old(stale)
      ensures blob == if fails then ZERO_HASH else hashOf(old(View()))
      ensures blob == ZERO_HASH ==> baseBlob == old(baseBlob) && Dirty() == old(Dirty())
      ensures blob != ZERO_HASH ==> !Dirty() && baseBlob == blob && baseCache == old(View())
    {
      var data := writeBuf.Materialize(baseCache);
      blob := if fails then ZERO_HASH else hashOf(data);
      if blob != ZERO_HASH {
        writeBuf.Clear();
        baseBlob := blob;
        baseCache := data;
        EmptyHistory(data);
      }
    }
  }

  lemma EmptyHistory(base: seq<byte>)
    ensures Contents([], base) == base
  {}

  // ---- the POSIX file --------------------------------------------------------------

  /** write(2) and ftruncate(2): growth of either kind fills with zeros. */
  function PosixStep(file: seq<byte>, op: Op): seq<byte> {
    match op
    case Write(offset, data) =>
      if data == [] then file
      else
        seq(if offset + |data| > |file| then offset + |data| else |file|,
            p requires 0 <= p => if offset <= p < offset + |data| then data[p - offset] else ByteOr(None, file, p))
    case Truncate(n) => seq(n, p requires 0 <= p => ByteOr(None, file, p))
  }

  function Posix(ops: seq<Op>, base: seq<byte>): seq<byte> {
    if ops == [] then base else PosixStep(Posix(ops[..|ops| - 1], base), ops[|ops| - 1])
  }

  /** The least size the file was ever truncated to, at most the size it started with. */
  function LowWater(ops: seq<Op>, baseSize: nat): (low: nat)
    ensures low <= baseSize
  {
    if ops == [] then baseSize
    else
      var before := LowWater(ops[..|ops| - 1], baseSize);
      match ops[|ops| - 1]
      case Write(_, _) => before
      case Truncate(n) => if n < before then n else before
  }

  /** A POSIX file shows the base only below the low-water mark. */
  lemma {:induction false} PosixByte(ops: seq<Op>, base: seq<byte>, p: nat)
    ensures |Posix(ops, base)| == FileSize(ops, |base|)
    ensures p < FileSize(ops, |base|) ==>
      Posix(ops, base)[p] == ByteOr(LastWriter(ops, p), base[..LowWater(ops, |base|)], p)
    ensures LowWater(ops, |base|) <= FileSize(ops, |base|)
    decreases |ops|
  {
    if ops == [] {
      assert base[..|base|] == base;
    } else {
      PosixByte(ops[..|ops| - 1], base, p);
      if p >= FileSize(ops[..|ops| - 1], |base|) {
        UnwrittenPastEnd(ops[..|ops| - 1], |base|, p);
      }
    }
  }

  lemma {:induction false} UnwrittenPastEnd(ops: seq<Op>, baseSize: nat, p: nat)
    requires p >= FileSize(ops, baseSize)
    ensures LastWriter(ops, p) == None && p >= LowWater(ops, baseSize)
    decreases |ops|
  {
    if ops != [] {
      if p >= FileSize(ops[..|ops| - 1], baseSize) {
        UnwrittenPastEnd(ops[..|ops| - 1], baseSize, p);
      }
      LowWaterBound(ops, baseSize);
    }
  }

  lemma {:induction false} LowWaterBound(ops: seq<Op>, baseSize: nat)
    ensures LowWater(ops, baseSize) <= FileSize(ops, baseSize)
    decreases |ops|
  {
    if ops != [] {
      LowWaterBound(ops[..|ops| - 1], baseSize);
    }
  }

  /** The base shows through where the file was cut off and grown again without a write. */
  ghost predicate ShowsOldBase(ops: seq<Op>, base: seq<byte>, p: nat) {
    LowWater(ops, |base|) <= p < |base| && p < FileSize(ops, |base|) && LastWriter(ops, p) == None && base[p] != 0
  }

  /** A handle is a POSIX file exactly when no cut-off base byte other than zero shows again. */
  lemma PosixExactly(ops: seq<Op>, base: seq<byte>)
    ensures Contents(ops, base) == Posix(ops, base) <==> forall p :: !ShowsOldBase(ops, base, p)
  {
    var c, x := Contents(ops, base), Posix(ops, base);
    PosixByte(ops, base, 0);
    forall p: nat | p < |c|
      ensures c[p] == x[p] <==> !ShowsOldBase(ops, base, p)
    {
      PosixByte(ops, base, p);
    }
    if p: nat :| ShowsOldBase(ops, base, p) {
      assert c[p] != x[p];
    }
  }

  /** A file never truncated below its base size is a POSIX file. */
  lemma PosixIfNeverCut(ops: seq<Op>, base: seq<byte>)
    requires LowWater(ops, |base|) == |base|
    ensures Contents(ops, base) == Posix(ops, base)
  {
    PosixExactly(ops, base);
  }

  /** Truncating a two-byte file to nothing and growing it back shows the old bytes. */
  lemma TruncateThenGrowShowsBase()
    ensures Contents([Truncate(0), Truncate(2)], [1, 2]) == [1, 2]
    ensures Posix([Truncate(0), Truncate(2)], [1, 2]) == [0, 0]
  {
    var ops := [Truncate(0), Truncate(2)];
    assert ops[..1] == [Truncate(0)] && ops[..1][..0] == [];
    assert Posix(ops[..1], [1, 2]) == [];
    assert LastWriter(ops, 0) == None && LastWriter(ops, 1) == None;
  }

  lemma {:induction false} PosixAppend(a: seq<Op>, b: seq<Op>, base: seq<byte>)
    ensures Posix(a + b, base) == Posix(b, Posix(a, base))
    decreases |b|
  {
    if b == [] {
      assert a + b == a;
    } else {
      PosixAppend(a, b[..|b| - 1], base);
      assert (a + b)[..|a + b| - 1] == a + b[..|b| - 1];
    }
  }

  // ---- when a flush can be seen ------------------------------------------------------

  /** Some call truncated the file at or below p. */
  predicate EverCut(ops: seq<Op>, p: nat) {
    ops != [] && ((ops[|ops| - 1].Truncate? && ops[|ops| - 1].newSize <= p) || EverCut(ops[..|ops| - 1], p))
  }

  lemma {:induction false} AppendWriter(a: seq<Op>, b: seq<Op>, p: nat)
    ensures LastWriter(a + b, p) ==
            if LastWriter(b, p).Some? then LastWriter(b, p) else if EverCut(b, p) then None else LastWriter(a, p)
    decreases |b|
  {
    if b == [] {
      assert a + b == a;
    } else {
      AppendWriter(a, b[..|b| - 1], p);
      assert (a + b)[..|a + b| - 1] == a + b[..|b| - 1];
    }
  }

  lemma {:induction false} AppendSize(a: seq<Op>, b: seq<Op>, baseSize: nat)
    ensures FileSize(a + b, baseSize) == FileSize(b, FileSize(a, baseSize))
    decreases |b|
  {
    if b == [] {
      assert a + b == a;
    } else {
      AppendSize(a, b[..|b| - 1], baseSize);
      assert (a + b)[..|a + b| - 1] == a + b[..|b| - 1];
    }
  }

  /**
   * Calls b leave p to the base, past the end of the flushed file or past a cut of
   * their own, and what was flushed differs there from the base before.
   */
  ghost predicate FlushShows(a: seq<Op>, b: seq<Op>, base: seq<byte>, p: nat) {
    && p < FileSize(a + b, |base|) && LastWriter(b, p) == None
    && (p >= FileSize(a, |base|) || EverCut(b, p))
    && ByteOr(None, Contents(a, base), p) != ByteOr(None, base, p)
  }

  lemma FlushedByte(a: seq<Op>, b: seq<Op>, base: seq<byte>, p: nat)
    requires p < FileSize(a + b, |base|)
    ensures |Contents(b, Contents(a, base))| == |Contents(a + b, base)|
    ensures Contents(b, Contents(a, base))[p] == Contents(a + b, base)[p] <==> !FlushShows(a, b, base, p)
  {
    AppendSize(a, b, |base|);
    AppendWriter(a, b, p);
    if p >= FileSize(a, |base|) {
      UnwrittenPastEnd(a, |base|, p);
    }
  }

  /** A flush between calls a and b is invisible after them exactly when it shows nowhere. */
  lemma FlushInvisibleExactly(a: seq<Op>, b: seq<Op>, base: seq<byte>)
    ensures Contents(b, Contents(a, base)) == Contents(a + b, base) <==> forall p :: !FlushShows(a, b, base, p)
  {
    var c, x := Contents(b, Contents(a, base)), Contents(a + b, base);
    AppendSize(a, b, |base|);
    forall p: nat | p < |x|
      ensures c[p] == x[p] <==> !FlushShows(a, b, base, p)
    {
      FlushedByte(a, b, base, p);
    }
    if p: nat :| FlushShows(a, b, base, p) {
      assert c[p] != x[p];
    }
  }

  /** The flushed file and the base before it are the same but for zeros at their ends. */
  ghost predicate SameButForZeros(a: seq<Op>, base: seq<byte>) {
    forall p: nat :: ByteOr(None, Contents(a, base), p) == ByteOr(None, base, p)
  }

  /** No later calls can tell that there was a flush exactly when it changed no byte of the base. */
  lemma FlushInvisibleForever(a: seq<Op>, base: seq<byte>)
    ensures (forall b :: Contents(b, Contents(a, base)) == Contents(a + b, base)) <==> SameButForZeros(a, base)
  {
    forall b | SameButForZeros(a, base) ensures Contents(b, Contents(a, base)) == Contents(a + b, base) {
      FlushInvisibleExactly(a, b, base);
    }
    if p: nat :| ByteOr(None, Contents(a, base), p) != ByteOr(None, base, p) {
      CutAndGrowShows(a, base, p);
    }
  }

  lemma CutAndGrowShows(a: seq<Op>, base: seq<byte>, p: nat)
    requires ByteOr(None, Contents(a, base), p) != ByteOr(None, base, p)
    ensures Contents([Truncate(0), Truncate(p + 1)], Contents(a, base)) != Contents(a + [Truncate(0), Truncate(p + 1)], base)
  {
    var b := [Truncate(0), Truncate(p + 1)];
    assert b[..1] == [Truncate(0)];
    AppendSize(a, b, |base|);
    assert LastWriter(b, p) == None && EverCut(b, p);
    assert FlushShows(a, b, base, p);
    FlushInvisibleExactly(a, b, base);
  }

  /** As long as nothing is cut off, a flush between two runs of calls is invisible ever after. */
  lemma FlushInvisible(a: seq<Op>, b: seq<Op>, base: seq<byte>)
    requires LowWater(a + b, |base|) == |base| && LowWater(a, |base|) == |base|
    requires LowWater(b, FileSize(a, |base|)) == FileSize(a, |base|)
    ensures Contents(b, Contents(a, base)) == Contents(a + b, base)
  {
    PosixIfNeverCut(a, base);
    PosixIfNeverCut(a + b, base);
    PosixIfNeverCut(b, Contents(a, base));
    PosixAppend(a, b, base);
  }

  /** After a cut a flush matters: it forgets the bytes that a later growth would show again. */
  lemma FlushForgetsCutBytes()
    ensures Contents([Truncate(0)] + [Truncate(2)], [1, 2]) == [1, 2]
    ensures Contents([Truncate(2)], Contents([Truncate(0)], [1, 2])) == [0, 0]
  {
    TruncateThenGrowShowsBase();
    assert [Truncate(0)] + [Truncate(2)] == [Truncate(0), Truncate(2)];
    assert Contents([Truncate(0)], [1, 2]) == [];
    var c := Contents([Truncate(2)], []);
    assert LastWriter([Truncate(2)], 0) == None && LastWriter([Truncate(2)], 1) == None;
    assert |c| == 2 && c[0] == 0 && c[1] == 0;
  }
}
