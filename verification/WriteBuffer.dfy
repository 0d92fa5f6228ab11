/**
 * The per-handle write overlay of src/cas/write_buffer.cpp: a sorted map of
 * dirty segments that every write coalesces, over a base blob that is never
 * touched until the flush in src/cas/daemon.cpp.
 */
module WriteBuffer {
  import opened CasTypes

  /** One entry of the overlay map: its key and its bytes. */
  datatype Segment = Segment(off: nat, data: seq<byte>) {
    function End(): nat { off + |data| }
    predicate Has(p: nat) { off <= p < End() }
  }

  // ---- the plain model: a history of calls -----------------------------------------

  datatype Op = Write(offset: nat, data: seq<byte>) | Truncate(newSize: nat)

  /** The byte the last call to touch position p left there, if one did. */
  function LastWriter(ops: seq<Op>, p: nat): Option<byte> {
    if ops == [] then None
    else
      var before := LastWriter(ops[..|ops| - 1], p);
      match ops[|ops| - 1]
      case Write(offset, data) => if offset <= p < offset + |data| then Some(data[p - offset]) else before
      case Truncate(n) => if p >= n then None else before
  }

  /** The file's size after the calls. */
  function FileSize(ops: seq<Op>, baseSize: nat): nat {
    if ops == [] then baseSize
    else
      var before := FileSize(ops[..|ops| - 1], baseSize);
      match ops[|ops| - 1]
      case Write(offset, data) => if data != [] && offset + |data| > before then offset + |data| else before
      case Truncate(n) => n
  }

  function ByteOr(written: Option<byte>, base: seq<byte>, p: nat): byte {
    match written
    case Some(b) => b
    case None => if p < |base| then base[p] else 0
  }

  /** What the handle shows: the last write of each byte, else the base, else zero. */
  function Contents(ops: seq<Op>, base: seq<byte>): (r: seq<byte>)
    ensures |r| == FileSize(ops, |base|)
  {
    seq(FileSize(ops, |base|), p requires 0 <= p => ByteOr(LastWriter(ops, p), base, p))
  }

  // ---- the overlay -----------------------------------------------------------------

  ghost predicate Sorted(ov: seq<Segment>) {
    && (forall i :: 0 <= i < |ov| ==> ov[i].data != [])
    && (forall i, j :: 0 <= i < j < |ov| ==> ov[i].End() < ov[j].off)
  }

  function SumSizes(ov: seq<Segment>): nat {
    if ov == [] then 0 else |ov[0].data| + SumSizes(ov[1..])
  }

  ghost function At(ov: seq<Segment>, p: nat): Option<byte> {
    if exists i :: 0 <= i < |ov| && ov[i].Has(p)
    then var i :| 0 <= i < |ov| && ov[i].Has(p); Some(ov[i].data[p - ov[i].off])
    else None
  }

  lemma AtIs(ov: seq<Segment>, i: nat, p: nat)
    requires Sorted(ov) && i < |ov| && ov[i].Has(p)
    ensures At(ov, p) == Some(ov[i].data[p - ov[i].off])
  {
    var j :| 0 <= j < |ov| && ov[j].Has(p) && At(ov, p) == Some(ov[j].data[p - ov[j].off]);
    if i < j {
      Apart(ov, i, j);
    } else if j < i {
      Apart(ov, j, i);
    }
  }

  lemma Apart(ov: seq<Segment>, i: nat, j: nat)
    requires Sorted(ov) && i < j < |ov|
    ensures ov[i].End() < ov[j].off && ov[i].off < ov[j].off && ov[i].End() < ov[j].End()
  {}

  lemma {:induction false} SumSplit(a: seq<Segment>, b: seq<Segment>)
    ensures SumSizes(a + b) == SumSizes(a) + SumSizes(b)
  {
    if a == [] {
      assert a + b == b;
    } else {
      SumSplit(a[1..], b);
      assert (a + b)[1..] == a[1..] + b;
    }
  }

  /** Replacing the segments from lo up to hi by one that stands clear of its neighbours. */
  ghost predicate Clear(ov: seq<Segment>, lo: nat, hi: nat, s: Segment) {
    && lo <= hi <= |ov| && s.data != []
    && (lo > 0 ==> ov[lo - 1].End() < s.off)
    && (hi < |ov| ==> s.End() < ov[hi].off)
  }

  function Replaced(ov: seq<Segment>, lo: nat, hi: nat, s: Segment): seq<Segment>
    requires lo <= hi <= |ov|
  {
    ov[..lo] + [s] + ov[hi..]
  }

  lemma ReplacedSorted(ov: seq<Segment>, lo: nat, hi: nat, s: Segment)
    requires Sorted(ov) && Clear(ov, lo, hi, s)
    ensures Sorted(Replaced(ov, lo, hi, s))
  {
    var r := Replaced(ov, lo, hi, s);
    forall i, j | 0 <= i < j < |r|
      ensures r[i].End() < r[j].off
    {
      var i' := if i < lo then i else i - lo - 1 + hi;
      var j' := if j < lo then j else j - lo - 1 + hi;
      if i < lo - 1 { Apart(ov, i, lo - 1); }
      if hi < j' < |ov| && lo < j { Apart(ov, hi, j'); }
      if i != lo && j != lo { Apart(ov, i', j'); }
    }
  }

  lemma ReplacedSum(ov: seq<Segment>, lo: nat, hi: nat, s: Segment)
    requires lo <= hi <= |ov|
    ensures SumSizes(ov[lo..hi]) <= SumSizes(ov)
    ensures SumSizes(Replaced(ov, lo, hi, s)) == SumSizes(ov) - SumSizes(ov[lo..hi]) + |s.data|
  {
    assert ov == ov[..lo] + ov[lo..hi] + ov[hi..];
    SumExchanged(ov[..lo], ov[lo..hi], ov[hi..], s);
  }

  lemma SumExchanged(a: seq<Segment>, b: seq<Segment>, c: seq<Segment>, s: Segment)
    ensures SumSizes(b) <= SumSizes(a + b + c)
    ensures SumSizes(a + [s] + c) == SumSizes(a + b + c) - SumSizes(b) + |s.data|
  {
    SumThree(a, b, c);
    SumThree(a, [s], c);
    SumOne(s);
  }

  lemma SumThree(a: seq<Segment>, b: seq<Segment>, c: seq<Segment>)
    ensures SumSizes(a + b + c) == SumSizes(a) + SumSizes(b) + SumSizes(c)
  {
    SumSplit(a + b, c);
    SumSplit(a, b);
  }

  lemma SumOne(s: Segment)
    ensures SumSizes([s]) == |s.data|
  {
    assert [s][1..] == [];
  }

  /** A position outside the new segment and outside the replaced ones reads as before. */
  lemma ReplacedAt(ov: seq<Segment>, lo: nat, hi: nat, s: Segment, p: nat)
    requires Sorted(ov) && Clear(ov, lo, hi, s)
    requires forall i :: lo <= i < hi && ov[i].Has(p) ==> s.Has(p)
    ensures At(Replaced(ov, lo, hi, s), p) == if s.Has(p) then Some(s.data[p - s.off]) else At(ov, p)
  {
    var r := Replaced(ov, lo, hi, s);
    ReplacedSorted(ov, lo, hi, s);
    if s.Has(p) {
      AtSame(r, lo, s, p);
    } else if i :| 0 <= i < |ov| && ov[i].Has(p) {
      AtIs(ov, i, p);
      AtSame(r, if i < lo then i else i - hi + lo + 1, ov[i], p);
    } else {
      forall k | 0 <= k < |r|
        ensures !r[k].Has(p)
      {
        assert r[k] == if k < lo then ov[k] else if k == lo then s else ov[k - lo - 1 + hi];
      }
    }
  }

  lemma AtSame(ov: seq<Segment>, i: nat, s: Segment, p: nat)
    requires Sorted(ov) && i < |ov| && ov[i] == s && s.Has(p)
    ensures At(ov, p) == Some(s.data[p - s.off])
  {
    AtIs(ov, i, p);
  }

  /** A write to offset..newEnd touches exactly the segments lo..hi, which reach from start to end with it. */
  ghost predicate Touches(ov: seq<Segment>, offset: nat, newEnd: nat, lo: nat, hi: nat, start: nat, end: nat) {
    && lo <= hi <= |ov| && start <= offset < newEnd <= end
    && (lo > 0 ==> ov[lo - 1].End() < start)
    && (hi < |ov| ==> end < ov[hi].off)
    && (forall i :: lo <= i < hi ==> start <= ov[i].off && ov[i].End() <= end)
    && (start < offset ==> lo < hi && ov[lo].off == start && ov[lo].End() >= offset)
    && (newEnd < end ==> lo < hi && ov[hi - 1].off <= newEnd && ov[hi - 1].End() == end)
  }

  /** The merged bytes: the new data, and elsewhere the old bytes of the touched segments. */
  ghost predicate MergedFrom(ov: seq<Segment>, offset: nat, data: seq<byte>, lo: nat, hi: nat, s: Segment)
    requires lo <= hi <= |ov|
  {
    && s.off <= offset && offset + |data| <= s.End()
    && (forall k :: 0 <= k < |data| ==> s.data[offset - s.off + k] == data[k])
    && (forall i, p: nat :: lo <= i < hi && ov[i].Has(p) && !(offset <= p < offset + |data|) && s.Has(p) ==>
          s.data[p - s.off] == ov[i].data[p - ov[i].off])
  }

  lemma WrittenAt(ov: seq<Segment>, lo: nat, hi: nat, s: Segment, offset: nat, data: seq<byte>, p: nat)
    requires Sorted(ov) && Touches(ov, offset, offset + |data|, lo, hi, s.off, s.End())
    requires MergedFrom(ov, offset, data, lo, hi, s)
    ensures At(Replaced(ov, lo, hi, s), p)
         == if offset <= p < offset + |data| then Some(data[p - offset]) else At(ov, p)
  {
    ReplacedAt(ov, lo, hi, s, p);
    if s.Has(p) && !(offset <= p < offset + |data|) {
      var i := if p < offset then lo else hi - 1;
      AtIs(ov, i, p);
    }
  }

  function LastEnd(ov: seq<Segment>): nat {
    if ov == [] then 0 else ov[|ov| - 1].End()
  }

  lemma ReplacedLastEnd(ov: seq<Segment>, offset: nat, newEnd: nat, lo: nat, hi: nat, s: Segment)
    requires Sorted(ov) && Touches(ov, offset, newEnd, lo, hi, s.off, s.End())
    ensures LastEnd(Replaced(ov, lo, hi, s)) >= newEnd
    ensures LastEnd(Replaced(ov, lo, hi, s)) == if newEnd > LastEnd(ov) then newEnd else LastEnd(ov)
  {
    var r := Replaced(ov, lo, hi, s);
    if hi < |ov| {
      assert r[|r| - 1] == ov[|ov| - 1];
      if hi < |ov| - 1 { Apart(ov, hi, |ov| - 1); }
    } else if lo < hi {
      assert ov[hi - 1].End() == LastEnd(ov);
    }
  }

  /** Cutting the overlay at n: whole segments past it go, the last one may be shortened. */
  ghost predicate CutFrom(ov: seq<Segment>, r: seq<Segment>, n: nat) {
    && |r| <= |ov|
    && (forall i :: |r| <= i < |ov| ==> ov[i].off >= n)
    && (forall i :: 0 <= i < |r| ==> r[i].off == ov[i].off < n && r[i].data <= ov[i].data)
    && (forall i :: 0 <= i < |r| ==> r[i].End() == if ov[i].End() > n then n else ov[i].End())
  }

  lemma CutAt(ov: seq<Segment>, r: seq<Segment>, n: nat, p: nat)
    requires Sorted(ov) && CutFrom(ov, r, n)
    ensures Sorted(r)
    ensures At(r, p) == if p >= n then None else At(ov, p)
  {
    assert Sorted(r) by {
      forall i, j | 0 <= i < j < |r|
        ensures r[i].End() < r[j].off
      {
        Apart(ov, i, j);
      }
    }
    if p < n {
      if i :| 0 <= i < |ov| && ov[i].Has(p) {
        AtIs(ov, i, p);
        assert i < |r| && r[i].Has(p);
        AtIs(r, i, p);
      } else {
        assert forall i :: 0 <= i < |r| && r[i].Has(p) ==> ov[i].Has(p);
      }
    } else {
      assert forall i :: 0 <= i < |r| ==> !r[i].Has(p);
    }
  }

  lemma RunStart(ov: seq<Segment>, lo: nat, start: nat)
    requires Sorted(ov) && (lo < |ov| ==> start <= ov[lo].off)
    ensures forall i :: lo <= i < |ov| ==> start <= ov[i].off
  {
    forall i | lo < i < |ov|
      ensures start <= ov[i].off
    {
      Apart(ov, lo, i);
    }
  }

  /** The segments from lo up to hi, taken into a range that grew from newEnd to end. */
  ghost predicate Run(ov: seq<Segment>, newEnd: nat, lo: nat, hi: nat, end: nat) {
    && lo <= hi <= |ov| && newEnd <= end
    && (forall i :: lo <= i < hi ==> ov[i].End() <= end)
    && (newEnd < end ==> lo < hi && ov[hi - 1].off <= newEnd && ov[hi - 1].End() == end)
  }

  lemma ExtendRun(ov: seq<Segment>, newEnd: nat, lo: nat, hi: nat, end: nat)
    requires Sorted(ov) && Run(ov, newEnd, lo, hi, end) && hi < |ov| && ov[hi].off <= end
    ensures Run(ov, newEnd, lo, hi + 1, if ov[hi].End() > end then ov[hi].End() else end)
    ensures SumSizes(ov[lo..hi + 1]) == SumSizes(ov[lo..hi]) + |ov[hi].data|
  {
    assert ov[lo..hi + 1] == ov[lo..hi] + [ov[hi]];
    SumSplit(ov[lo..hi], [ov[hi]]);
    SumOne(ov[hi]);
    if lo < hi {
      Apart(ov, hi - 1, hi);
    }
  }

  lemma RunTouches(ov: seq<Segment>, offset: nat, newEnd: nat, lo: nat, hi: nat, start: nat, end: nat)
    requires Sorted(ov) && Run(ov, newEnd, lo, hi, end) && Starts(ov, offset, lo, start) && offset < newEnd
    requires hi < |ov| ==> ov[hi].off > end
    ensures Touches(ov, offset, newEnd, lo, hi, start, end)
  {
    RunStart(ov, lo, start);
  }

  /** Segment lo is the first that reaches offset; the merged range starts at start. */
  ghost predicate Starts(ov: seq<Segment>, offset: nat, lo: nat, start: nat) {
    && lo <= |ov| && start <= offset
    && (lo > 0 ==> ov[lo - 1].End() < start)
    && (lo < |ov| ==> start <= ov[lo].off)
    && (start < offset ==> lo < |ov| && ov[lo].off == start && ov[lo].End() >= offset)
  }

  lemma MergedFromCopied(ov: seq<Segment>, offset: nat, data: seq<byte>, lo: nat, hi: nat, start: nat,
                         copied: seq<byte>, bytes: seq<byte>)
    requires lo <= hi <= |ov| && |copied| == |bytes| && start <= offset && offset + |data| <= start + |bytes|
    requires forall i :: lo <= i < hi ==> start <= ov[i].off && ov[i].End() <= start + |copied|
    requires forall i, p: nat :: lo <= i < hi && ov[i].Has(p) ==> copied[p - start] == ov[i].data[p - ov[i].off]
    requires bytes == copied[..offset - start] + data + copied[offset - start + |data|..]
    ensures MergedFrom(ov, offset, data, lo, hi, Segment(start, bytes))
  {}

  function EffectiveSizeOf(ov: seq<Segment>, sizeOverride: Option<nat>, base: nat): nat {
    if sizeOverride.Some? then sizeOverride.value
    else if LastEnd(ov) > base then LastEnd(ov)
    else base
  }

  /** The overlay and size override show exactly what the history of calls wrote. */
  ghost predicate Represents(ov: seq<Segment>, sizeOverride: Option<nat>, ops: seq<Op>) {
    && Sorted(ov)
    && (sizeOverride.Some? ==> LastEnd(ov) <= sizeOverride.value)
    && (forall p :: At(ov, p) == LastWriter(ops, p))
    && (forall n :: EffectiveSizeOf(ov, sizeOverride, n) == FileSize(ops, n))
  }

  lemma AfterWrite(ov: seq<Segment>, so: Option<nat>, ops: seq<Op>, offset: nat, data: seq<byte>,
                   lo: nat, hi: nat, s: Segment)
    requires Represents(ov, so, ops) && data != []
    requires Touches(ov, offset, offset + |data|, lo, hi, s.off, s.End()) && MergedFrom(ov, offset, data, lo, hi, s)
    ensures var newEnd := offset + |data|;
      Represents(Replaced(ov, lo, hi, s), if so.Some? && newEnd > so.value then Some(newEnd) else so,
                 ops + [Write(offset, data)])
    ensures SumSizes(ov[lo..hi]) <= SumSizes(ov)
    ensures SumSizes(Replaced(ov, lo, hi, s)) == SumSizes(ov) - SumSizes(ov[lo..hi]) + |s.data|
    ensures LastEnd(Replaced(ov, lo, hi, s)) >= offset + |data|
  {
    var ops' := ops + [Write(offset, data)];
    assert ops'[..|ops|] == ops;
    var ov' := Replaced(ov, lo, hi, s);
    ReplacedSum(ov, lo, hi, s);
    ReplacedSorted(ov, lo, hi, s);
    ReplacedLastEnd(ov, offset, offset + |data|, lo, hi, s);
    forall p: nat
      ensures At(ov', p) == LastWriter(ops', p)
    {
      WrittenAt(ov, lo, hi, s, offset, data, p);
    }
    var newEnd := offset + |data|;
    var so' := if so.Some? && newEnd > so.value then Some(newEnd) else so;
    forall n: nat
      ensures EffectiveSizeOf(ov', so', n) == FileSize(ops', n)
    {
      assert EffectiveSizeOf(ov, so, n) == FileSize(ops, n);
    }
  }

  lemma AfterEmptyWrite(ov: seq<Segment>, so: Option<nat>, ops: seq<Op>, offset: nat)
    requires Represents(ov, so, ops)
    ensures Represents(ov, so, ops + [Write(offset, [])])
  {
    var ops' := ops + [Write(offset, [])];
    assert ops'[..|ops|] == ops;
  }

  lemma AfterTruncate(ov: seq<Segment>, so: Option<nat>, ops: seq<Op>, n: nat, cut: seq<Segment>)
    requires Represents(ov, so, ops) && CutFrom(ov, cut, n)
    ensures Represents(cut, Some(n), ops + [Truncate(n)])
  {
    var ops' := ops + [Truncate(n)];
    assert ops'[..|ops|] == ops;
    forall p: nat
      ensures At(cut, p) == LastWriter(ops', p)
    {
      CutAt(ov, cut, n, p);
    }
    CutAt(ov, cut, n, 0);
  }

  lemma CutLast(ov: seq<Segment>, cut: seq<Segment>, n: nat, it: nat)
    requires Sorted(ov) && it <= |ov| && |cut| == it
    requires forall i :: 0 <= i < it ==> ov[i].off < n
    requires forall i :: it <= i < |ov| ==> ov[i].off >= n
    requires it > 0 ==> cut[..it - 1] == ov[..it - 1]
    requires it > 0 ==>
      cut[it - 1] == Segment(ov[it - 1].off, if ov[it - 1].End() > n then ov[it - 1].data[..n - ov[it - 1].off] else ov[it - 1].data)
    ensures CutFrom(ov, cut, n)
  {
    forall i | 0 <= i < it
      ensures cut[i].off == ov[i].off < n && cut[i].data <= ov[i].data
      ensures cut[i].End() == if ov[i].End() > n then n else ov[i].End()
    {
      if i < it - 1 {
        Apart(ov, i, it - 1);
        assert cut[i] == cut[..it - 1][i] == ov[i];
      }
    }
  }

  // ---- the class -------------------------------------------------------------------

  class WriteBuffer {
    const baseSize: nat
    var overlay: seq<Segment>
    var sizeOverride: Option<nat>
    var dirtyBytes: nat

    /** The writes and truncates since construction or the last clear. */
    ghost var history: seq<Op>

    ghost predicate Valid()
      reads this
    {
      && Represents(overlay, sizeOverride, history)
      && dirtyBytes == SumSizes(overlay)
    }

    constructor (baseSize: nat)
      ensures Valid() && history == []
    {
      this.baseSize := baseSize;
      overlay := [];
      sizeOverride := None;
      dirtyBytes := 0;
      history := [];
    }

    function EffectiveSize(base: nat): nat
      reads this
    {
      EffectiveSizeOf(overlay, sizeOverride, base)
    }

    /** Index of the first segment that starts after offset, or at it when `orAt`. */
    method Bound(offset: nat, orAt: bool) returns (it: nat)
      requires Sorted(overlay)
      ensures it <= |overlay|
      ensures forall i :: 0 <= i < it ==> overlay[i].off < offset || (!orAt && overlay[i].off == offset)
      ensures forall i :: it <= i < |overlay| ==> overlay[i].off > offset || (orAt && overlay[i].off == offset)
    {
      it := 0;
      while it < |overlay| && (overlay[it].off < offset || (!orAt && overlay[it].off == offset))
        invariant 0 <= it <= |overlay|
        invariant forall i :: 0 <= i < it ==> overlay[i].off < offset || (!orAt && overlay[i].off == offset)
      {
        it := it + 1;
      }
      forall i | it < i < |overlay|
        ensures overlay[i].off > offset
      {
        assert overlay[it].End() < overlay[i].off;
      }
    }

    /** First segment that reaches the start of a write, and where the merged range starts. */
    method MergeStart(offset: nat) returns (lo: nat, mergeStart: nat)
      requires Sorted(overlay)
      ensures Starts(overlay, offset, lo, mergeStart)
    {
      lo := Bound(offset, false);
      if lo != 0 {
        lo := lo - 1;
        if overlay[lo].End() < offset {
          lo := lo + 1;
        }
      }
      mergeStart := offset;
      if lo < |overlay| && overlay[lo].off < mergeStart {
        mergeStart := overlay[lo].off;
      }
      if 0 < lo < |overlay| {
        Apart(overlay, lo - 1, lo);
      }
    }

    /** The run of segments that overlap or touch a write, and the range it merges into. */
    method MergeRange(offset: nat, newEnd: nat)
      returns (lo: nat, hi: nat, mergeStart: nat, mergeEnd: nat, oldDirty: nat)
      requires Sorted(overlay) && offset < newEnd
      ensures Touches(overlay, offset, newEnd, lo, hi, mergeStart, mergeEnd)
      ensures oldDirty == SumSizes(overlay[lo..hi])
    {
      lo, mergeStart := MergeStart(offset);
      mergeEnd := newEnd;
      hi, oldDirty := lo, 0;
      while hi < |overlay| && overlay[hi].off <= mergeEnd
        invariant Run(overlay, newEnd, lo, hi, mergeEnd)
        invariant oldDirty == SumSizes(overlay[lo..hi])
      {
        ExtendRun(overlay, newEnd, lo, hi, mergeEnd);
        if overlay[hi].End() > mergeEnd {
          mergeEnd := overlay[hi].End();
        }
        oldDirty := oldDirty + |overlay[hi].data|;
        hi := hi + 1;
      }
      RunTouches(overlay, offset, newEnd, lo, hi, mergeStart, mergeEnd);
    }

    /** The merged segment: the old bytes of the run, overwritten by the new ones. */
    method MergedBytes(offset: nat, data: seq<byte>, lo: nat, hi: nat, mergeStart: nat, mergeEnd: nat)
      returns (bytes: seq<byte>)
      requires Sorted(overlay) && Touches(overlay, offset, offset + |data|, lo, hi, mergeStart, mergeEnd)
      ensures |bytes| == mergeEnd - mergeStart
      ensures MergedFrom(overlay, offset, data, lo, hi, Segment(mergeStart, bytes))
    {
      var merged := new byte[mergeEnd - mergeStart](_ => 0);
      CopyRun(merged, mergeStart, lo, hi);
      ghost var copied := merged[..];
      Overwrite(merged, offset - mergeStart, data);
      bytes := merged[..];
      MergedFromCopied(overlay, offset, data, lo, hi, mergeStart, copied, bytes);
    }

    /** memcpy of data into a at position at. */
    static method Overwrite(a: array<byte>, at: nat, data: seq<byte>)
      requires at + |data| <= a.Length
      modifies a
      ensures a[..] == old(a[..])[..at] + data + old(a[..])[at + |data|..]
    {
      forall k | 0 <= k < |data| {
        a[at + k] := data[k];
      }
    }

    /** Copies the segments from lo up to hi into a buffer that starts at mergeStart. */
    method CopyRun(merged: array<byte>, mergeStart: nat, lo: nat, hi: nat)
      requires Sorted(overlay) && lo <= hi <= |overlay|
      requires forall i :: lo <= i < hi ==> mergeStart <= overlay[i].off && overlay[i].End() <= mergeStart + merged.Length
      modifies merged
      ensures forall i, p: nat :: lo <= i < hi && overlay[i].Has(p) ==>
        merged[p - mergeStart] == overlay[i].data[p - overlay[i].off]
    {
      var j := lo;
      while j < hi
        invariant lo <= j <= hi
        invariant forall i, p: nat :: lo <= i < j && overlay[i].Has(p) ==>
          merged[p - mergeStart] == overlay[i].data[p - overlay[i].off]
      {
        var at, from := overlay[j].off - mergeStart, overlay[j].data;
        forall i | lo <= i < j
          ensures overlay[i].End() < overlay[j].off
        {
          Apart(overlay, i, j);
        }
        forall k | 0 <= k < |from| {
          merged[at + k] := from[k];
        }
        j := j + 1;
      }
    }

    method Write(offset: nat, data: seq<byte>)
      requires Valid()
      modifies this
      ensures Valid() && history == old(history) + [Op.Write(offset, data)]
    {
      if |data| == 0 {
        AfterEmptyWrite(overlay, sizeOverride, history, offset);
        history := history + [Op.Write(offset, [])];
        return;
      }
      Merge(offset, data);
    }

    /** A write of at least one byte. */
    method Merge(offset: nat, data: seq<byte>)
      requires Valid() && data != []
      modifies this
      ensures Valid() && history == old(history) + [Op.Write(offset, data)]
    {
      var lo, hi, mergeStart, mergeEnd, oldDirty := MergeRange(offset, offset + |data|);
      var bytes := MergedBytes(offset, data, lo, hi, mergeStart, mergeEnd);
      var s := Segment(mergeStart, bytes);
      AfterWrite(overlay, sizeOverride, history, offset, data, lo, hi, s);
      Install(offset, data, lo, hi, s, oldDirty);
    }

    /** The end of `Write`: swaps in the merged segment and grows a size that was set. */
    method Install(offset: nat, data: seq<byte>, lo: nat, hi: nat, s: Segment, oldDirty: nat)
      requires lo <= hi <= |overlay| && data != [] && oldDirty <= dirtyBytes
      requires LastEnd(Replaced(overlay, lo, hi, s)) >= offset + |data|
      modifies this
      ensures overlay == Replaced(old(overlay), lo, hi, s)
      ensures sizeOverride == if old(sizeOverride).Some? && offset + |data| > old(sizeOverride).value
                              then Some(offset + |data|) else old(sizeOverride)
      ensures dirtyBytes == old(dirtyBytes) - oldDirty + |s.data|
      ensures history == old(history) + [Op.Write(offset, data)]
    {
      var newEnd := offset + |data|;
      overlay := Replaced(overlay, lo, hi, s);
      dirtyBytes := dirtyBytes - oldDirty + |s.data|;
      var eff := EffectiveSize(baseSize);
      if newEnd > eff {
        sizeOverride := Some(newEnd);
      }
      history := history + [Op.Write(offset, data)];
    }

    method Truncate(newSize: nat)
      requires Valid()
      modifies this
      ensures Valid() && history == old(history) + [Op.Truncate(newSize)]
    {
      ghost var ov, so := overlay, sizeOverride;
      sizeOverride := Some(newSize);
      var it := Bound(newSize, true);
      EraseFrom(it);
      if overlay != [] {
        var last := overlay[|overlay| - 1];
        if last.End() > newSize {
          TrimLast(newSize);
        }
      }
      CutLast(ov, overlay, newSize, it);
      AfterTruncate(ov, so, history, newSize, overlay);
      history := history + [Op.Truncate(newSize)];
    }

    /** The erase loop of `Truncate`. */
    method EraseFrom(it: nat)
      requires it <= |overlay| && dirtyBytes == SumSizes(overlay)
      modifies this`overlay, this`dirtyBytes
      ensures overlay == old(overlay)[..it] && dirtyBytes == SumSizes(overlay)
    {
      while it < |overlay|
        invariant it <= |overlay| && dirtyBytes == SumSizes(overlay)
        invariant overlay[..it] == old(overlay)[..it]
        decreases |overlay|
      {
        var gone := overlay[it];
        assert overlay == overlay[..it] + [gone] + overlay[it + 1..];
        SumThree(overlay[..it], [gone], overlay[it + 1..]);
        SumSplit(overlay[..it], overlay[it + 1..]);
        SumOne(gone);
        dirtyBytes := dirtyBytes - |gone.data|;
        overlay := overlay[..it] + overlay[it + 1..];
      }
    }

    /** Shortens the last segment so that it ends at newSize. */
    method TrimLast(newSize: nat)
      requires overlay != [] && dirtyBytes == SumSizes(overlay)
      requires overlay[|overlay| - 1].off <= newSize <= overlay[|overlay| - 1].End()
      modifies this`overlay, this`dirtyBytes
      ensures dirtyBytes == SumSizes(overlay)
      ensures var n := |old(overlay)| - 1;
        overlay == old(overlay)[..n] + [Segment(old(overlay)[n].off, old(overlay)[n].data[..newSize - old(overlay)[n].off])]
    {
      var n := |overlay| - 1;
      var last := overlay[n];
      var cut := Segment(last.off, last.data[..newSize - last.off]);
      assert overlay == overlay[..n] + [last];
      SumSplit(overlay[..n], [last]);
      SumSplit(overlay[..n], [cut]);
      SumOne(last);
      SumOne(cut);
      dirtyBytes := dirtyBytes - |last.data|;
      overlay := overlay[..n] + [cut];
      dirtyBytes := dirtyBytes + |cut.data|;
    }

    method Clear()
      modifies this
      ensures Valid() && history == []
      ensures overlay == [] && sizeOverride == None && dirtyBytes == 0
    {
      overlay := [];
      sizeOverride := None;
      dirtyBytes := 0;
      history := [];
    }

    /** Reads len bytes at offset through the overlay, short at the end of the file. */
    method Read(offset: nat, len: nat, base: seq<byte>) returns (out: seq<byte>)
      requires Valid()
      ensures var size := FileSize(history, |base|);
        out == if offset >= size then []
               else Contents(history, base)[offset..if offset + len <= size then offset + len else size]
    {
      var eff := EffectiveSize(|base|);
      if offset >= eff {
        return [];
      }
      var avail := if len < eff - offset then len else eff - offset;
      var buf := new byte[avail](_ => 0);
      var i := 0;
      while i < avail
        invariant 0 <= i <= avail
        invariant forall k :: 0 <= k < i ==> buf[k] == ByteOr(None, base, offset + k)
      {
        var pos := offset + i;
        buf[i] := if pos < |base| then base[pos] else 0;
        i := i + 1;
      }
      OverlayOnto(buf, offset, base);
      out := buf[..];
    }

    /** Copies the part of one segment that falls into from..from + buf.Length over buf. */
    method CopyClipped(buf: array<byte>, from: nat, s: Segment)
      modifies buf
      ensures forall k :: 0 <= k < buf.Length ==>
        buf[k] == if s.Has(from + k) then s.data[from + k - s.off] else old(buf[k])
    {
      var reqEnd := from + buf.Length;
      if s.End() <= from || s.off >= reqEnd {
        return;
      }
      var copyStart := if s.off > from then s.off else from;
      var copyEnd := if s.End() < reqEnd then s.End() else reqEnd;
      forall k | copyStart - from <= k < copyEnd - from {
        buf[k] := s.data[from + k - s.off];
      }
    }

    /** Copies the part of every segment that falls into from..from + buf.Length over buf. */
    method OverlayOnto(buf: array<byte>, from: nat, ghost base: seq<byte>)
      requires Valid()
      requires forall k :: 0 <= k < buf.Length ==> buf[k] == ByteOr(None, base, from + k)
      modifies buf
      ensures forall k :: 0 <= k < buf.Length ==> buf[k] == ByteOr(LastWriter(history, from + k), base, from + k)
    {
      var j := 0;
      while j < |overlay|
        invariant 0 <= j <= |overlay|
        invariant forall k :: 0 <= k < buf.Length ==> buf[k] == ByteOr(At(overlay[..j], from + k), base, from + k)
      {
        var s := overlay[j];
        CopyClipped(buf, from, s);
        PrefixAtAll(overlay, j);
        j := j + 1;
      }
      assert overlay[..j] == overlay;
    }

    /** The whole file with the overlay applied. */
    method Materialize(base: seq<byte>) returns (out: seq<byte>)
      requires Valid()
      ensures out == Contents(history, base)
    {
      var eff := EffectiveSize(|base|);
      var result := new byte[eff](_ => 0);
      forall i | 0 <= i < eff && i < |base| {
        result[i] := base[i];
      }
      var j := 0;
      while j < |overlay|
        invariant 0 <= j <= |overlay|
        invariant forall k :: 0 <= k < eff ==> result[k] == ByteOr(At(overlay[..j], k), base, k)
      {
        var s := overlay[j];
        EndsWithin(overlay, j);
        var copyLen := if |s.data| < eff - s.off then |s.data| else eff - s.off;
        forall k | 0 <= k < copyLen {
          result[s.off + k] := s.data[k];
        }
        PrefixAtAll(overlay, j);
        j := j + 1;
      }
      assert overlay[..j] == overlay;
      out := result[..];
    }
  }

  lemma EndsWithin(ov: seq<Segment>, j: nat)
    requires Sorted(ov) && j < |ov|
    ensures ov[j].End() <= LastEnd(ov)
  {
    if j < |ov| - 1 { Apart(ov, j, |ov| - 1); }
  }

  lemma PrefixAtAll(ov: seq<Segment>, j: nat)
    requires Sorted(ov) && j < |ov|
    ensures forall p: nat {:trigger At(ov[..j + 1], p)} ::
      At(ov[..j + 1], p) == if ov[j].Has(p) then Some(ov[j].data[p - ov[j].off]) else At(ov[..j], p)
  {
    forall p: nat
      ensures At(ov[..j + 1], p) == if ov[j].Has(p) then Some(ov[j].data[p - ov[j].off]) else At(ov[..j], p)
    {
      PrefixAt(ov, j, p);
    }
  }

  lemma PrefixAt(ov: seq<Segment>, j: nat, p: nat)
    requires Sorted(ov) && j < |ov|
    ensures At(ov[..j + 1], p) == if ov[j].Has(p) then Some(ov[j].data[p - ov[j].off]) else At(ov[..j], p)
  {
    var a, b := ov[..j], ov[..j + 1];
    assert Sorted(a) && Sorted(b) && b == a + [ov[j]];
    if ov[j].Has(p) {
      AtIs(b, j, p);
    } else if i :| 0 <= i < |a| && a[i].Has(p) {
      AtIs(a, i, p);
      AtIs(b, i, p);
    } else {
      assert forall i :: 0 <= i < |b| && b[i].Has(p) ==> i == j;
    }
  }
}
