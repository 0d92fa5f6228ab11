/**
 * The wide subtree compressor of include/blake3/blake3.c: it hashes many chunks
 * at once, carries an array of chaining values up the tree one level at a time,
 * and stops at the two children of the subtree's top node.
 */
module Blake3Wide {
  import opened Bits
  import opened Blake3Spec
  import opened Blake3Chunk

  // ---- rows of chaining values -------------------------------------------------

  /** The chaining values of the chunks of input, left to right. */
  function ChunkCvs(m: Config, input: seq<byte>, counter: nat): (cvs: seq<CV>)
    requires |input| > 0
    ensures |cvs| == (|input| + 1023) / 1024
    decreases |input|
  {
    if |input| <= CHUNK_LEN then [TreeCv(m, input, counter)]
    else [TreeCv(m, input[..CHUNK_LEN], counter)] + ChunkCvs(m, input[CHUNK_LEN..], counter + 1)
  }

  /** One level up: neighbours become parents and an odd last value is passed on. */
  function PairUp(m: Config, cvs: seq<CV>): (r: seq<CV>)
    ensures |r| == (|cvs| + 1) / 2
  {
    if |cvs| < 2 then cvs
    else [ParentCv(m, cvs[0], cvs[1])] + PairUp(m, cvs[2..])
  }

  /** Where the tree over n leaves splits: the largest power of two below n. */
  function SplitAt(n: nat): (s: nat)
    requires n >= 2
    ensures 1 <= s < n
  {
    Log2Bounds(n - 1);
    Pow2(Log2(n - 1))
  }

  /** The chaining value on top of a row of leaves. */
  function TopCv(m: Config, cvs: seq<CV>): CV
    requires |cvs| > 0
  {
    if |cvs| == 1 then cvs[0]
    else
      var s := SplitAt(|cvs|);
      ParentCv(m, TopCv(m, cvs[..s]), TopCv(m, cvs[s..]))
  }

  /** The row carries the two given values just below its top. */
  ghost predicate TopPair(m: Config, cvs: seq<CV>, left: CV, right: CV) {
    |cvs| >= 2 && left == TopCv(m, cvs[..SplitAt(|cvs|)]) && right == TopCv(m, cvs[SplitAt(|cvs|)..])
  }

  lemma SplitAtIs(s: nat, n: nat)
    requires IsPow2(s) && s < n <= 2 * s
    ensures n >= 2 && SplitAt(n) == s
  {
    Log2Bounds(n - 1);
    Pow2IsPow2(Log2(n - 1));
    Pow2Unique(s, Pow2(Log2(n - 1)), n - 1);
  }

  lemma SplitAtShape(n: nat)
    requires n >= 2
    ensures IsPow2(SplitAt(n)) && SplitAt(n) < n <= 2 * SplitAt(n)
  {
    Log2Bounds(n - 1);
    Pow2IsPow2(Log2(n - 1));
  }

  /** Pairing up distributes over a split at an even place. */
  lemma {:induction false} PairUpSplit(m: Config, a: seq<CV>, b: seq<CV>)
    requires |a| % 2 == 0
    ensures PairUp(m, a + b) == PairUp(m, a) + PairUp(m, b)
  {
    if a == [] {
      assert a + b == b;
    } else {
      PairUpSplit(m, a[2..], b);
      assert (a + b)[2..] == a[2..] + b;
    }
  }

  /** Going one level up keeps the top of a row of more than two. */
  lemma {:induction false} PairUpKeepsTop(m: Config, cvs: seq<CV>)
    requires |cvs| > 0
    ensures TopCv(m, PairUp(m, cvs)) == TopCv(m, cvs)
    ensures |cvs| > 2 ==> exists l, r :: TopPair(m, cvs, l, r) && TopPair(m, PairUp(m, cvs), l, r)
    decreases |cvs|
  {
    if |cvs| > 2 {
      var s := SplitAt(|cvs|);
      SplitAtShape(|cvs|);
      var a, b := cvs[..s], cvs[s..];
      assert cvs == a + b;
      assert s >= 2;
      PairUpSplit(m, a, b);
      PairUpKeepsTop(m, a);
      PairUpKeepsTop(m, b);
      var up := PairUp(m, cvs);
      SplitAtIs(s / 2, |up|);
      assert up[..s / 2] == PairUp(m, a) && up[s / 2..] == PairUp(m, b);
      assert TopPair(m, cvs, TopCv(m, a), TopCv(m, b));
      assert TopPair(m, up, TopCv(m, a), TopCv(m, b));
    } else if |cvs| == 2 {
      assert PairUp(m, cvs[2..]) == [];
      assert cvs[..1] == [cvs[0]] && cvs[1..] == [cvs[1]];
      SplitAtIs(1, 2);
    }
  }

  lemma PairUpKeepsTopPair(m: Config, cvs: seq<CV>, l: CV, r: CV)
    requires |cvs| > 2 && TopPair(m, cvs, l, r)
    ensures TopPair(m, PairUp(m, cvs), l, r)
  {
    PairUpKeepsTop(m, cvs);
  }

  /** Two rows side by side, the left one full, have their own tops just below the joint top. */
  lemma RowsJoin(m: Config, a: seq<CV>, b: seq<CV>)
    requires IsPow2(|a|) && 0 < |b| <= |a|
    ensures TopPair(m, a + b, TopCv(m, a), TopCv(m, b))
    ensures TopCv(m, a + b) == ParentCv(m, TopCv(m, a), TopCv(m, b))
  {
    SplitAtIs(|a|, |a| + |b|);
    assert (a + b)[..|a|] == a && (a + b)[|a|..] == b;
  }

  /** The chunks of whole leading chunks and of the rest are the chunks of all. */
  lemma {:induction false} ChunkCvsSplit(m: Config, input: seq<byte>, counter: nat, s: nat)
    requires s > 0 && 1024 * s < |input|
    ensures ChunkCvs(m, input, counter)
         == ChunkCvs(m, input[..1024 * s], counter) + ChunkCvs(m, input[1024 * s..], counter + s)
    decreases s
  {
    if s > 1 {
      var rest := input[CHUNK_LEN..];
      ChunkCvsSplit(m, rest, counter + 1, s - 1);
      assert input[..1024 * s][..CHUNK_LEN] == input[..CHUNK_LEN];
      assert input[..1024 * s][CHUNK_LEN..] == rest[..1024 * (s - 1)];
      assert rest[1024 * (s - 1)..] == input[1024 * s..];
    }
  }

  /** The children of the top node of the tree over input. */
  function LeftCv(m: Config, input: seq<byte>, counter: nat): CV
    requires |input| > CHUNK_LEN
  {
    TreeCv(m, input[..LeftLen(|input|)], counter)
  }

  function RightCv(m: Config, input: seq<byte>, counter: nat): CV
    requires |input| > CHUNK_LEN
  {
    var l := LeftLen(|input|);
    TreeCv(m, input[l..], counter + l / 1024)
  }

  lemma TreeSplit(m: Config, input: seq<byte>, counter: nat) returns (s: nat)
    requires |input| > CHUNK_LEN
    ensures IsPow2(s) && 1024 * s == LeftLen(|input|) && 1024 * s < |input| <= 2048 * s
    ensures LeftCv(m, input, counter) == TreeCv(m, input[..1024 * s], counter)
    ensures RightCv(m, input, counter) == TreeCv(m, input[1024 * s..], counter + s)
    ensures TreeCv(m, input, counter) == ParentCv(m, LeftCv(m, input, counter), RightCv(m, input, counter))
  {
    s := LeftLenShape(|input|);
  }

  /** The row has the tree of the definition on top, and its children just below. */
  ghost predicate RowTop(m: Config, input: seq<byte>, counter: nat, cvs: seq<CV>)
    requires |cvs| > 0
  {
    && TopCv(m, cvs) == TreeCv(m, input, counter)
    && (|input| > CHUNK_LEN ==> TopPair(m, cvs, LeftCv(m, input, counter), RightCv(m, input, counter)))
  }

  /** Rows for the two sides of a split, side by side, are a row for the whole. */
  lemma RowTopJoin(m: Config, input: seq<byte>, counter: nat, a: seq<CV>, b: seq<CV>)
    requires |input| > CHUNK_LEN
    requires IsPow2(|a|) && 0 < |b| <= |a|
    requires TopCv(m, a) == LeftCv(m, input, counter) && TopCv(m, b) == RightCv(m, input, counter)
    ensures RowTop(m, input, counter, a + b)
  {
    var s := TreeSplit(m, input, counter);
    RowsJoin(m, a, b);
  }

  /** The row of chunks is a row for the input. */
  lemma {:induction false} ChunkRowTop(m: Config, input: seq<byte>, counter: nat)
    requires |input| > 0
    ensures RowTop(m, input, counter, ChunkCvs(m, input, counter))
    decreases |input|
  {
    if |input| <= CHUNK_LEN {
      assert TopCv(m, [TreeCv(m, input, counter)]) == TreeCv(m, input, counter);
    } else {
      var s := TreeSplit(m, input, counter);
      var left, right := input[..1024 * s], input[1024 * s..];
      var a, b := ChunkCvs(m, left, counter), ChunkCvs(m, right, counter + s);
      assert |a| == s && 0 < |b| <= s;
      assert TopCv(m, a) == LeftCv(m, input, counter) by {
        ChunkRowTop(m, left, counter);
      }
      assert TopCv(m, b) == RightCv(m, input, counter) by {
        ChunkRowTop(m, right, counter + s);
      }
      RowTopJoin(m, input, counter, a, b);
      ChunkCvsSplit(m, input, counter, s);
    }
  }

  // ---- the parallel steps ------------------------------------------------------

  function ChunkCount(len: nat): nat {
    (len + 1023) / 1024
  }

  lemma {:induction false} ChunkCvsAt(m: Config, input: seq<byte>, counter: nat, i: nat)
    requires |input| > 0 && i < ChunkCount(|input|)
    ensures var last := if 1024 * (i + 1) <= |input| then 1024 * (i + 1) else |input|;
      ChunkCvs(m, input, counter)[i] == TreeCv(m, input[1024 * i..last], counter + i)
    decreases i
  {
    if i > 0 {
      var rest := input[CHUNK_LEN..];
      ChunkCvsAt(m, rest, counter + 1, i - 1);
      var last := if 1024 * (i + 1) <= |input| then 1024 * (i + 1) else |input|;
      assert rest[1024 * (i - 1)..last - CHUNK_LEN] == input[1024 * i..last];
      assert ChunkCvs(m, input, counter)[i] == ChunkCvs(m, rest, counter + 1)[i - 1];
    } else if |input| <= CHUNK_LEN {
      assert input[0..|input|] == input;
    }
  }

  /** Row out[off..off + n] holds the chaining values of the first n chunks of input. */
  ghost predicate ChunksDone(m: Config, input: seq<byte>, counter: nat, out: array<CV>, off: nat, n: nat)
    requires 0 < |input| && n <= ChunkCount(|input|) && off + n <= out.Length
    reads out
  {
    forall i :: 0 <= i < n ==> out[off + i] == ChunkCvs(m, input, counter)[i]
  }

  method CompressChunksParallel(m: Config, input: seq<byte>, counter: nat, out: array<CV>, off: nat)
    returns (n: nat)
    requires 0 < |input| && off + ChunkCount(|input|) <= out.Length
    modifies out
    ensures n == ChunkCount(|input|)
    ensures out[off..off + n] == ChunkCvs(m, input, counter)
    ensures forall i :: 0 <= i < out.Length && !(off <= i < off + n) ==> out[i] == old(out[i])
  {
    n := CompressWholeChunks(m, input, counter, out, off);
    var pos := 1024 * n;
    if |input| > pos {
      var cv := HashChunk(m, input[pos..], counter + n);
      ChunkCvsAt(m, input, counter, n);
      assert input[pos..] == input[pos..|input|];
      out[off + n] := cv;
      n := n + 1;
    }
    assert ChunksDone(m, input, counter, out, off, n);
  }

  /** One chunk through a chunk state of its own. */
  method HashChunk(m: Config, chunk: seq<byte>, counter: nat) returns (cv: CV)
    requires 0 < |chunk| <= CHUNK_LEN
    ensures cv == TreeCv(m, chunk, counter)
  {
    var state := new ChunkState(m, counter);
    state.Update(chunk);
    var o := state.GetOutput();
    assert [] + chunk == chunk;
    cv := ChainingValue(m, o);
  }

  /** The loop of `CompressChunksParallel`: all whole chunks go to one hash_many call. */
  method CompressWholeChunks(m: Config, input: seq<byte>, counter: nat, out: array<CV>, off: nat)
    returns (n: nat)
    requires 0 < |input| && off + ChunkCount(|input|) <= out.Length
    modifies out
    ensures n == |input| / 1024 && ChunksDone(m, input, counter, out, off, n)
    ensures forall i :: 0 <= i < out.Length && !(off <= i < off + n) ==> out[i] == old(out[i])
  {
    var chunks: seq<seq<byte>> := [];
    var pos := 0;
    while |input| - pos >= CHUNK_LEN
      invariant 0 <= pos <= |input| && pos == 1024 * |chunks|
      invariant forall i :: 0 <= i < |chunks| ==>
        |chunks[i]| == CHUNK_LEN && chunks[i] == input[1024 * i..1024 * (i + 1)]
    {
      chunks := chunks + [input[pos..pos + CHUNK_LEN]];
      pos := pos + CHUNK_LEN;
    }
    HashMany(m, chunks, 16, counter, true, m.flags, CHUNK_START, CHUNK_END, out, off);
    n := |chunks|;
    forall i | 0 <= i < |chunks|
      ensures out[off + i] == ChunkCvs(m, input, counter)[i]
    {
      FullChunkRun(m, chunks[i], counter + i);
      ChunkCvsAt(m, input, counter, i);
    }
  }

  method CompressParentsParallel(m: Config, cvs: array<CV>, count: nat, out: array<CV>, off: nat)
    returns (n: nat)
    requires 2 <= count <= cvs.Length && off + (count + 1) / 2 <= out.Length && cvs != out
    modifies out
    ensures n == (count + 1) / 2
    ensures out[off..off + n] == PairUp(m, cvs[..count])
    ensures forall i :: 0 <= i < out.Length && !(off <= i < off + n) ==> out[i] == old(out[i])
  {
    var parents: seq<seq<byte>> := [];
    while count - 2 * |parents| >= 2
      invariant 2 * |parents| <= count
      invariant forall i :: 0 <= i < |parents| ==>
        |parents[i]| == BLOCK_LEN && parents[i] == ParentBlock(cvs[2 * i], cvs[2 * i + 1])
    {
      var i := |parents|;
      parents := parents + [ParentBlock(cvs[2 * i], cvs[2 * i + 1])];
    }
    HashMany(m, parents, 1, 0, false, m.flags + PARENT, {}, {}, out, off);
    n := |parents|;
    forall i | 0 <= i < |parents|
      ensures out[off + i] == PairUp(m, cvs[..count])[i]
    {
      ParentRun(m, cvs[2 * i], cvs[2 * i + 1]);
      PairUpAt(m, cvs[..count], i);
    }
    if count > 2 * n {
      out[off + n] := cvs[2 * n];
      PairUpAt(m, cvs[..count], n);
      n := n + 1;
    }
  }

  lemma {:induction false} PairUpAt(m: Config, cvs: seq<CV>, i: nat)
    requires 2 * i < |cvs|
    ensures PairUp(m, cvs)[i] == if 2 * i + 1 < |cvs| then ParentCv(m, cvs[2 * i], cvs[2 * i + 1]) else cvs[2 * i]
  {
    if i > 0 {
      PairUpAt(m, cvs[2..], i - 1);
    }
  }

  // ---- the wide recursion ------------------------------------------------------

  /** Room for the outputs of one call: the SIMD degree, but at least two. */
  function DegreeOr2(m: Config): nat {
    if m.simdDegree == 1 then 2 else m.simdDegree
  }

  function MaxDegreeOr2(m: Config): nat {
    if m.maxSimdDegree > 2 then m.maxSimdDegree else 2
  }

  /**
   * How wide a row one wide call leaves: no wider than the degree, and exactly
   * as wide as the degree over a full subtree.
   */
  ghost predicate RowWidth(m: Config, len: nat, n: nat) {
    && 0 < n <= DegreeOr2(m)
    && (len <= 1024 * m.simdDegree ==> n == ChunkCount(len))
    && (len > CHUNK_LEN ==> n >= 2)
    && (forall s: nat {:trigger IsPow2(s)} :: IsPow2(s) && s >= m.simdDegree && len == 1024 * s ==>
          n == if s == 1 then 1 else DegreeOr2(m))
  }

  lemma BaseRow(m: Config, input: seq<byte>, counter: nat, row: seq<CV>)
    requires m.Valid() && 0 < |input| <= 1024 * m.simdDegree && row == ChunkCvs(m, input, counter)
    ensures RowWidth(m, |input|, |row|) && RowTop(m, input, counter, row)
  {
    ChunkRowTop(m, input, counter);
  }

  /** The left child's row fills exactly the slots reserved for it. */
  lemma LeftFillsItsSlots(m: Config, len: nat, s: nat, degree: nat, leftN: nat)
    requires m.Valid() && len > 1024 * m.simdDegree
    requires IsPow2(s) && 1024 * s < len <= 2048 * s
    requires degree == if 1024 * s > CHUNK_LEN && m.simdDegree == 1 then 2 else m.simdDegree
    requires RowWidth(m, 1024 * s, leftN)
    ensures s >= m.simdDegree && leftN == degree && IsPow2(degree) && degree <= DegreeOr2(m)
    ensures leftN == if s > 1 then DegreeOr2(m) else 1
  {
    if s < m.simdDegree {
      Pow2Gap(s, m.simdDegree);
    }
    assert IsPow2(2);
  }

  /** The right row fits beside the left one, and the joint row has a legal width. */
  lemma JoinWidths(m: Config, len: nat, s: nat, leftN: nat, rightN: nat)
    requires m.Valid() && len > 1024 * m.simdDegree
    requires IsPow2(s) && s >= m.simdDegree && 1024 * s < len <= 2048 * s
    requires leftN == if s > 1 then DegreeOr2(m) else 1
    requires RowWidth(m, len - 1024 * s, rightN)
    ensures 0 < rightN <= leftN
    ensures RowWidth(m, len, if leftN == 1 then 2 else (leftN + rightN + 1) / 2)
  {
    forall t: nat | IsPow2(t) && t >= m.simdDegree && len == 1024 * t
      ensures t == 2 * s && rightN == leftN
    {
      Pow2Gap(s, t);
      assert IsPow2(s);
    }
  }

  /** Writes a row for input into out from slot off on, and returns its width. */
  method CompressSubtreeWide(m: Config, input: seq<byte>, counter: nat, out: array<CV>, off: nat)
    returns (n: nat)
    requires m.Valid() && 0 < |input| && off + DegreeOr2(m) <= out.Length
    modifies out
    ensures RowWidth(m, |input|, n) && RowTop(m, input, counter, out[off..off + n])
    ensures forall i :: 0 <= i < off ==> out[i] == old(out[i])
    decreases |input|, 1
  {
    if |input| <= m.simdDegree * 1024 {
      n := CompressChunksParallel(m, input, counter, out, off);
      BaseRow(m, input, counter, out[off..off + n]);
      return;
    }
    var degree := m.simdDegree;
    if LeftLen(|input|) > CHUNK_LEN && degree == 1 {
      degree := 2;
    }
    var cvArray := new CV[2 * MaxDegreeOr2(m)];
    var leftN, rightN := CompressChildren(m, input, counter, degree, cvArray);
    n := MergeRows(m, input, counter, cvArray, leftN, rightN, out, off);
  }

  /** Both children of a wide call, the right one written from slot degree on. */
  method CompressChildren(m: Config, input: seq<byte>, counter: nat, degree: nat, cvArray: array<CV>)
    returns (leftN: nat, rightN: nat)
    requires m.Valid() && |input| > 1024 * m.simdDegree && cvArray.Length == 2 * MaxDegreeOr2(m)
    requires degree == if LeftLen(|input|) > CHUNK_LEN && m.simdDegree == 1 then 2 else m.simdDegree
    modifies cvArray
    ensures leftN == degree && 0 < rightN <= leftN && leftN + rightN <= cvArray.Length
    ensures RowWidth(m, |input|, if leftN == 1 then 2 else (leftN + rightN + 1) / 2)
    ensures RowTop(m, input, counter, cvArray[..leftN + rightN])
    decreases |input|, 0
  {
    var leftLen := LeftLen(|input|);
    leftN := CompressChild(m, input[..leftLen], counter, cvArray, 0);
    ghost var left := cvArray[..leftN];
    assert cvArray[0..0 + leftN] == left;
    rightN := CompressChild(m, input[leftLen..], counter + leftLen / 1024, cvArray, degree);
    ghost var right := cvArray[degree..degree + rightN];
    JoinSlots(cvArray, left, degree, rightN);
    JoinChildren(m, input, counter, leftLen, degree, left, right, cvArray[..leftN + rightN]);
  }

  lemma JoinSlots(a: array<CV>, left: seq<CV>, degree: nat, rightN: nat)
    requires |left| + rightN <= a.Length && degree + rightN <= a.Length
    requires forall i :: 0 <= i < |left| && i < degree ==> a[i] == left[i]
    ensures |left| == degree ==> a[..|left| + rightN] == left + a[degree..degree + rightN]
  {}

  lemma JoinChildren(m: Config, input: seq<byte>, counter: nat, l: nat, degree: nat,
                     left: seq<CV>, right: seq<CV>, row: seq<CV>)
    requires m.Valid() && |input| > 1024 * m.simdDegree && left != [] && right != []
    requires l == LeftLen(|input|)
    requires degree == if l > CHUNK_LEN && m.simdDegree == 1 then 2 else m.simdDegree
    requires RowWidth(m, |input[..l]|, |left|) && TopCv(m, left) == TreeCv(m, input[..l], counter)
    requires RowWidth(m, |input[l..]|, |right|)
    requires TopCv(m, right) == TreeCv(m, input[l..], counter + l / 1024)
    requires |left| == degree ==> row == left + right
    ensures |left| == degree && |right| <= |left| && row == left + right
    ensures RowWidth(m, |input|, if |left| == 1 then 2 else (|left| + |right| + 1) / 2)
    ensures RowTop(m, input, counter, row)
  {
    var s := LeftLenShape(|input|);
    LeftFillsItsSlots(m, |input|, s, degree, |left|);
    JoinWidths(m, |input|, s, |left|, |right|);
    RowTopJoin(m, input, counter, left, right);
  }

  /** A recursive wide call; of its row only the top matters to the parent. */
  method CompressChild(m: Config, input: seq<byte>, counter: nat, out: array<CV>, off: nat)
    returns (n: nat)
    requires m.Valid() && 0 < |input| && off + DegreeOr2(m) <= out.Length
    modifies out
    ensures RowWidth(m, |input|, n)
    ensures TopCv(m, out[off..off + n]) == TreeCv(m, input, counter)
    ensures forall i :: 0 <= i < off ==> out[i] == old(out[i])
    decreases |input|, 2
  {
    n := CompressSubtreeWide(m, input, counter, out, off);
  }

  /** The end of a wide call: two single values are returned as they are, a wider row goes up one level. */
  method MergeRows(m: Config, ghost input: seq<byte>, ghost counter: nat,
                   cvArray: array<CV>, leftN: nat, rightN: nat, out: array<CV>, off: nat) returns (n: nat)
    requires 0 < rightN <= leftN && leftN + rightN <= cvArray.Length && cvArray != out
    requires off + (if leftN == 1 then 2 else (leftN + rightN + 1) / 2) <= out.Length
    requires RowTop(m, input, counter, cvArray[..leftN + rightN])
    modifies out
    ensures n == if leftN == 1 then 2 else (leftN + rightN + 1) / 2
    ensures RowTop(m, input, counter, out[off..off + n])
    ensures forall i :: 0 <= i < off ==> out[i] == old(out[i])
  {
    if leftN == 1 {
      out[off] := cvArray[0];
      out[off + 1] := cvArray[1];
      assert out[off..off + 2] == cvArray[..2];
      return 2;
    }
    PairUpKeepsRowTop(m, input, counter, cvArray[..leftN + rightN]);
    n := CompressParentsParallel(m, cvArray, leftN + rightN, out, off);
  }

  lemma PairUpKeepsRowTop(m: Config, input: seq<byte>, counter: nat, row: seq<CV>)
    requires |row| > 2 && RowTop(m, input, counter, row)
    ensures RowTop(m, input, counter, PairUp(m, row))
  {
    PairUpKeepsTop(m, row);
  }

  /** The two children of the top node of input, not yet merged. */
  method CompressSubtreeToParentNode(m: Config, input: seq<byte>, counter: nat) returns (left: CV, right: CV)
    requires m.Valid() && |input| > CHUNK_LEN
    ensures left == LeftCv(m, input, counter) && right == RightCv(m, input, counter)
  {
    var cvArray := new CV[MaxDegreeOr2(m)];
    var numCvs := CompressSubtreeWide(m, input, counter, cvArray, 0);
    assert cvArray[0..0 + numCvs] == cvArray[..numCvs];
    var outArray := new CV[MaxDegreeOr2(m) / 2];
    Condense(m, LeftCv(m, input, counter), RightCv(m, input, counter), cvArray, outArray, numCvs);
    left, right := cvArray[0], cvArray[1];
    PairTop(m, cvArray[..2], LeftCv(m, input, counter), RightCv(m, input, counter));
  }

  lemma PairTop(m: Config, row: seq<CV>, left: CV, right: CV)
    requires |row| == 2 && TopPair(m, row, left, right)
    ensures row[0] == left && row[1] == right
  {
    SplitAtIs(1, 2);
    assert row[..1] == [row[0]] && row[1..] == [row[1]];
  }

  /** The loop of `CompressSubtreeToParentNode`: one level up until two values are left. */
  method Condense(m: Config, ghost left: CV, ghost right: CV, cvArray: array<CV>, outArray: array<CV>, count: nat)
    requires 2 <= count <= cvArray.Length && cvArray.Length % 2 == 0
    requires cvArray != outArray && outArray.Length == cvArray.Length / 2
    requires TopPair(m, cvArray[..count], left, right)
    modifies cvArray, outArray
    ensures TopPair(m, cvArray[..2], left, right)
  {
    var numCvs := count;
    while numCvs > 2
      invariant 2 <= numCvs <= cvArray.Length
      invariant TopPair(m, cvArray[..numCvs], left, right)
      decreases numCvs
    {
      PairUpKeepsTopPair(m, cvArray[..numCvs], left, right);
      numCvs := CompressParentsParallel(m, cvArray, numCvs, outArray, 0);
      CopyRow(outArray, cvArray, numCvs);
    }
  }

  method CopyRow(from: array<CV>, to: array<CV>, n: nat)
    requires n <= from.Length && n <= to.Length && from != to
    modifies to
    ensures to[..n] == from[0..0 + n]
  {
    forall i | 0 <= i < n {
      to[i] := from[i];
    }
  }
}
