/**
 * The incremental hasher of include/blake3/blake3.c: a chunk state, and a stack
 * of subtree chaining values that is merged lazily, just before the next push,
 * down to the number of one bits of the chunk count.
 */
module Blake3Hasher {
  import opened Bits
  import opened Blake3Spec
  import opened Blake3Chunk
  import opened Blake3Wide

  const MAX_DEPTH: nat := 54
  const TWO_64: nat := 0x1_0000_0000_0000_0000

  // ---- subtree sizes on the stack ------------------------------------------------

  function Sum(sizes: seq<nat>): nat {
    if sizes == [] then 0 else Sum(sizes[..|sizes| - 1]) + sizes[|sizes| - 1]
  }

  function Last<T>(s: seq<T>): T
    requires s != []
  {
    s[|s| - 1]
  }

  /** Distinct powers of two, largest at the bottom. */
  ghost predicate Descending(sizes: seq<nat>) {
    sizes == [] ||
    (var below := sizes[..|sizes| - 1];
     IsPow2(Last(sizes)) && Descending(below) && (below != [] ==> Last(below) > Last(sizes)))
  }

  /** Descending but for the top, which may equal the entry below it. */
  ghost predicate Lazy(sizes: seq<nat>) {
    sizes == [] ||
    (var below := sizes[..|sizes| - 1];
     IsPow2(Last(sizes)) && Descending(below) && (below != [] ==> Last(below) >= Last(sizes)))
  }

  lemma {:induction false} DescendingMultiple(sizes: seq<nat>, p: nat)
    requires Descending(sizes) && IsPow2(p) && (sizes != [] ==> p <= Last(sizes))
    ensures Sum(sizes) % p == 0
  {
    if sizes == [] {
      DivModUnique(0, p, 0, 0);
    } else {
      var below := sizes[..|sizes| - 1];
      DescendingMultiple(below, p);
      Pow2Divides(p, Last(sizes));
      SumOfMultiples(Sum(below), Last(sizes), p);
    }
  }

  lemma SumOfMultiples(x: nat, y: nat, p: nat)
    requires p > 0 && x % p == 0 && y % p == 0
    ensures (x + y) % p == 0
  {
    var a, b := x / p, y / p;
    assert x + y == p * (a + b) by {
      assert x == p * a && y == p * b;
    }
    DivModUnique(x + y, p, a + b, 0);
  }

  lemma AddRemainder(x: nat, d: nat, r: nat)
    requires r < d && x % d == 0
    ensures (x + r) % d == r
  {
    DivModUnique(x + r, d, x / d, r);
  }

  /** Below the top of a descending stack every size is a multiple of twice the top. */
  lemma BelowTop(sizes: seq<nat>)
    requires Descending(sizes) && sizes != []
    ensures Sum(sizes[..|sizes| - 1]) % (2 * Last(sizes)) == 0
    ensures Sum(sizes) % (2 * Last(sizes)) == Last(sizes)
  {
    var below, p := sizes[..|sizes| - 1], Last(sizes);
    assert IsPow2(2 * p);
    if below != [] {
      Pow2Gap(p, Last(below));
    }
    DescendingMultiple(below, 2 * p);
    AddRemainder(Sum(below), 2 * p, p);
  }

  lemma {:induction false} PopCountAdd(x: nat, p: nat)
    requires IsPow2(p) && x % (2 * p) == 0
    ensures PopCount(x + p) == PopCount(x) + 1
  {
    if p == 1 {
      assert (x + 1) / 2 == x / 2;
    } else {
      HalfRemainder(x, p);
      PopCountAdd(x / 2, p / 2);
      assert (x + p) / 2 == x / 2 + p / 2;
    }
  }

  /** The binary digits of the chunk count: one entry for every one bit. */
  lemma {:induction false} DescendingPopCount(sizes: seq<nat>)
    requires Descending(sizes)
    ensures PopCount(Sum(sizes)) == |sizes|
  {
    if sizes != [] {
      BelowTop(sizes);
      DescendingPopCount(sizes[..|sizes| - 1]);
      PopCountAdd(Sum(sizes[..|sizes| - 1]), Last(sizes));
    }
  }

  /** The two top entries, once they are equal, replaced by one of twice the size. */
  function Merged(sizes: seq<nat>): seq<nat>
    requires |sizes| >= 2
  {
    sizes[..|sizes| - 2] + [2 * Last(sizes)]
  }

  lemma DescendingPrefix(sizes: seq<nat>)
    requires Descending(sizes) && sizes != []
    ensures Descending(sizes[..|sizes| - 1]) && IsPow2(Last(sizes)) && Last(sizes) >= 1
    ensures |sizes| > 1 ==> 2 * Last(sizes) <= sizes[|sizes| - 2]
  {
    if |sizes| > 1 {
      Pow2Gap(Last(sizes), Last(sizes[..|sizes| - 1]));
    }
  }

  lemma MergedIsLazy(sizes: seq<nat>)
    requires Lazy(sizes) && !Descending(sizes)
    ensures |sizes| >= 2 && sizes[|sizes| - 2] == Last(sizes)
    ensures Lazy(Merged(sizes)) && Sum(Merged(sizes)) == Sum(sizes)
  {
    var below := sizes[..|sizes| - 1];
    assert below != [] && Last(below) == Last(sizes);
    DescendingPrefix(below);
    var merged := Merged(sizes);
    PrefixOfPrefix(sizes, |sizes| - 1, |sizes| - 2);
    assert merged[..|merged| - 1] == sizes[..|sizes| - 2];
    Pow2Double(Last(sizes));
  }

  /** A lazy stack is longer than the bit count exactly while its top two are equal. */
  lemma {:induction false} LazyPopCount(sizes: seq<nat>)
    requires Lazy(sizes)
    ensures PopCount(Sum(sizes)) <= |sizes|
    ensures PopCount(Sum(sizes)) == |sizes| <==> Descending(sizes)
    decreases |sizes|
  {
    if Descending(sizes) {
      DescendingPopCount(sizes);
    } else {
      MergedIsLazy(sizes);
      LazyPopCount(Merged(sizes));
    }
  }

  /** An aligned subtree is no larger than the top of the stack it goes onto. */
  lemma AlignedPush(sizes: seq<nat>, s: nat)
    requires Descending(sizes) && sizes != [] && IsPow2(s) && Divides(s, Sum(sizes))
    ensures s <= Last(sizes)
  {
    var p := Last(sizes);
    BelowTop(sizes);
    DividesIsRemainder(s, Sum(sizes));
    if p < s {
      Pow2Gap(p, s);
      Pow2Double(p);
      Pow2Divides(2 * p, s);
      MultipleOfMultiple(Sum(sizes), s, 2 * p);
    }
  }

  lemma {:induction false} PopCountBound(n: nat, k: nat)
    requires n < Pow2(k)
    ensures PopCount(n) <= k
  {
    if n != 0 {
      PopCountBound(n / 2, k - 1);
    }
  }

  lemma ChunkCountBound(n: nat)
    requires 1024 * n < TWO_64
    ensures PopCount(n) <= MAX_DEPTH
  {
    HalfWords();
    Pow2Sum(16, 2);
    Pow2Sum(4, 32);
    Pow2Sum(18, 36);
    PopCountBound(n, 54);
  }

  // ---- what the stack stands for -------------------------------------------------

  /** The stack entries are the subtrees that partition bytes, bottom to top. */
  ghost predicate StackHolds(m: Config, bytes: seq<byte>, cvs: seq<CV>, sizes: seq<nat>)
    decreases |sizes|
  {
    && |cvs| == |sizes|
    && |bytes| == 1024 * Sum(sizes)
    && (sizes != [] ==>
          var n := |sizes| - 1;
          var k := 1024 * Sum(sizes[..n]);
          && cvs[n] == TreeCv(m, bytes[k..], Sum(sizes[..n]))
          && StackHolds(m, bytes[..k], cvs[..n], sizes[..n]))
  }

  lemma StackPush(m: Config, bytes: seq<byte>, cvs: seq<CV>, sizes: seq<nat>, x: seq<byte>, cv: CV, s: nat)
    requires StackHolds(m, bytes, cvs, sizes) && |x| == 1024 * s && cv == TreeCv(m, x, Sum(sizes))
    ensures StackHolds(m, bytes + x, cvs + [cv], sizes + [s])
  {
    var sizes' := sizes + [s];
    assert sizes'[..|sizes|] == sizes;
    assert (cvs + [cv])[..|cvs|] == cvs;
    assert (bytes + x)[..|bytes|] == bytes && (bytes + x)[|bytes|..] == x;
  }

  lemma StackPop(m: Config, bytes: seq<byte>, cvs: seq<CV>, sizes: seq<nat>) returns (low: seq<byte>, x: seq<byte>)
    requires StackHolds(m, bytes, cvs, sizes) && sizes != []
    ensures bytes == low + x && |x| == 1024 * Last(sizes)
    ensures Last(cvs) == TreeCv(m, x, Sum(sizes[..|sizes| - 1]))
    ensures StackHolds(m, low, cvs[..|sizes| - 1], sizes[..|sizes| - 1])
  {
    var k := 1024 * Sum(sizes[..|sizes| - 1]);
    low, x := bytes[..k], bytes[k..];
  }

  lemma StackMerge(m: Config, bytes: seq<byte>, cvs: seq<CV>, sizes: seq<nat>)
    requires StackHolds(m, bytes, cvs, sizes) && Lazy(sizes) && !Descending(sizes)
    ensures |cvs| >= 2
    ensures StackHolds(m, bytes, cvs[..|cvs| - 2] + [ParentCv(m, cvs[|cvs| - 2], cvs[|cvs| - 1])], Merged(sizes))
  {
    MergedIsLazy(sizes);
    var n, s := |sizes|, Last(sizes);
    var low', right := StackPop(m, bytes, cvs, sizes);
    var low, left := StackPop(m, low', cvs[..n - 1], sizes[..n - 1]);
    PrefixOfPrefix(sizes, n - 1, n - 2);
    PrefixOfPrefix(cvs, n - 1, n - 2);
    DescendingPrefix(sizes[..n - 1]);
    AppendAppend(low, left, right);
    StackJoin(m, low, cvs[..n - 2], sizes[..n - 2], left, right, cvs[n - 2], cvs[n - 1], s);
  }

  lemma StackJoin(m: Config, low: seq<byte>, cvs: seq<CV>, sizes: seq<nat>,
                  left: seq<byte>, right: seq<byte>, a: CV, b: CV, s: nat)
    requires StackHolds(m, low, cvs, sizes) && IsPow2(s)
    requires |left| == |right| == 1024 * s
    requires a == TreeCv(m, left, Sum(sizes)) && b == TreeCv(m, right, Sum(sizes) + s)
    ensures StackHolds(m, low + (left + right), cvs + [ParentCv(m, a, b)], sizes + [2 * s])
  {
    TreeJoins(m, left, right, Sum(sizes), s);
    StackPush(m, low, cvs, sizes, left + right, ParentCv(m, a, b), 2 * s);
  }

  /** The bytes the stack stands for can take rest as the right end of their tree. */
  ghost predicate Rolling(m: Config, low: seq<byte>, rest: seq<byte>, cvs: seq<CV>, sizes: seq<nat>) {
    && Descending(sizes) && StackHolds(m, low, cvs, sizes)
    && 0 < |rest| && (sizes != [] ==> |rest| <= 1024 * Last(sizes))
  }

  /** Rolling up: the top entry and the tree of the rest become one parent. */
  lemma RollUp(m: Config, low: seq<byte>, rest: seq<byte>, cvs: seq<CV>, sizes: seq<nat>, o: Output)
    returns (low': seq<byte>, rest': seq<byte>)
    requires Rolling(m, low, rest, cvs, sizes) && sizes != [] && o == Tree(m, rest, Sum(sizes))
    ensures low' + rest' == low + rest
    ensures Rolling(m, low', rest', cvs[..|cvs| - 1], sizes[..|sizes| - 1])
    ensures ParentOutput(m, Last(cvs), ChainingValue(m, o)) == Tree(m, rest', Sum(sizes[..|sizes| - 1]))
  {
    var x;
    low', x := StackPop(m, low, cvs, sizes);
    rest' := x + rest;
    AppendAppend(low', x, rest);
    DescendingPrefix(sizes);
    var below, s := sizes[..|sizes| - 1], Last(sizes);
    var cv := TreeCv(m, rest, Sum(below) + s);
    assert Sum(sizes) == Sum(below) + s && cv == ChainingValue(m, o);
    TreeJoinsAs(m, x, rest, Sum(below), s, Last(cvs), cv, ParentOutput(m, Last(cvs), cv));
  }

  // ---- the hasher -----------------------------------------------------------------

  class Hasher {
    const config: Config
    const chunk: ChunkState
    const cvStack: array<CV>
    var cvStackLen: nat

    /** The bytes of the chunks already on the stack, and the stack's subtree sizes. */
    ghost var done: seq<byte>
    ghost var sizes: seq<nat>

    /** Everything absorbed since initialization. */
    ghost function Contents(): seq<byte>
      reads this, chunk
    {
      done + chunk.absorbed
    }

    ghost predicate Shape()
      reads chunk, chunk.buf
    {
      && config.Valid() && chunk.config == config && chunk.Valid()
      && cvStack.Length == MAX_DEPTH + 1
    }

    /** The stack stands for the first count chunks, with at most its top pair unmerged. */
    ghost predicate Stack(count: nat)
      reads this, cvStack
    {
      && cvStackLen <= cvStack.Length == MAX_DEPTH + 1
      && StackHolds(config, done, cvStack[..cvStackLen], sizes)
      && Lazy(sizes) && Sum(sizes) == count
    }

    /** The two top subtrees make one twice as large that is not merged yet. */
    ghost predicate TopPairPending()
      reads this
    {
      |sizes| >= 2 && sizes[|sizes| - 2] == Last(sizes)
    }

    ghost predicate Valid()
      reads this, chunk, chunk.buf, cvStack
    {
      && Shape() && Stack(chunk.chunkCounter)
      && |Contents()| < TWO_64
      && (chunk.absorbed != [] ==> Descending(sizes))
      && (chunk.absorbed == [] ==> sizes == [] || TopPairPending())
    }

    constructor (m: Config)
      requires m.Valid()
      ensures Valid() && fresh(chunk) && fresh(chunk.buf) && fresh(cvStack)
      ensures config == m && Contents() == []
    {
      config := m;
      chunk := new ChunkState(m, 0);
      cvStack := new CV[MAX_DEPTH + 1];
      cvStackLen := 0;
      done := [];
      sizes := [];
    }

    method Reset()
      requires Valid()
      modifies this, chunk, chunk.buf
      ensures Valid() && Contents() == []
    {
      chunk.Reset(0);
      cvStackLen := 0;
      done := [];
      sizes := [];
    }

    /** Merges until one entry is left for every one bit of the chunk count. */
    method MergeCvStack(totalLen: nat)
      requires Stack(totalLen)
      modifies this`cvStackLen, this`sizes, cvStack
      ensures Stack(totalLen) && Descending(sizes)
      ensures cvStackLen == PopCount(totalLen)
      ensures Descending(old(sizes)) ==> sizes == old(sizes)
    {
      var postMergeStackLen := Popcnt(totalLen);
      LazyPopCount(sizes);
      while cvStackLen > postMergeStackLen
        invariant Stack(totalLen)
        invariant PopCount(totalLen) <= |sizes|
        invariant PopCount(totalLen) == |sizes| <==> Descending(sizes)
        invariant Descending(old(sizes)) ==> sizes == old(sizes)
        decreases cvStackLen
      {
        MergeTop(totalLen);
      }
    }

    /** One merge: the two top entries become their parent, in place. */
    method MergeTop(ghost totalLen: nat)
      requires Stack(totalLen) && !Descending(sizes)
      modifies this`cvStackLen, this`sizes, cvStack
      ensures Stack(totalLen) && cvStackLen == old(cvStackLen) - 1
      ensures PopCount(totalLen) <= |sizes|
      ensures PopCount(totalLen) == |sizes| <==> Descending(sizes)
    {
      MergedIsLazy(sizes);
      ghost var cvs := cvStack[..cvStackLen];
      StackMerge(config, done, cvs, sizes);
      ghost var merged := cvs[..|cvs| - 2] + [ParentCv(config, cvs[|cvs| - 2], cvs[|cvs| - 1])];
      var o := ParentOutput(config, cvStack[cvStackLen - 2], cvStack[cvStackLen - 1]);
      cvStack[cvStackLen - 2] := ChainingValue(config, o);
      cvStackLen := cvStackLen - 1;
      sizes := Merged(sizes);
      assert cvStack[..cvStackLen] == merged;
      LazyPopCount(sizes);
    }

    /** Merges what can be merged, then adds the new subtree unmerged. */
    method PushCv(cv: CV, count: nat, ghost x: seq<byte>, ghost s: nat)
      requires Stack(count) && 1024 * count < TWO_64
      requires IsPow2(s) && Divides(s, count)
      requires |x| == 1024 * s && cv == TreeCv(config, x, count)
      modifies this`cvStackLen, this`sizes, this`done, cvStack
      ensures Stack(count + s) && done == old(done) + x
      ensures sizes != [] && Last(sizes) == s
      ensures Divides(2 * s, count) ==> Descending(sizes)
      ensures Descending(old(sizes)) ==> sizes == old(sizes) + [s]
    {
      MergeCvStack(count);
      ChunkCountBound(count);
      StackPush(config, done, cvStack[..cvStackLen], sizes, x, cv, s);
      ghost var pushed := cvStack[..cvStackLen] + [cv];
      PushedShape(sizes, s);
      cvStack[cvStackLen] := cv;
      cvStackLen := cvStackLen + 1;
      done := done + x;
      sizes := sizes + [s];
      assert cvStack[..cvStackLen] == pushed;
    }

    /** A full chunk with more input behind it is not the root: its value goes onto the stack. */
    method FinishChunk()
      requires Shape() && Stack(chunk.chunkCounter)
      requires |chunk.absorbed| == CHUNK_LEN && |Contents()| < TWO_64
      modifies this, chunk, chunk.buf, cvStack
      ensures Shape() && Stack(chunk.chunkCounter)
      ensures chunk.absorbed == [] && done == old(Contents())
    {
      var o := chunk.GetOutput();
      var cv := ChainingValue(config, o);
      OneDivides(chunk.chunkCounter);
      PushCv(cv, chunk.chunkCounter, chunk.absorbed, 1);
      chunk.Reset(chunk.chunkCounter + 1);
    }

    /** Length of the largest aligned whole subtree that the remaining input can fill. */
    method SubtreeLen(inputLen: nat) returns (subtreeLen: nat, ghost s: nat)
      requires CHUNK_LEN < inputLen < TWO_64
      ensures CHUNK_LEN <= subtreeLen <= inputLen && subtreeLen == 1024 * s
      ensures IsPow2(s) && Divides(s, chunk.chunkCounter)
      ensures NoneLonger(inputLen, chunk.chunkCounter, s)
    {
      subtreeLen := RoundDownToPowerOf2(inputLen);
      var countSoFar := chunk.chunkCounter * 1024;
      s := InChunks(subtreeLen);
      OneDivides(chunk.chunkCounter);
      MaskInChunks(s, chunk.chunkCounter);
      NoneLongerFits(inputLen, chunk.chunkCounter, s);
      while BitAnd(subtreeLen - 1, countSoFar) != 0
        invariant IsPow2(s) && subtreeLen == 1024 * s <= inputLen
        invariant BitAnd(subtreeLen - 1, countSoFar) == 0 <==> Divides(s, chunk.chunkCounter)
        invariant NoneLonger(inputLen, chunk.chunkCounter, s)
        decreases subtreeLen
      {
        NoneLongerButHalf(inputLen, chunk.chunkCounter, s);
        subtreeLen := subtreeLen / 2;
        s := s / 2;
        MaskInChunks(s, chunk.chunkCounter);
      }
    }

    /** Pushes the two halves of a subtree; the pair stays unmerged. */
    method PushPair(left: CV, right: CV, count: nat, h: nat, ghost l: seq<byte>, ghost r: seq<byte>)
      requires Stack(count) && 1024 * (count + h) < TWO_64
      requires IsPow2(h) && Divides(2 * h, count) && |l| == |r| == 1024 * h
      requires left == TreeCv(config, l, count) && right == TreeCv(config, r, count + h)
      modifies this`cvStackLen, this`sizes, this`done, cvStack
      ensures Stack(count + h + h) && done == old(done) + l + r
      ensures TopPairPending()
    {
      HalfAligned(count, h);
      PushCv(left, count, l, h);
      ghost var one := sizes;
      PushCv(right, count + h, r, h);
      assert sizes == one + [h] && Last(one) == h;
    }

    /** The high-performance path of `AbsorbSubtree`: more than one chunk. */
    method AbsorbPair(input: seq<byte>, count: nat, chunks: nat)
      requires config.Valid() && Stack(count) && |done| + |input| < TWO_64
      requires IsPow2(chunks) && chunks > 1 && |input| == 1024 * chunks && Divides(chunks, count)
      modifies this`cvStackLen, this`sizes, this`done, cvStack
      ensures Stack(count + chunks) && done == old(done) + input
      ensures TopPairPending()
    {
      var left, right := CompressSubtreeToParentNode(config, input, count);
      ghost var l, r := Halves(config, input, count, chunks / 2);
      AppendAppend(done, l, r);
      PushPair(left, right, count, chunks / 2, l, r);
    }

    /** The path of `AbsorbSubtree` for a single whole chunk. */
    method AbsorbChunk(input: seq<byte>, count: nat)
      requires Stack(count) && 1024 * count < TWO_64 && |input| == CHUNK_LEN
      modifies this`cvStackLen, this`sizes, this`done, cvStack
      ensures Stack(count + 1) && done == old(done) + input
    {
      var cv := HashChunk(config, input, count);
      OneDivides(count);
      PushCv(cv, count, input, 1);
    }

    /** Hashes one aligned power-of-two subtree and pushes it, as a pair when it has two halves. */
    method AbsorbSubtree(input: seq<byte>, ghost s: nat)
      requires Shape() && Stack(chunk.chunkCounter) && chunk.absorbed == []
      requires IsPow2(s) && |input| == 1024 * s && Divides(s, chunk.chunkCounter)
      requires |done| + |input| < TWO_64
      modifies this, chunk, chunk.buf, cvStack
      ensures Shape() && Stack(chunk.chunkCounter) && chunk.absorbed == []
      ensures done == old(done) + input
      ensures |input| > CHUNK_LEN ==> TopPairPending()
    {
      var count := chunk.chunkCounter;
      var subtreeChunks := |input| / 1024;
      if |input| <= CHUNK_LEN {
        AbsorbChunk(input, count);
      } else {
        AbsorbPair(input, count, subtreeChunks);
      }
      chunk.chunkCounter := chunk.chunkCounter + subtreeChunks;
    }

    method Update(input: seq<byte>)
      requires Valid() && |Contents()| + |input| < TWO_64
      modifies this, chunk, chunk.buf, cvStack
      ensures Valid() && Contents() == old(Contents()) + input
    {
      if |input| == 0 {
        return;
      }
      var rest := input;
      var chunkLen := chunk.Len();
      if chunkLen > 0 {
        var take := CHUNK_LEN - chunkLen;
        if take > |rest| {
          take := |rest|;
        }
        assert rest[..take] + rest[take..] == rest;
        assert old(Contents()) + rest[..take] == done + (chunk.absorbed + rest[..take]);
        chunk.Update(rest[..take]);
        rest := rest[take..];
        if |rest| == 0 {
          return;
        }
        FinishChunk();
      }
      assert done + rest == old(Contents()) + input;
      UpdateSubtrees(rest);
    }

    /** The rest of `Update`, once the chunk state is clear. */
    method UpdateSubtrees(input: seq<byte>)
      requires Shape() && Stack(chunk.chunkCounter) && chunk.absorbed == []
      requires 0 < |input| && |done| + |input| < TWO_64
      modifies this, chunk, chunk.buf, cvStack
      ensures Valid() && Contents() == old(done) + input
    {
      var rest := input;
      while |rest| > CHUNK_LEN
        invariant Shape() && Stack(chunk.chunkCounter) && chunk.absorbed == []
        invariant done + rest == old(done) + input
        invariant rest == [] ==> TopPairPending()
        decreases |rest|
      {
        var subtreeLen, s := SubtreeLen(|rest|);
        assert done + rest == done + rest[..subtreeLen] + rest[subtreeLen..];
        AbsorbSubtree(rest[..subtreeLen], s);
        rest := rest[subtreeLen..];
      }
      if |rest| > 0 {
        chunk.Update(rest);
        MergeCvStack(chunk.chunkCounter);
      }
    }

    /** The root output: the open chunk or the pending pair, rolled up with the stack. */
    method RootOutput() returns (o: Output)
      requires Valid()
      ensures o == Tree(config, Contents(), 0)
    {
      if cvStackLen == 0 {
        o := chunk.GetOutput();
        assert Contents() == chunk.absorbed;
        return;
      }
      var chunkLen := chunk.Len();
      if chunkLen > 0 {
        o := chunk.GetOutput();
        assert sizes[..cvStackLen] == sizes;
        o := RollUpStack(cvStackLen, o, done, chunk.absorbed);
      } else {
        var cvsRemaining := cvStackLen - 2;
        o := ParentOutput(config, cvStack[cvsRemaining], cvStack[cvsRemaining + 1]);
        ghost var low, rest := PendingPair(config, done, cvStack[..cvStackLen], sizes);
        PrefixOfPrefix(cvStack[..], cvStackLen, cvsRemaining);
        o := RollUpStack(cvsRemaining, o, low, rest);
        assert Contents() == low + rest;
      }
    }

    /** The loop of `RootOutput`: entry by entry down the stack, one parent each. */
    method RollUpStack(count: nat, first: Output, ghost low: seq<byte>, ghost rest: seq<byte>) returns (o: Output)
      requires count <= cvStackLen <= cvStack.Length && count <= |sizes|
      requires Rolling(config, low, rest, cvStack[..count], sizes[..count])
      requires first == Tree(config, rest, Sum(sizes[..count]))
      ensures o == Tree(config, low + rest, 0)
    {
      ghost var l, r := low, rest;
      var cvsRemaining := count;
      o := first;
      while cvsRemaining > 0
        invariant 0 <= cvsRemaining <= count && l + r == low + rest
        invariant Rolling(config, l, r, cvStack[..cvsRemaining], sizes[..cvsRemaining])
        invariant o == Tree(config, r, Sum(sizes[..cvsRemaining]))
      {
        l, r := RollUp(config, l, r, cvStack[..cvsRemaining], sizes[..cvsRemaining], o);
        PrefixOfPrefix(sizes, cvsRemaining, cvsRemaining - 1);
        PrefixOfPrefix(cvStack[..], cvsRemaining, cvsRemaining - 1);
        cvsRemaining := cvsRemaining - 1;
        o := ParentOutput(config, cvStack[cvsRemaining], ChainingValue(config, o));
      }
      assert l == [] && l + r == r;
    }

    /** Writes outLen bytes of output from position seek on. */
    method FinalizeSeek(seek: nat, outLen: nat) returns (out: seq<byte>)
      requires Valid()
      ensures out == Hash(config, Contents(), seek, outLen)
    {
      if outLen == 0 {
        return [];
      }
      var o := RootOutput();
      out := OutputRootBytes(config, o, seek, outLen);
    }

    method Finalize(outLen: nat) returns (out: seq<byte>)
      requires Valid()
      ensures out == Hash(config, Contents(), 0, outLen)
    {
      out := FinalizeSeek(0, outLen);
    }
  }

  // ---- lemmas used by the hasher ---------------------------------------------------

  lemma PushedShape(sizes: seq<nat>, s: nat)
    requires Descending(sizes) && IsPow2(s) && Divides(s, Sum(sizes))
    ensures Lazy(sizes + [s]) && Sum(sizes + [s]) == Sum(sizes) + s
    ensures (sizes + [s])[..|sizes|] == sizes && Last(sizes + [s]) == s
    ensures Divides(2 * s, Sum(sizes)) ==> Descending(sizes + [s])
  {
    assert (sizes + [s])[..|sizes|] == sizes;
    if sizes != [] {
      AlignedPush(sizes, s);
      AlignedPushTwice(sizes, s);
    }
  }

  lemma AlignedPushTwice(sizes: seq<nat>, s: nat)
    requires Descending(sizes) && sizes != [] && IsPow2(s)
    ensures Divides(2 * s, Sum(sizes)) ==> 2 * s <= Last(sizes)
  {
    Pow2Double(s);
    if Divides(2 * s, Sum(sizes)) {
      AlignedPush(sizes, 2 * s);
    }
  }

  lemma AppendAppend<T>(a: seq<T>, b: seq<T>, c: seq<T>)
    ensures a + b + c == a + (b + c)
  {}

  lemma Halves(m: Config, input: seq<byte>, count: nat, h: nat) returns (l: seq<byte>, r: seq<byte>)
    requires IsPow2(h) && |input| == 1024 * (2 * h)
    ensures input == l + r && |l| == |r| == 1024 * h && |input| > CHUNK_LEN
    ensures LeftCv(m, input, count) == TreeCv(m, l, count)
    ensures RightCv(m, input, count) == TreeCv(m, r, count + h)
  {
    assert h >= 1;
    LeftLenIs(h, 1024 * h);
    l, r := input[..1024 * h], input[1024 * h..];
  }

  lemma {:induction false} OneDivides(x: nat)
    ensures Divides(1, x)
  {
    if x > 0 {
      OneDivides(x - 1);
    }
  }

  lemma HalfAligned(count: nat, h: nat)
    requires IsPow2(h) && h >= 1 && Divides(2 * h, count)
    ensures Divides(h, count) && Divides(h, count + h)
  {
    DividesIsRemainder(2 * h, count);
    DivModUnique(2 * h, h, 2, 0);
    MultipleOfMultiple(count, 2 * h, h);
    DividesIsRemainder(h, count);
  }

  lemma Pow2Double(s: nat)
    requires IsPow2(s)
    ensures IsPow2(2 * s)
  {
    assert (2 * s) / 2 == s;
  }

  lemma {:induction false} Pow2Scaled(k: nat, p: nat, s: nat)
    requires p == Pow2(k)
    ensures IsPow2(p * s) <==> IsPow2(s)
  {
    if k == 0 {
      assert p * s == s;
    } else {
      var h := Pow2(k - 1);
      Doubling(h, s);
      Pow2Scaled(k - 1, h, s);
      HalvePow2(h * s);
    }
  }

  lemma HalvePow2(x: nat)
    ensures IsPow2(2 * x) <==> IsPow2(x)
  {
    assert (2 * x) / 2 == x && (2 * x) % 2 == 0;
  }

  lemma ChunkPow2(s: nat)
    ensures IsPow2(1024 * s) <==> IsPow2(s)
  {
    HalfWords();
    Pow2Sum(8, 2);
    Pow2Scaled(10, 1024, s);
  }

  /** No power of two of chunks above s fits the input and is aligned to the chunks before it. */
  ghost predicate NoneLonger(inputLen: nat, count: nat, s: nat) {
    forall t: nat {:trigger Divides(t, count)} :: IsPow2(t) && t >= 1 && 1024 * t <= inputLen && Divides(t, count) ==> t <= s
  }

  lemma NoneLongerFits(inputLen: nat, count: nat, s: nat)
    requires IsPow2(s) && inputLen < 2048 * s
    ensures NoneLonger(inputLen, count, s)
  {
    forall t: nat | IsPow2(t) && t >= 1 && 1024 * t <= inputLen && Divides(t, count)
      ensures t <= s
    {
      if t > s {
        Pow2Gap(s, t);
      }
    }
  }

  lemma NoneLongerButHalf(inputLen: nat, count: nat, s: nat)
    requires IsPow2(s) && !Divides(s, count) && NoneLonger(inputLen, count, s)
    ensures NoneLonger(inputLen, count, s / 2)
  {
    forall t: nat | IsPow2(t) && t >= 1 && 1024 * t <= inputLen && Divides(t, count)
      ensures t <= s / 2
    {
      if t < s {
        Pow2Gap(t, s);
      }
    }
  }

  /** A power of two of at least one chunk, counted in chunks. */
  lemma InChunks(len: nat) returns (s: nat)
    requires IsPow2(len) && 2 * len > CHUNK_LEN
    ensures IsPow2(s) && len == 1024 * s
  {
    ChunkPow2(1);
    if len < 1024 {
      Pow2Gap(len, 1024);
    }
    Pow2Divides(1024, len);
    s := len / 1024;
    ChunkPow2(s);
  }

  /** The alignment test by mask is the alignment of the chunk counter. */
  lemma MaskInChunks(s: nat, count: nat)
    requires IsPow2(s)
    ensures s >= 1 && (BitAnd(1024 * s - 1, count * 1024) == 0 <==> Divides(s, count))
  {
    assert s >= 1;
    DividesIsRemainder(s, count);
    ChunkPow2(s);
    MaskIsRemainder(1024 * s, count * 1024);
    var q, r := Divide(count, s);
    RemainderInChunks(s, count, q, r);
  }

  lemma Divide(x: nat, d: nat) returns (q: nat, r: nat)
    requires d > 0
    ensures x == d * q + r && r < d && r == x % d
  {
    q, r := x / d, x % d;
  }

  lemma RemainderInChunks(s: nat, count: nat, q: nat, r: nat)
    requires count == s * q + r && r < s
    ensures (count * 1024) % (1024 * s) == 1024 * r
  {
    var sq := s * q;
    assert (1024 * s) * q == 1024 * sq;
    DivModUnique(count * 1024, 1024 * s, q, 1024 * r);
  }

  /** With no open chunk the pending pair is the last piece of the tree. */
  lemma PendingPair(m: Config, bytes: seq<byte>, cvs: seq<CV>, sizes: seq<nat>)
    returns (low: seq<byte>, rest: seq<byte>)
    requires StackHolds(m, bytes, cvs, sizes) && Lazy(sizes)
    requires |sizes| >= 2 && sizes[|sizes| - 2] == Last(sizes)
    ensures bytes == low + rest
    ensures Rolling(m, low, rest, cvs[..|sizes| - 2], sizes[..|sizes| - 2])
    ensures ParentOutput(m, cvs[|sizes| - 2], cvs[|sizes| - 1]) == Tree(m, rest, Sum(sizes[..|sizes| - 2]))
  {
    var n, s := |sizes|, Last(sizes);
    var low', right := StackPop(m, bytes, cvs, sizes);
    var left;
    low, left := StackPop(m, low', cvs[..n - 1], sizes[..n - 1]);
    PrefixOfPrefix(sizes, n - 1, n - 2);
    PrefixOfPrefix(cvs, n - 1, n - 2);
    DescendingPrefix(sizes[..n - 1]);
    rest := left + right;
    AppendAppend(low, left, right);
    TreeJoinsAs(m, left, right, Sum(sizes[..n - 2]), s, cvs[n - 2], cvs[n - 1],
                ParentOutput(m, cvs[n - 2], cvs[n - 1]));
  }

  lemma TreeJoinsAs(m: Config, left: seq<byte>, right: seq<byte>, count: nat, s: nat, a: CV, b: CV, o: Output)
    requires IsPow2(s) && |left| == 1024 * s && 0 < |right| <= |left|
    requires a == TreeCv(m, left, count) && b == TreeCv(m, right, count + s) && o == ParentOutput(m, a, b)
    ensures o == Tree(m, left + right, count)
  {
    TreeJoins(m, left, right, count, s);
  }

  lemma PrefixOfPrefix<T>(s: seq<T>, i: nat, j: nat)
    requires j <= i <= |s|
    ensures s[..i][..j] == s[..j]
  {}

  // ---- extendable output ------------------------------------------------------------

  function OutBytes(m: Config, o: Output, from: nat, n: nat): (r: seq<byte>)
    ensures |r| == n
  {
    seq(n, i requires 0 <= i < n => RootByte(m, o, from + i))
  }

  /** The n bytes from skip on of output block k. */
  function BlockBytes(m: Config, o: Output, k: nat, skip: nat, n: nat): seq<byte>
    requires skip + n <= 64
  {
    m.xof(o.inputCv, o.block, o.blockLen, k, o.flags + ROOT)[skip..skip + n]
  }

  lemma BlockIsOutBytes(m: Config, o: Output, k: nat, skip: nat, n: nat)
    requires skip + n <= 64
    ensures BlockBytes(m, o, k, skip, n) == OutBytes(m, o, 64 * k + skip, n)
  {
    forall i | 0 <= i < n
      ensures BlockBytes(m, o, k, skip, n)[i] == OutBytes(m, o, 64 * k + skip, n)[i]
    {
      RootByteInBlock(m, o, k, skip + i);
    }
  }

  lemma RootByteInBlock(m: Config, o: Output, k: nat, j: nat)
    requires j < 64
    ensures RootByte(m, o, 64 * k + j) == m.xof(o.inputCv, o.block, o.blockLen, k, o.flags + ROOT)[j]
  {
    assert (64 * k + j) / 64 == k && (64 * k + j) % 64 == j;
  }

  lemma OutBytesJoin(m: Config, o: Output, from: nat, n: nat, n': nat)
    ensures OutBytes(m, o, from, n) + OutBytes(m, o, from + n, n') == OutBytes(m, o, from, n + n')
  {}

  method OutputRootBytes(m: Config, o: Output, seek: nat, outLen: nat) returns (out: seq<byte>)
    ensures out == OutBytes(m, o, seek, outLen)
  {
    out := [];
    var left: nat := outLen;
    var counter, skip := seek / 64, seek % 64;
    if skip != 0 && left != 0 {
      var bytes := if left > 64 - skip then 64 - skip else left;
      BlockIsOutBytes(m, o, counter, skip, bytes);
      out := BlockBytes(m, o, counter, skip, bytes);
      left := left - bytes;
      counter := counter + 1;
    }
    while left >= 64
      invariant left + |out| == outLen
      invariant left > 0 ==> seek + |out| == 64 * counter
      invariant out == OutBytes(m, o, seek, |out|)
    {
      BlockIsOutBytes(m, o, counter, 0, 64);
      OutBytesJoin(m, o, seek, |out|, 64);
      out := out + BlockBytes(m, o, counter, 0, 64);
      counter := counter + 1;
      left := left - 64;
    }
    if left != 0 {
      BlockIsOutBytes(m, o, counter, 0, left);
      OutBytesJoin(m, o, seek, |out|, left);
      out := out + BlockBytes(m, o, counter, 0, left);
    }
  }

  // ---- the claim ---------------------------------------------------------------------

  function Concat(parts: seq<seq<byte>>): seq<byte> {
    if parts == [] then [] else Concat(parts[..|parts| - 1]) + parts[|parts| - 1]
  }

  lemma {:induction false} ConcatPrefix(parts: seq<seq<byte>>, n: nat)
    requires n <= |parts|
    ensures |Concat(parts[..n])| <= |Concat(parts)|
    decreases |parts|
  {
    if n < |parts| {
      ConcatPrefix(parts[..|parts| - 1], n);
      assert parts[..|parts| - 1][..n] == parts[..n];
    } else {
      assert parts[..n] == parts;
    }
  }

  /**
   * One update per part, then finalize: the hash of the parts laid end to end,
   * however they were cut.  With two parts this is how the object store hashes a
   * type tag and a body (src/cas/object_store.cpp).
   */
  method HashParts(m: Config, parts: seq<seq<byte>>, outLen: nat) returns (out: seq<byte>)
    requires m.Valid() && |Concat(parts)| < TWO_64
    ensures out == Hash(m, Concat(parts), 0, outLen)
  {
    var hasher := new Hasher(m);
    var i := 0;
    while i < |parts|
      invariant 0 <= i <= |parts|
      invariant fresh(hasher) && fresh(hasher.chunk) && fresh(hasher.chunk.buf) && fresh(hasher.cvStack)
      invariant hasher.Valid() && hasher.config == m && hasher.Contents() == Concat(parts[..i])
    {
      ConcatPrefix(parts, i + 1);
      assert parts[..i + 1][..i] == parts[..i];
      hasher.Update(parts[i]);
      i := i + 1;
    }
    assert parts[..i] == parts;
    out := hasher.Finalize(outLen);
  }
}
