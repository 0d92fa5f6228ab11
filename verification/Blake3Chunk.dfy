/**
 * The incremental chunk state of include/blake3/blake3.c and the one-shot chunk
 * and parent hashing of include/blake3/blake3_portable.c.
 */
module Blake3Chunk {
  import opened Bits
  import opened Blake3Spec

  class ChunkState {
    var cv: CV
    var chunkCounter: nat
    const buf: array<byte>
    var bufLen: nat
    var blocksCompressed: nat
    const config: Config

    /** The bytes of this chunk taken in so far. */
    ghost var absorbed: seq<byte>

    ghost predicate Holds(bytes: seq<byte>)
      reads this, buf
    {
      && buf.Length == BLOCK_LEN
      && bufLen <= BLOCK_LEN
      && |bytes| == 64 * blocksCompressed + bufLen
      && buf[..bufLen] == bytes[64 * blocksCompressed..]
      && (forall i :: bufLen <= i < BLOCK_LEN ==> buf[i] == 0)
      && cv == ChunkCvAfter(config, bytes, chunkCounter, blocksCompressed)
    }

    /** The closing block is always kept back, so that it can still become the root. */
    ghost predicate Valid()
      reads this, buf
    {
      && Holds(absorbed)
      && |absorbed| <= CHUNK_LEN
      && (bufLen == 0 ==> absorbed == [])
    }

    constructor (m: Config, counter: nat)
      ensures Valid() && fresh(buf)
      ensures config == m && chunkCounter == counter && absorbed == []
    {
      cv := m.key;
      chunkCounter := counter;
      buf := new byte[BLOCK_LEN](_ => 0);
      bufLen := 0;
      blocksCompressed := 0;
      config := m;
      absorbed := [];
    }

    method Reset(counter: nat)
      requires buf.Length == BLOCK_LEN
      modifies this, buf
      ensures Valid() && chunkCounter == counter && absorbed == []
    {
      cv := config.key;
      chunkCounter := counter;
      blocksCompressed := 0;
      ClearBuf();
      absorbed := [];
    }

    method ClearBuf()
      requires buf.Length == BLOCK_LEN
      modifies this`bufLen, buf
      ensures bufLen == 0 && forall i :: 0 <= i < BLOCK_LEN ==> buf[i] == 0
    {
      bufLen := 0;
      forall i | 0 <= i < BLOCK_LEN {
        buf[i] := 0;
      }
    }

    method Len() returns (n: nat)
      requires Valid()
      ensures n == |absorbed|
    {
      n := 64 * blocksCompressed + bufLen;
    }

    /** Copies as much of the input as fits into the block buffer. */
    method FillBuf(ghost bytes: seq<byte>, input: seq<byte>) returns (take: nat)
      requires Holds(bytes)
      modifies this`bufLen, buf
      ensures take == if |input| <= BLOCK_LEN - old(bufLen) then |input| else BLOCK_LEN - old(bufLen)
      ensures bufLen == old(bufLen) + take
      ensures Holds(bytes + input[..take])
    {
      take := BLOCK_LEN - bufLen;
      if take > |input| {
        take := |input|;
      }
      ghost var before := buf[..bufLen];
      var start := bufLen;
      forall i | 0 <= i < take {
        buf[start + i] := input[i];
      }
      bufLen := bufLen + take;
      ChunkCvPrefix(config, bytes, input[..take], chunkCounter, blocksCompressed);
      assert buf[..bufLen] == before + input[..take];
    }

    /** Compresses one whole block of the chunk, known not to be its last. */
    method CompressBlock(ghost bytes: seq<byte>, block: Block)
      requires buf.Length == BLOCK_LEN
      requires |bytes| == 64 * blocksCompressed
      requires cv == ChunkCvAfter(config, bytes, chunkCounter, blocksCompressed)
      modifies this`cv, this`blocksCompressed
      ensures blocksCompressed == old(blocksCompressed) + 1
      ensures cv == ChunkCvAfter(config, bytes + block, chunkCounter, blocksCompressed)
    {
      ChunkCvPrefix(config, bytes, block, chunkCounter, blocksCompressed);
      assert (bytes + block)[64 * blocksCompressed..64 * (blocksCompressed + 1)] == block;
      cv := config.compress(cv, block, BLOCK_LEN, chunkCounter,
                            config.flags + (if blocksCompressed == 0 then CHUNK_START else {}));
      blocksCompressed := blocksCompressed + 1;
    }

    /** Compresses the full block buffer and empties it. */
    method CompressBuffer(ghost bytes: seq<byte>)
      requires Holds(bytes) && bufLen == BLOCK_LEN
      modifies this`cv, this`blocksCompressed, this`bufLen, buf
      ensures Holds(bytes) && bufLen == 0
    {
      var block: Block := buf[..];
      ghost var front := bytes[..64 * blocksCompressed];
      assert bytes == front + block;
      ChunkCvPrefix(config, front, block, chunkCounter, blocksCompressed);
      CompressBlock(front, block);
      ClearBuf();
    }

    /** Takes in more of the chunk; the caller never passes more than it still needs. */
    method Update(input: seq<byte>)
      requires Valid() && |absorbed| + |input| <= CHUNK_LEN
      modifies this, buf
      ensures Valid()
      ensures absorbed == old(absorbed) + input
      ensures chunkCounter == old(chunkCounter)
    {
      var pos := 0;
      if bufLen > 0 {
        pos := FillBuf(absorbed, input);
        if pos < |input| {
          CompressBuffer(absorbed + input[..pos]);
        }
      } else {
        assert absorbed + input[..pos] == absorbed;
      }
      pos := UpdateBlocks(input, pos);
      ghost var whole := absorbed + input[..pos];
      assert whole + input[pos..] == absorbed + input;
      assert input[pos..][..|input| - pos] == input[pos..];
      var _ := FillBuf(whole, input[pos..]);
      absorbed := absorbed + input;
    }

    /** The loop of `Update`: compresses whole blocks straight from the input. */
    method UpdateBlocks(input: seq<byte>, start: nat) returns (pos: nat)
      requires start <= |input| && Holds(absorbed + input[..start])
      requires start == |input| || bufLen == 0
      requires bufLen == 0 ==> start < |input| || absorbed + input == []
      modifies this`cv, this`blocksCompressed
      ensures start <= pos <= |input| && |input| - pos <= BLOCK_LEN
      ensures Holds(absorbed + input[..pos])
      ensures pos == |input| || bufLen == 0
      ensures bufLen == 0 ==> pos < |input| || absorbed + input == []
    {
      pos := start;
      while |input| - pos > BLOCK_LEN
        invariant start <= pos <= |input|
        invariant Holds(absorbed + input[..pos])
        invariant pos == |input| || bufLen == 0
        invariant bufLen == 0 ==> pos < |input| || absorbed + input == []
      {
        ghost var front := absorbed + input[..pos];
        var block: Block := input[pos..pos + BLOCK_LEN];
        assert absorbed + input[..pos + BLOCK_LEN] == front + block;
        CompressBlock(front, block);
        pos := pos + BLOCK_LEN;
      }
    }

    method GetOutput() returns (o: Output)
      requires Valid()
      ensures o == ChunkOutput(config, absorbed, chunkCounter)
    {
      var blockFlags := config.flags + (if blocksCompressed == 0 then CHUNK_START else {}) + CHUNK_END;
      o := Output(cv, buf[..], bufLen, chunkCounter, blockFlags);
      assert blocksCompressed == LastBlock(|absorbed|);
      assert buf[..] == buf[..bufLen] + Zeros(64 - bufLen);
    }
  }

  // ---- hash_one_portable, hash_many_portable ---------------------------------

  /** Flags of block i of total when hashing a whole input at once. */
  function RunFlags(flags: Flags, first: Flags, last: Flags, i: nat, total: nat): Flags {
    if i == 0 then
      if total == 1 then flags + first + last else flags + first
    else
      if i + 1 == total then flags + last else flags
  }

  function RunCv(m: Config, input: seq<byte>, counter: nat, flags: Flags, first: Flags, last: Flags,
                 total: nat, n: nat): CV
    requires n <= total && |input| == 64 * total
  {
    if n == 0 then m.key
    else m.compress(RunCv(m, input, counter, flags, first, last, total, n - 1),
                    input[64 * (n - 1)..64 * n], 64, counter, RunFlags(flags, first, last, n - 1, total))
  }

  lemma RunStep(m: Config, input: seq<byte>, counter: nat, flags: Flags, first: Flags, last: Flags,
                total: nat, n: nat)
    requires n < total && |input| == 64 * total
    ensures RunCv(m, input, counter, flags, first, last, total, n + 1)
         == m.compress(RunCv(m, input, counter, flags, first, last, total, n),
                       input[64 * n..64 * (n + 1)], 64, counter, RunFlags(flags, first, last, n, total))
  {}

  method HashOne(m: Config, input: seq<byte>, blocks: nat, counter: nat,
                 flags: Flags, flagsStart: Flags, flagsEnd: Flags) returns (cv: CV)
    requires |input| == 64 * blocks
    ensures cv == RunCv(m, input, counter, flags, flagsStart, flagsEnd, blocks, blocks)
  {
    cv := m.key;
    var blockFlags := flags + flagsStart;
    var left, pos := blocks, 0;
    while left > 0
      invariant 0 <= left <= blocks && pos == blocks - left
      invariant cv == RunCv(m, input, counter, flags, flagsStart, flagsEnd, blocks, pos)
      invariant blockFlags == if pos == 0 then flags + flagsStart else flags
    {
      if left == 1 {
        blockFlags := blockFlags + flagsEnd;
      }
      assert blockFlags == RunFlags(flags, flagsStart, flagsEnd, pos, blocks);
      RunStep(m, input, counter, flags, flagsStart, flagsEnd, blocks, pos);
      cv := m.compress(cv, input[64 * pos..64 * (pos + 1)], BLOCK_LEN, counter, blockFlags);
      pos := pos + 1;
      left := left - 1;
      blockFlags := flags;
    }
  }

  function CounterAt(counter: nat, increment: bool, i: nat): nat {
    if increment then counter + i else counter
  }

  method HashMany(m: Config, inputs: seq<seq<byte>>, blocks: nat, counter: nat, incrementCounter: bool,
                  flags: Flags, flagsStart: Flags, flagsEnd: Flags, out: array<CV>, off: nat)
    requires forall i :: 0 <= i < |inputs| ==> |inputs[i]| == 64 * blocks
    requires off + |inputs| <= out.Length
    modifies out
    ensures forall i :: 0 <= i < |inputs| ==>
      out[off + i] == RunCv(m, inputs[i], CounterAt(counter, incrementCounter, i),
                            flags, flagsStart, flagsEnd, blocks, blocks)
    ensures forall i :: 0 <= i < out.Length && !(off <= i < off + |inputs|) ==> out[i] == old(out[i])
  {
    var n := 0;
    var c := counter;
    while n < |inputs|
      invariant 0 <= n <= |inputs|
      invariant c == CounterAt(counter, incrementCounter, n)
      invariant forall i :: 0 <= i < n ==>
        out[off + i] == RunCv(m, inputs[i], CounterAt(counter, incrementCounter, i),
                              flags, flagsStart, flagsEnd, blocks, blocks)
      invariant forall i :: 0 <= i < out.Length && !(off <= i < off + n) ==> out[i] == old(out[i])
    {
      out[off + n] := HashOne(m, inputs[n], blocks, c, flags, flagsStart, flagsEnd);
      if incrementCounter {
        c := c + 1;
      }
      n := n + 1;
    }
  }

  /** Hashing a full chunk in one run gives the chunk's chaining value. */
  lemma FullChunkRun(m: Config, chunk: seq<byte>, counter: nat)
    requires |chunk| == CHUNK_LEN
    ensures RunCv(m, chunk, counter, m.flags, CHUNK_START, CHUNK_END, 16, 16) == TreeCv(m, chunk, counter)
  {
    RunIsChunkPrefix(m, chunk, counter, 15);
    assert LastBlock(CHUNK_LEN) == 15;
    assert Padded(chunk[960..]) == chunk[960..1024];
    assert RunFlags(m.flags, CHUNK_START, CHUNK_END, 15, 16) == m.flags + StartFlag(15) + CHUNK_END;
  }

  lemma {:induction false} RunIsChunkPrefix(m: Config, chunk: seq<byte>, counter: nat, n: nat)
    requires |chunk| == CHUNK_LEN && n < 16
    ensures RunCv(m, chunk, counter, m.flags, CHUNK_START, CHUNK_END, 16, n)
         == ChunkCvAfter(m, chunk, counter, n)
  {
    if n != 0 {
      RunIsChunkPrefix(m, chunk, counter, n - 1);
      assert RunFlags(m.flags, CHUNK_START, CHUNK_END, n - 1, 16) == m.flags + StartFlag(n - 1);
    }
  }

  /** Hashing one parent block in one run gives the parent's chaining value. */
  lemma ParentRun(m: Config, left: CV, right: CV)
    ensures RunCv(m, ParentBlock(left, right), 0, m.flags + PARENT, {}, {}, 1, 1) == ParentCv(m, left, right)
  {
    var block := ParentBlock(left, right);
    assert block[0..64] == block;
    assert RunFlags(m.flags + PARENT, {}, {}, 0, 1) == m.flags + PARENT;
    assert RunCv(m, block, 0, m.flags + PARENT, {}, {}, 1, 0) == m.key;
  }
}
