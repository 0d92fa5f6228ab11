/**
 * What a BLAKE3 hash is: the recursive definition of chunks (section 2.4), the
 * binary tree over them (section 2.1) and the extendable output of the root
 * (section 2.6) of the BLAKE3 specification.  The compression function is a
 * parameter: nothing below depends on what it computes.
 */
module Blake3Spec {
  import opened Bits

  newtype byte = b: int | 0 <= b < 256

  const BLOCK_LEN: nat := 64
  const CHUNK_LEN: nat := 1024

  /** The bits of a flags byte; or-ing two flags bytes is the union of their bits. */
  datatype Flag =
    | ChunkStart | ChunkEnd | Parent | Root
    | KeyedHash | DeriveKeyContext | DeriveKeyMaterial
  type Flags = set<Flag>

  const CHUNK_START: Flags := {ChunkStart}
  const CHUNK_END: Flags := {ChunkEnd}
  const PARENT: Flags := {Parent}
  const ROOT: Flags := {Root}

  type CV = s: seq<byte> | |s| == 32 witness seq(32, _ => 0)
  type Block = s: seq<byte> | |s| == 64 witness seq(64, _ => 0)

  /** chaining value, block, block length, counter, flags */
  type Compression = (CV, Block, nat, nat, Flags) -> CV
  type ExtendedCompression = (CV, Block, nat, nat, Flags) -> Block

  /** Everything fixed for the life of a hasher. */
  datatype Config = Config(
    key: CV, flags: Flags,
    compress: Compression, xof: ExtendedCompression,
    simdDegree: nat, maxSimdDegree: nat)
  {
    /** The detected SIMD degree and the compiled maximum are powers of two. */
    ghost predicate Valid() {
      IsPow2(simdDegree) && IsPow2(maxSimdDegree) && simdDegree <= maxSimdDegree
    }
  }

  /** A node whose last compression is still to be done, as a root or not. */
  datatype Output = Output(inputCv: CV, block: Block, blockLen: nat, counter: nat, flags: Flags)

  function ChainingValue(m: Config, o: Output): CV {
    m.compress(o.inputCv, o.block, o.blockLen, o.counter, o.flags)
  }

  /** Byte i of the extendable output of o taken as the root. */
  function RootByte(m: Config, o: Output, i: nat): byte {
    m.xof(o.inputCv, o.block, o.blockLen, i / 64, o.flags + ROOT)[i % 64]
  }

  function Zeros(n: nat): (z: seq<byte>)
    ensures |z| == n && forall i :: 0 <= i < n ==> z[i] == 0
  {
    seq(n, _ => 0)
  }

  function Padded(bytes: seq<byte>): Block
    requires |bytes| <= 64
  {
    bytes + Zeros(64 - |bytes|)
  }

  function StartFlag(block: nat): Flags {
    if block == 0 then CHUNK_START else {}
  }

  /** The chaining value of a chunk after its first n whole blocks. */
  function ChunkCvAfter(m: Config, bytes: seq<byte>, counter: nat, n: nat): CV
    requires 64 * n <= |bytes|
  {
    if n == 0 then m.key
    else m.compress(ChunkCvAfter(m, bytes, counter, n - 1), bytes[64 * (n - 1)..64 * n],
                    64, counter, m.flags + StartFlag(n - 1))
  }

  /** Index of the block that closes a chunk of len bytes; an empty chunk has one. */
  function LastBlock(len: nat): (n: nat)
    ensures len == 0 ==> n == 0
    ensures len > 0 ==> 64 * n < len <= 64 * n + 64
  {
    if len == 0 then 0 else (len - 1) / 64
  }

  function ChunkOutput(m: Config, bytes: seq<byte>, counter: nat): Output {
    var n := LastBlock(|bytes|);
    Output(ChunkCvAfter(m, bytes, counter, n), Padded(bytes[64 * n..]), |bytes| - 64 * n,
           counter, m.flags + StartFlag(n) + CHUNK_END)
  }

  function ParentBlock(left: CV, right: CV): Block {
    left + right
  }

  function ParentOutput(m: Config, left: CV, right: CV): Output {
    Output(m.key, ParentBlock(left, right), 64, 0, m.flags + PARENT)
  }

  function ParentCv(m: Config, left: CV, right: CV): CV {
    ChainingValue(m, ParentOutput(m, left, right))
  }

  /**
   * Bytes in the left subtree: the largest power-of-two number of chunks that
   * leaves at least one byte for the right.
   */
  function LeftLen(len: nat): (l: nat)
    requires len > CHUNK_LEN
    ensures CHUNK_LEN <= l < len
  {
    var full := (len - 1) / 1024;
    Log2Bounds(full);
    1024 * Pow2(Log2(full))
  }

  /** The tree over input, whose first chunk has number counter. */
  function Tree(m: Config, input: seq<byte>, counter: nat): Output
    decreases |input|, 0
  {
    if |input| <= CHUNK_LEN then ChunkOutput(m, input, counter)
    else
      var l := LeftLen(|input|);
      ParentOutput(m, TreeCv(m, input[..l], counter), TreeCv(m, input[l..], counter + l / 1024))
  }

  function TreeCv(m: Config, input: seq<byte>, counter: nat): CV
    decreases |input|, 1
  {
    ChainingValue(m, Tree(m, input, counter))
  }

  /** The hash: n bytes of root output, starting at byte seek. */
  function Hash(m: Config, input: seq<byte>, seek: nat, n: nat): (r: seq<byte>)
    ensures |r| == n
  {
    seq(n, i requires 0 <= i < n => RootByte(m, Tree(m, input, 0), seek + i))
  }

  // ---- facts about the definition --------------------------------------------

  /** Any power-of-two count of chunks followed by at most as much again splits there. */
  lemma LeftLenIs(s: nat, rest: nat)
    requires IsPow2(s) && 0 < rest <= 1024 * s
    ensures 1024 * s + rest > CHUNK_LEN
    ensures LeftLen(1024 * s + rest) == 1024 * s
  {
    var full := (1024 * s + rest - 1) / 1024;
    assert s <= full < 2 * s;
    Log2Bounds(full);
    Pow2IsPow2(Log2(full));
    Pow2Unique(s, Pow2(Log2(full)), full);
  }

  lemma LeftLenShape(len: nat) returns (s: nat)
    requires len > CHUNK_LEN
    ensures IsPow2(s) && LeftLen(len) == 1024 * s
    ensures 1024 * s < len <= 2048 * s
  {
    var full := (len - 1) / 1024;
    s := Pow2(Log2(full));
    Log2Bounds(full);
    Pow2IsPow2(Log2(full));
  }

  /** Joining a complete power-of-two subtree and what follows it is one tree. */
  lemma TreeJoins(m: Config, left: seq<byte>, right: seq<byte>, counter: nat, s: nat)
    requires IsPow2(s) && |left| == 1024 * s && 0 < |right| <= |left|
    ensures Tree(m, left + right, counter)
         == ParentOutput(m, TreeCv(m, left, counter), TreeCv(m, right, counter + s))
  {
    LeftLenIs(s, |right|);
    assert (left + right)[..|left|] == left && (left + right)[|left|..] == right;
  }

  /** Only whole leading blocks matter to the running chaining value. */
  lemma {:induction false} ChunkCvPrefix(m: Config, a: seq<byte>, b: seq<byte>, counter: nat, n: nat)
    requires 64 * n <= |a|
    ensures ChunkCvAfter(m, a + b, counter, n) == ChunkCvAfter(m, a, counter, n)
  {
    if n != 0 {
      ChunkCvPrefix(m, a, b, counter, n - 1);
      assert (a + b)[64 * (n - 1)..64 * n] == a[64 * (n - 1)..64 * n];
    }
  }

  /** Two configurations whose compressions agree wherever the ROOT flag is clear. */
  ghost predicate AgreeOffRoot(m: Config, m': Config) {
    && m.key == m'.key && m.flags == m'.flags
    && forall cv, block, len, counter, flags :: Root !in flags ==>
         m.compress(cv, block, len, counter, flags) == m'.compress(cv, block, len, counter, flags)
  }

  lemma {:induction false} ChunkCvOffRoot(m: Config, m': Config, bytes: seq<byte>, counter: nat, n: nat)
    requires AgreeOffRoot(m, m') && Root !in m.flags && 64 * n <= |bytes|
    ensures ChunkCvAfter(m, bytes, counter, n) == ChunkCvAfter(m', bytes, counter, n)
  {
    if n != 0 {
      ChunkCvOffRoot(m, m', bytes, counter, n - 1);
    }
  }

  /**
   * No node below the root is ever compressed with the ROOT flag: the tree is
   * the same for any compression function that differs only under that flag.
   */
  lemma {:induction false} OnlyTheRootHasTheRootFlag(m: Config, m': Config, input: seq<byte>, counter: nat)
    requires AgreeOffRoot(m, m') && Root !in m.flags
    ensures Tree(m, input, counter) == Tree(m', input, counter)
    ensures TreeCv(m, input, counter) == TreeCv(m', input, counter)
    ensures Root !in Tree(m, input, counter).flags
    decreases |input|
  {
    if |input| <= CHUNK_LEN {
      var n := LastBlock(|input|);
      ChunkCvOffRoot(m, m', input, counter, n);
    } else {
      var l := LeftLen(|input|);
      assert TreeCv(m, input[..l], counter) == TreeCv(m', input[..l], counter) by {
        OnlyTheRootHasTheRootFlag(m, m', input[..l], counter);
      }
      assert TreeCv(m, input[l..], counter + l / 1024) == TreeCv(m', input[l..], counter + l / 1024) by {
        OnlyTheRootHasTheRootFlag(m, m', input[l..], counter + l / 1024);
      }
    }
  }
}
