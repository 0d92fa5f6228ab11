/** The byte format of a commit object (src/cas/commit.cpp). */
module CommitCodec {
  import opened CasTypes
  import opened Bytes
  import opened Sequences

  datatype Commit = Commit(tree: Hash, parents: seq<Hash>, sessionId: nat, timestampNs: nat, commitLabel: string, policyVersion: nat)

  predicate InRange(c: Commit) {
    && c.sessionId < TWO64 && c.timestampNs < TWO64 && c.policyVersion < TWO32
    && ByteString(c.commitLabel) && |c.parents| < TWO32
  }

  // ---- writing ---------------------------------------------------------------------------

  function Zeros(n: nat): seq<byte> {
    seq(n, _ => 0)
  }

  function HashBytes(h: Hash): seq<byte> {
    h.bytes
  }

  function EncodeHead(c: Commit): seq<byte> {
    c.tree.bytes + Le(|c.parents|, 4)
  }

  /** The buffer is sized by the full text; what the length field cannot say stays zero at the end. */
  function EncodeTail(c: Commit): seq<byte> {
    var text := StoredText(c.commitLabel);
    Le(c.sessionId, 8) + Le(c.timestampNs, 8) + Le(|text|, 2) + ToBytes(text) + Le(c.policyVersion, 4) +
    Zeros(|c.commitLabel| - |text|)
  }

  function Encode(c: Commit): seq<byte> {
    EncodeHead(c) + Flatten(MapAll(HashBytes, c.parents)) + EncodeTail(c)
  }

  /** A zeroed buffer of which the front has been filled. */
  ghost predicate Filled(buf: array<byte>, pos: nat, done: seq<byte>)
    reads buf
  {
    pos == |done| <= buf.Length && buf[..] == done + Zeros(buf.Length - pos)
  }

  method Fill(buf: array<byte>, pos: nat, data: seq<byte>, ghost done: seq<byte>) returns (next: nat)
    requires Filled(buf, pos, done) && pos + |data| <= buf.Length
    modifies buf
    ensures Filled(buf, next, done + data)
  {
    assert buf[..pos] == done && buf[pos + |data|..] == Zeros(buf.Length - pos - |data|);
    next := PutAt(buf, pos, data);
  }

  /** The copy loop over the parents. */
  method FillParents(buf: array<byte>, pos: nat, parents: seq<Hash>, ghost done: seq<byte>) returns (next: nat)
    requires Filled(buf, pos, done) && pos + 32 * |parents| <= buf.Length
    modifies buf
    ensures next == pos + 32 * |parents| && Filled(buf, next, done + Flatten(MapAll(HashBytes, parents)))
  {
    next := pos;
    assert done + Flatten(MapAll(HashBytes, parents[..0])) == done;
    for i := 0 to |parents|
      invariant next == pos + 32 * i && Filled(buf, next, done + Flatten(MapAll(HashBytes, parents[..i])))
    {
      PutNext(HashBytes, parents, i, done);
      next := Fill(buf, next, parents[i].bytes, done + Flatten(MapAll(HashBytes, parents[..i])));
    }
    assert parents[..|parents|] == parents;
  }

  function EncodeNumbers(c: Commit): seq<byte> {
    Le(c.sessionId, 8) + Le(c.timestampNs, 8)
  }

  function EncodeLabel(text: string): seq<byte> {
    Le(|StoredText(text)|, 2) + ToBytes(StoredText(text))
  }

  method FillNumbers(buf: array<byte>, pos: nat, c: Commit, ghost done: seq<byte>) returns (next: nat)
    requires Filled(buf, pos, done) && pos + 8 + 8 <= buf.Length
    modifies buf
    ensures next == pos + 16 && Filled(buf, next, done + EncodeNumbers(c))
  {
    next := Fill(buf, pos, Le(c.sessionId, 8), done);
    next := Fill(buf, next, Le(c.timestampNs, 8), done + Le(c.sessionId, 8));
    Regroup(done, Le(c.sessionId, 8), Le(c.timestampNs, 8));
  }

  /** The length field is 16 bits wide, and only that many bytes are copied. */
  method FillLabel(buf: array<byte>, pos: nat, text: string, ghost done: seq<byte>) returns (next: nat)
    requires Filled(buf, pos, done) && pos + 2 + |text| <= buf.Length
    modifies buf
    ensures next == pos + 2 + |StoredText(text)| && Filled(buf, next, done + EncodeLabel(text))
  {
    Cut(|text|, TWO16);
    var n := |text| % TWO16;
    next := Fill(buf, pos, Le(n, 2), done);
    next := Fill(buf, next, ToBytes(text[..n]), done + Le(n, 2));
    Regroup(done, Le(n, 2), ToBytes(text[..n]));
  }

  lemma TailIs(c: Commit)
    ensures EncodeTail(c) == EncodeNumbers(c) + EncodeLabel(c.commitLabel) + Le(c.policyVersion, 4) +
                             Zeros(|c.commitLabel| - |StoredText(c.commitLabel)|)
  {}

  /** What follows the parents. */
  method FillTail(buf: array<byte>, pos: nat, c: Commit, ghost done: seq<byte>)
    requires Filled(buf, pos, done) && buf.Length == pos + 8 + 8 + 2 + |c.commitLabel| + 4
    modifies buf
    ensures buf[..] == done + EncodeTail(c)
  {
    ghost var numbers, text := EncodeNumbers(c), EncodeLabel(c.commitLabel);
    var p := FillNumbers(buf, pos, c, done);
    p := FillLabel(buf, p, c.commitLabel, done + numbers);
    p := Fill(buf, p, Le(c.policyVersion, 4), done + numbers + text);
    TailIs(c);
    assert done + numbers + text + Le(c.policyVersion, 4) + Zeros(buf.Length - p) ==
           done + (numbers + text + Le(c.policyVersion, 4) + Zeros(buf.Length - p));
  }

  /** One buffer of the final size, filled from the front. */
  method SerializeCommit(c: Commit) returns (buf: array<byte>)
    ensures fresh(buf) && buf[..] == Encode(c)
  {
    var size := 32 + 4 + |c.parents| * 32 + 8 + 8 + 2 + |c.commitLabel| + 4;
    buf := new byte[size](_ => 0);
    assert buf[..] == [] + Zeros(size);
    var pos := Fill(buf, 0, c.tree.bytes, []);
    pos := Fill(buf, pos, Le(|c.parents|, 4), [] + c.tree.bytes);
    assert [] + c.tree.bytes + Le(|c.parents|, 4) == EncodeHead(c);
    pos := FillParents(buf, pos, c.parents, EncodeHead(c));
    FillTail(buf, pos, c, EncodeHead(c) + Flatten(MapAll(HashBytes, c.parents)));
  }

  // ---- what a body says ---------------------------------------------------------------------

  function ParseHashBytes(b: seq<byte>): Option<(Hash, nat)> {
    if |b| < 32 then None else Some((Hash(b[..32]), 32))
  }

  datatype Tail = Tail(sessionId: nat, timestampNs: nat, commitLabel: string, policyVersion: nat)

  function DecodeTail(rest: seq<byte>): Option<Tail> {
    if |rest| < 8 + 8 + 2 + 4 then None
    else
      var n := FromLe(rest[16..18]);
      if |rest| < 18 + n + 4 then None
      else Some(Tail(FromLe(rest[..8]), FromLe(rest[8..16]), FromBytes(rest[18..18 + n]), FromLe(rest[18 + n..22 + n])))
  }

  /** The format itself: None for a body too short for the parents it claims. */
  function Decode(body: seq<byte>): Option<Commit> {
    if |body| < 32 + 4 then None
    else
      match ParseMany(ParseHashBytes, body[36..], FromLe(body[32..36]))
      case None => None
      case Some((parents, used)) =>
        if 36 + used > |body| then None
        else
          match DecodeTail(body[36 + used..])
          case None => None
          case Some(t) => Some(Commit(Hash(body[..32]), parents, t.sessionId, t.timestampNs, t.commitLabel, t.policyVersion))
  }

  // ---- what the reader does with it -----------------------------------------------------------

  /** A reader that follows the count past the end of the body has no result of its own. */
  datatype Outcome = Refused | ReadsPast | Parsed(commit: Commit)

  /** A read of some bytes at an offset. */
  datatype Access = Access(at: nat, size: nat)
  {
    predicate Inside(body: seq<byte>) { at + size <= |body| }
  }

  predicate AllInside(accesses: seq<Access>, body: seq<byte>) {
    forall a | a in accesses :: a.Inside(body)
  }

  function Claimed(body: seq<byte>): nat
    requires |body| >= 36
  {
    FromLe(body[32..36])
  }

  /** The length test multiplies the 32-bit count in 32 bits. */
  predicate TestPasses(body: seq<byte>)
    requires |body| >= 36
  {
    |body| >= 36 + (32 * Claimed(body)) % TWO32 + 8 + 8 + 2 + 4
  }

  function ParentAccesses(at: nat, n: nat): seq<Access> {
    if n == 0 then [] else ParentAccesses(at, n - 1) + [Access(at + 32 * (n - 1), 32)]
  }

  /** After the parents; a label that does not fit, with what follows it, is tested for. */
  function TailAccesses(body: seq<byte>, at: nat): seq<Access> {
    [Access(at, 8), Access(at + 8, 8), Access(at + 16, 2)] +
    if at + 18 > |body| then []
    else
      var n := FromLe(body[at + 16..at + 18]);
      if |body| < at + 18 + n + 4 then [] else [Access(at + 18, n), Access(at + 18 + n, 4)]
  }

  /** Every read of the source on this body, in order. */
  function Accesses(body: seq<byte>): seq<Access> {
    if |body| < 36 then []
    else
      [Access(0, 32), Access(32, 4)] +
      if !TestPasses(body) then [] else ParentAccesses(36, Claimed(body)) + TailAccesses(body, 36 + 32 * Claimed(body))
  }

  function Deserialize(body: seq<byte>): Outcome {
    if !AllInside(Accesses(body), body) then ReadsPast
    else
      match Decode(body)
      case None => Refused
      case Some(c) => Parsed(c)
  }

  lemma {:induction false} ParentAccessesEnd(at: nat, n: nat, body: seq<byte>)
    ensures AllInside(ParentAccesses(at, n), body) <==> n == 0 || at + 32 * n <= |body|
  {
    if n > 0 {
      ParentAccessesEnd(at, n - 1, body);
      var last := Access(at + 32 * (n - 1), 32);
      assert last in ParentAccesses(at, n);
      assert forall a :: a in ParentAccesses(at, n) <==> a in ParentAccesses(at, n - 1) || a == last;
    }
  }

  lemma TailAccessesEnd(body: seq<byte>, at: nat)
    ensures AllInside(TailAccesses(body, at), body) <==> at + 18 <= |body|
  {
    assert Access(at + 16, 2) in TailAccesses(body, at);
  }

  /** The reads beyond the length test, as one list of their ends. */
  lemma PassedAccesses(body: seq<byte>)
    requires |body| >= 36 && TestPasses(body)
    ensures AllInside(Accesses(body), body) <==> 54 + 32 * Claimed(body) <= |body|
  {
    var c := Claimed(body);
    var head, parents, tail := [Access(0, 32), Access(32, 4)], ParentAccesses(36, c), TailAccesses(body, 36 + 32 * c);
    assert Accesses(body) == head + (parents + tail);
    assert AllInside(head, body);
    JoinedInside(head, parents + tail, body);
    JoinedInside(parents, tail, body);
    assert AllInside(parents, body) <==> c == 0 || 36 + 32 * c <= |body| by {
      ParentAccessesEnd(36, c, body);
    }
    assert AllInside(tail, body) <==> 36 + 32 * c + 18 <= |body| by {
      TailAccessesEnd(body, 36 + 32 * c);
    }
  }

  lemma JoinedInside(a: seq<Access>, b: seq<Access>, body: seq<byte>)
    ensures AllInside(a + b, body) <==> AllInside(a, body) && AllInside(b, body)
  {
    assert forall x :: x in a + b <==> x in a || x in b;
  }

  /**
   * Every read lies inside the body exactly when the body is too short for a count, or
   * the wrapped test refuses it, or it really holds the parents it claims, two integers
   * and a length.
   */
  lemma ReadsStayInsideExactly(body: seq<byte>)
    ensures AllInside(Accesses(body), body) <==>
      |body| < 36 || |body| < 58 + (32 * Claimed(body)) % TWO32 || 54 + 32 * Claimed(body) <= |body|
  {
    if |body| >= 36 && TestPasses(body) {
      PassedAccesses(body);
    }
  }

  /** Below 2^27 parents the product does not wrap, and the test does what it is for. */
  lemma SmallCountsStayInside(body: seq<byte>)
    requires |body| >= 36 && Claimed(body) < 0x800_0000
    ensures Deserialize(body) != ReadsPast
  {
    ReadsStayInsideExactly(body);
    Cut(32 * Claimed(body), TWO32);
  }

  /** 2^27 parents claimed by a body of a few bytes pass the test and are read past its end. */
  lemma WrappedCountReadsPast(tree: Bytes32, rest: seq<byte>)
    requires 22 <= |rest| < TWO32
    ensures Deserialize(tree + Le(0x800_0000, 4) + rest) == ReadsPast
  {
    var body := tree + Le(0x800_0000, 4) + rest;
    Widths();
    LeRoundTrip(0x800_0000, 4);
    assert body[32..36] == Le(0x800_0000, 4);
    ReadsStayInsideExactly(body);
  }

  /** The parents are read exactly when they are there. */
  lemma {:induction false} ParentsParse(b: seq<byte>, n: nat)
    ensures ParseMany(ParseHashBytes, b, n).Some? <==> 32 * n <= |b|
    ensures ParseMany(ParseHashBytes, b, n).Some? ==> ParseMany(ParseHashBytes, b, n).value.1 == 32 * n
    decreases n
  {
    if n > 0 && |b| >= 32 {
      ParentsParse(b[32..], n - 1);
    }
  }

  /** What the wrapped test refuses does not parse either. */
  lemma RefusedDoesNotParse(body: seq<byte>)
    requires |body| < 36 || !TestPasses(body)
    ensures Decode(body) == None && Deserialize(body) == Refused
  {
    ReadsStayInsideExactly(body);
    if |body| >= 36 {
      Cut(32 * Claimed(body), TWO32);
      ParentsParse(body[36..], Claimed(body));
    }
  }

  /** Beyond the length test the parents are there or the reader leaves the body. */
  lemma PassedOutcome(body: seq<byte>)
    requires |body| >= 36 && TestPasses(body)
    ensures 54 + 32 * Claimed(body) > |body| ==> Deserialize(body) == ReadsPast
    ensures 54 + 32 * Claimed(body) <= |body| ==>
      Deserialize(body) == match Decode(body) case None => Refused case Some(c) => Parsed(c)
  {
    PassedAccesses(body);
  }

  lemma NextParent(body: seq<byte>, pos: nat, n: nat, out: seq<Hash>)
    requires 36 <= pos && pos + 32 <= |body| && n > 0
    ensures Prepend(out, pos - 36, ParseMany(ParseHashBytes, body[pos..], n)) ==
            Prepend(out + [Hash(body[pos..pos + 32])], pos + 32 - 36, ParseMany(ParseHashBytes, body[pos + 32..], n - 1))
  {
    ReadNext(ParseHashBytes, body, 36, pos, n, out);
    assert body[pos..][..32] == body[pos..pos + 32];
  }

  /** The copy loop over the parents; it stops where it would leave the body. */
  method ReadParents(body: seq<byte>, pc: nat) returns (parents: Option<seq<Hash>>)
    requires |body| >= 36
    ensures parents.Some? <==> 36 + 32 * pc <= |body|
    ensures parents.Some? ==> ParseMany(ParseHashBytes, body[36..], pc) == Some((parents.value, 32 * pc))
  {
    var pos, out := 36, [];
    PrependNothing(ParseMany(ParseHashBytes, body[36..], pc));
    for i := 0 to pc
      invariant pos == 36 + 32 * i <= |body|
      invariant ParseMany(ParseHashBytes, body[36..], pc) == Prepend(out, pos - 36, ParseMany(ParseHashBytes, body[pos..], pc - i))
    {
      if pos + 32 > |body| {
        ParentsParse(body[36..], pc);
        return None;
      }
      NextParent(body, pos, pc - i, out);
      out := out + [Hash(body[pos..pos + 32])];
      pos := pos + 32;
    }
    assert out + [] == out;
    parents := Some(out);
  }

  method DeserializeCommit(body: seq<byte>) returns (out: Outcome)
    ensures out == Deserialize(body)
  {
    if |body| < 32 + 4 {
      return Refused;
    }
    var pc := FromLe(body[32..36]);
    if |body| < 36 + (32 * pc) % TWO32 + 8 + 8 + 2 + 4 {
      RefusedDoesNotParse(body);
      return Refused;
    }
    PassedOutcome(body);
    var parents := ReadParents(body, pc);
    var pos := 36 + 32 * pc;
    if parents.None? || pos + 18 > |body| {
      return ReadsPast;
    }
    var t := ReadTail(body, pos);
    out := if t.None? then Refused
           else Parsed(Commit(Hash(body[..32]), parents.value, t.value.sessionId, t.value.timestampNs,
                              t.value.commitLabel, t.value.policyVersion));
  }

  /** The two integers, the label behind its length, and the last integer. */
  method ReadTail(body: seq<byte>, at: nat) returns (out: Option<Tail>)
    requires at + 18 <= |body|
    ensures out == DecodeTail(body[at..])
  {
    var pos := at;
    var rest := body[at..];
    assert rest[..8] == body[pos..pos + 8] && rest[8..16] == body[pos + 8..pos + 16] && rest[16..18] == body[pos + 16..pos + 18];
    var sessionId := FromLe(body[pos..pos + 8]);
    pos := pos + 8;
    var timestampNs := FromLe(body[pos..pos + 8]);
    pos := pos + 8;
    var n := FromLe(body[pos..pos + 2]);
    pos := pos + 2;
    if |body| < pos + n + 4 {
      return None;
    }
    assert rest[18..18 + n] == body[pos..pos + n] && rest[18 + n..22 + n] == body[pos + n..pos + n + 4];
    out := Some(Tail(sessionId, timestampNs, FromBytes(body[pos..pos + n]), FromLe(body[pos + n..pos + n + 4])));
  }

  // ---- round trip ------------------------------------------------------------------------

  lemma HashUndone(h: Hash, tail: seq<byte>)
    ensures UndoesAt(ParseHashBytes, HashBytes(h), tail, h)
  {
    HeadAndTail(h.bytes, tail);
  }

  lemma TailRoundTrip(c: Commit)
    requires InRange(c)
    ensures DecodeTail(EncodeTail(c)) == Some(Tail(c.sessionId, c.timestampNs, StoredText(c.commitLabel), c.policyVersion))
  {
    var text := StoredText(c.commitLabel);
    var n, b := |text|, EncodeTail(c);
    Widths();
    LeRoundTrip(c.sessionId, 8);
    LeRoundTrip(c.timestampNs, 8);
    LeRoundTrip(n, 2);
    LeRoundTrip(c.policyVersion, 4);
    BytesRoundTrip(text);
    assert b[..8] == Le(c.sessionId, 8) && b[8..16] == Le(c.timestampNs, 8) && b[16..18] == Le(n, 2);
    assert b[18..18 + n] == ToBytes(text);
    assert b[18 + n..22 + n] == Le(c.policyVersion, 4);
  }

  lemma ParentsUndone(hashes: seq<Hash>, rest: seq<byte>)
    ensures ParseMany(ParseHashBytes, Flatten(MapAll(HashBytes, hashes)) + rest, |hashes|) ==
            Some((hashes, |Flatten(MapAll(HashBytes, hashes))|))
  {
    var parts := MapAll(HashBytes, hashes);
    forall i, tail | 0 <= i < |parts| ensures UndoesAt(ParseHashBytes, parts[i], tail, hashes[i]) {
      HashUndone(hashes[i], tail);
    }
    ParseManyUndoes(ParseHashBytes, parts, hashes, |hashes|, rest);
    assert hashes[..|hashes|] == hashes && parts[..|parts|] == parts;
  }

  lemma Parts(tree: seq<byte>, count: seq<byte>, parents: seq<byte>, tail: seq<byte>)
    requires |tree| == 32 && |count| == 4
    ensures var body := (tree + count) + parents + tail;
      && |body| == 36 + |parents| + |tail| && body[..32] == tree && body[32..36] == count
      && body[36..] == parents + tail && body[36 + |parents|..] == tail
  {}

  /** Whatever is written, this is what reading gives. */
  lemma DecodeEncoded(c: Commit)
    requires InRange(c)
    ensures Decode(Encode(c)) == Some(c.(commitLabel := StoredText(c.commitLabel)))
  {
    var parents, tail := Flatten(MapAll(HashBytes, c.parents)), EncodeTail(c);
    Widths();
    LeRoundTrip(|c.parents|, 4);
    Parts(c.tree.bytes, Le(|c.parents|, 4), parents, tail);
    ParentsUndone(c.parents, tail);
    TailRoundTrip(c);
  }

  /** A body that parses holds its parents, so the reader stays inside it. */
  lemma ParsedStaysInside(body: seq<byte>)
    requires Decode(body).Some?
    ensures Deserialize(body) == Parsed(Decode(body).value)
  {
    ParentsParse(body[36..], Claimed(body));
    ReadsStayInsideExactly(body);
  }

  /** A commit comes back as it was exactly when its text fits the length field. */
  lemma RoundTripExactly(c: Commit)
    requires InRange(c)
    ensures Deserialize(Encode(c)) == Parsed(c) <==> |c.commitLabel| < TWO16
  {
    DecodeEncoded(c);
    ParsedStaysInside(Encode(c));
    StoredWhole(c.commitLabel);
  }
}
