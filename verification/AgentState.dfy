/** Agent-state records as text (src/cas/agent_state.cpp). */
module AgentState {
  import opened CasTypes
  import opened Bytes
  import opened LineCodec
  import opened RecordCodec
  import opened Sequences

  datatype Kind = Session | Execution | ToolCall | RuntimeResource | ExternalHandle | FsLink | RuntimeSnapshot

  datatype Record = Record(
    recordVersion: nat, stateId: string, parentStateId: string, snapshotBaseStateId: string, branch: string,
    fsCommit: Hash, unionStateId: string, runtimeId: string, agentId: string, sequence: nat, kind: Kind,
    payloadSchema: string, payloadInline: string, payloadRef: string, dependencyHashes: seq<Hash>,
    timestampNs: nat, boundary: bool)

  function Fresh(): Record {
    Record(1, "", "", "", "main", ZERO_HASH, "", "", "", 0, Session, "", "", "", [], 0, false)
  }

  /** The integer fields have 32 and 64 bits. */
  predicate InRange(r: Record) {
    r.recordVersion < TWO32 && r.sequence < TWO64 && r.timestampNs < TWO64
  }

  // ---- keys and kinds --------------------------------------------------------------------

  datatype Key =
    | RecordVersion | ParentStateId | SnapshotBaseStateId | Branch | FsCommit | UnionStateId | RuntimeId | AgentId
    | Sequence | KindKey | PayloadSchema | PayloadInline | PayloadRef | DependencyHash | TimestampNs | Boundary

  function KeyText(k: Key): string {
    match k
    case RecordVersion => "record_version"
    case ParentStateId => "parent_state_id"
    case SnapshotBaseStateId => "snapshot_base_state_id"
    case Branch => "branch"
    case FsCommit => "fs_commit"
    case UnionStateId => "union_state_id"
    case RuntimeId => "runtime_id"
    case AgentId => "agent_id"
    case Sequence => "sequence"
    case KindKey => "kind"
    case PayloadSchema => "payload_schema"
    case PayloadInline => "payload_inline"
    case PayloadRef => "payload_ref"
    case DependencyHash => "dependency_hash"
    case TimestampNs => "timestamp_ns"
    case Boundary => "boundary"
  }

  function AllKeys(): seq<Key> {
    [RecordVersion, ParentStateId, SnapshotBaseStateId, Branch, FsCommit, UnionStateId, RuntimeId, AgentId,
     Sequence, KindKey, PayloadSchema, PayloadInline, PayloadRef, DependencyHash, TimestampNs, Boundary]
  }

  function KeyNumber(k: Key): nat {
    match k
    case RecordVersion => 0
    case ParentStateId => 1
    case SnapshotBaseStateId => 2
    case Branch => 3
    case FsCommit => 4
    case UnionStateId => 5
    case RuntimeId => 6
    case AgentId => 7
    case Sequence => 8
    case KindKey => 9
    case PayloadSchema => 10
    case PayloadInline => 11
    case PayloadRef => 12
    case DependencyHash => 13
    case TimestampNs => 14
    case Boundary => 15
  }

  /** Two characters and the length tell the keys apart. */
  function Signature(s: string): (nat, char, char) {
    (|s|, if |s| > 0 then s[0] else ' ', if |s| > 8 then s[8] else ' ')
  }

  function KeySignature(k: Key): (nat, char, char) {
    match k
    case RecordVersion => (14, 'r', 'e')
    case ParentStateId => (15, 'p', 't')
    case SnapshotBaseStateId => (22, 's', '_')
    case Branch => (6, 'b', ' ')
    case FsCommit => (9, 'f', 't')
    case UnionStateId => (14, 'u', 'a')
    case RuntimeId => (10, 'r', 'i')
    case AgentId => (8, 'a', ' ')
    case Sequence => (8, 's', ' ')
    case KindKey => (4, 'k', ' ')
    case PayloadSchema => (14, 'p', 's')
    case PayloadInline => (14, 'p', 'i')
    case PayloadRef => (11, 'p', 'r')
    case DependencyHash => (15, 'd', 'c')
    case TimestampNs => (12, 't', 'p')
    case Boundary => (8, 'b', ' ')
  }

  lemma SignatureOfKey(k: Key)
    ensures Signature(KeyText(k)) == KeySignature(k)
  {}

  lemma KeysDiffer(j: Key, k: Key)
    requires j != k
    ensures KeyText(j) != KeyText(k)
  {
    SignatureOfKey(j);
    SignatureOfKey(k);
  }

  lemma KeyIsKnown(k: Key)
    ensures FindKey(AllKeys(), KeyText, KeyText(k)) == Some(k)
  {
    assert AllKeys()[KeyNumber(k)] == k;
    forall j | j != k ensures KeyText(j) != KeyText(k) {
      KeysDiffer(j, k);
    }
    FindsKey(AllKeys(), KeyText, k);
  }

  function KindLabel(k: Kind): string {
    match k
    case Session => "session"
    case Execution => "execution"
    case ToolCall => "tool_call"
    case RuntimeResource => "runtime_resource"
    case ExternalHandle => "external_handle"
    case FsLink => "fs_link"
    case RuntimeSnapshot => "runtime_snapshot"
  }

  function AllKinds(): seq<Kind> {
    [Session, Execution, ToolCall, RuntimeResource, ExternalHandle, FsLink, RuntimeSnapshot]
  }

  function KindNumber(k: Kind): nat {
    match k
    case Session => 0
    case Execution => 1
    case ToolCall => 2
    case RuntimeResource => 3
    case ExternalHandle => 4
    case FsLink => 5
    case RuntimeSnapshot => 6
  }

  /** An unknown kind is an error. */
  function ParseKind(text: string): Option<Kind> {
    FindKey(AllKinds(), KindLabel, text)
  }

  function KindSignature(k: Kind): (nat, char, char) {
    match k
    case Session => (7, 's', ' ')
    case Execution => (9, 'e', 'n')
    case ToolCall => (9, 't', 'l')
    case RuntimeResource => (16, 'r', 'r')
    case ExternalHandle => (15, 'e', '_')
    case FsLink => (7, 'f', ' ')
    case RuntimeSnapshot => (16, 'r', 's')
  }

  lemma SignatureOfKind(k: Kind)
    ensures Signature(KindLabel(k)) == KindSignature(k)
  {}

  lemma KindRoundTrip(k: Kind)
    ensures ParseKind(KindLabel(k)) == Some(k)
  {
    assert AllKinds()[KindNumber(k)] == k;
    forall j: Kind | j != k ensures KindLabel(j) != KindLabel(k) {
      SignatureOfKind(j);
      SignatureOfKind(k);
    }
    FindsKey(AllKinds(), KindLabel, k);
  }

  // ---- reading a record ----------------------------------------------------------------------

  /** Unset, or the hash of an object. */
  predicate ValidStateId(s: string) {
    s == "" || IsHexHash(s)
  }

  function DecodeStateId(value: string): Option<string> {
    match PercentDecode(value)
    case None => None
    case Some(s) => if ValidStateId(s) then Some(s) else None
  }

  function ParseDependency(value: string): Option<Hash> {
    match ParseHash(value)
    case None => None
    case Some(h) => if h == ZERO_HASH then None else Some(h)
  }

  function ParseFlag(value: string): Option<bool> {
    if value == "1" then Some(true) else if value == "0" then Some(false) else None
  }

  predicate IsText(k: Key) {
    k.Branch? || k.RuntimeId? || k.AgentId? || k.PayloadSchema? || k.PayloadInline?
  }

  predicate IsStateId(k: Key) {
    k.ParentStateId? || k.SnapshotBaseStateId? || k.UnionStateId? || k.PayloadRef?
  }

  /** The field of a key that holds a text or an id. */
  function TextOf(r: Record, k: Key): string {
    match k
    case ParentStateId => r.parentStateId
    case SnapshotBaseStateId => r.snapshotBaseStateId
    case Branch => r.branch
    case UnionStateId => r.unionStateId
    case RuntimeId => r.runtimeId
    case AgentId => r.agentId
    case PayloadSchema => r.payloadSchema
    case PayloadInline => r.payloadInline
    case PayloadRef => r.payloadRef
    case _ => ""
  }

  function PutText(r: Record, k: Key, s: string): Record {
    match k
    case ParentStateId => r.(parentStateId := s)
    case SnapshotBaseStateId => r.(snapshotBaseStateId := s)
    case Branch => r.(branch := s)
    case UnionStateId => r.(unionStateId := s)
    case RuntimeId => r.(runtimeId := s)
    case AgentId => r.(agentId := s)
    case PayloadSchema => r.(payloadSchema := s)
    case PayloadInline => r.(payloadInline := s)
    case PayloadRef => r.(payloadRef := s)
    case _ => r
  }

  /** A decoded text into its field; an id has to be a valid one. */
  function AssignText(r: Record, k: Key, decoded: Option<string>): Option<Record> {
    match decoded
    case None => None
    case Some(s) => if IsStateId(k) && !ValidStateId(s) then None else Some(PutText(r, k, s))
  }

  /** One field into the record; None is the error return. */
  function Assign(r: Record, k: Key, value: string): Option<Record> {
    match k
    case RecordVersion => With(ParseDec(value, TWO32), n => r.(recordVersion := n))
    case FsCommit => With(ParseHash(value), h => r.(fsCommit := h))
    case Sequence => With(ParseDec(value, TWO64), n => r.(sequence := n))
    case KindKey => With(ParseKind(value), kind => r.(kind := kind))
    case DependencyHash => With(ParseDependency(value), h => r.(dependencyHashes := r.dependencyHashes + [h]))
    case TimestampNs => With(ParseDec(value, TWO64), n => r.(timestampNs := n))
    case Boundary => With(ParseFlag(value), b => r.(boundary := b))
    case _ => AssignText(r, k, PercentDecode(value))
  }

  function Header(): string {
    "agentvfs.agent_state.v1\n"
  }

  function AgentFormat(): Format<Record, Key> {
    Format(Header(), AllKeys(), KeyText, Assign)
  }

  function Deserialize(body: string): Option<Record> {
    Parse(AgentFormat(), Fresh(), body)
  }

  // ---- writing a record ------------------------------------------------------------------------

  function DependencyItems(hashes: seq<Hash>): (items: seq<Item<Key>>)
    ensures |items| == |hashes|
  {
    seq(|hashes|, i requires 0 <= i < |hashes| => Item(DependencyHash, HashToHex(hashes[i])))
  }

  /** How a field is written; the dependencies have lines of their own. */
  function ValueOf(r: Record, k: Key): string {
    match k
    case RecordVersion => ToDec(r.recordVersion)
    case FsCommit => HashToHex(r.fsCommit)
    case Sequence => ToDec(r.sequence)
    case KindKey => KindLabel(r.kind)
    case DependencyHash => ""
    case TimestampNs => ToDec(r.timestampNs)
    case Boundary => if r.boundary then "1" else "0"
    case _ => PercentEncode(TextOf(r, k))
  }

  /** The order in which the fields are written; the dependencies stand between. */
  function HeadKeys(): seq<Key> {
    [RecordVersion, ParentStateId, SnapshotBaseStateId, Branch, FsCommit, UnionStateId, RuntimeId, AgentId,
     Sequence, KindKey, PayloadSchema, PayloadInline, PayloadRef]
  }

  function TailKeys(): seq<Key> {
    [TimestampNs, Boundary]
  }

  function Items(r: Record): seq<Item<Key>> {
    ItemsFor(ValueOf, r, HeadKeys()) + DependencyItems(r.dependencyHashes) + ItemsFor(ValueOf, r, TailKeys())
  }

  function Serialize(r: Record): string {
    Print(Header(), KeyText, Items(r))
  }

  // ---- round trip ----------------------------------------------------------------------------------

  predicate WellFormed(r: Record) {
    && ValidStateId(r.parentStateId) && ValidStateId(r.snapshotBaseStateId)
    && ValidStateId(r.unionStateId) && ValidStateId(r.payloadRef)
    && forall i :: 0 <= i < |r.dependencyHashes| ==> r.dependencyHashes[i] != ZERO_HASH
  }

  /** Whether a value is accepted does not depend on the record so far. */
  predicate Accepts(i: Item<Key>) {
    match i.key
    case RecordVersion => ParseDec(i.value, TWO32).Some?
    case Sequence => ParseDec(i.value, TWO64).Some?
    case TimestampNs => ParseDec(i.value, TWO64).Some?
    case ParentStateId => DecodeStateId(i.value).Some?
    case SnapshotBaseStateId => DecodeStateId(i.value).Some?
    case UnionStateId => DecodeStateId(i.value).Some?
    case PayloadRef => DecodeStateId(i.value).Some?
    case FsCommit => ParseHash(i.value).Some?
    case DependencyHash => ParseDependency(i.value).Some?
    case KindKey => ParseKind(i.value).Some?
    case Boundary => ParseFlag(i.value).Some?
    case _ => PercentDecode(i.value).Some?
  }

  lemma {:induction false} AcceptedExactly(r: Record, items: seq<Item<Key>>)
    ensures AssignItems(AgentFormat(), r, items).Some? <==> forall i :: 0 <= i < |items| ==> Accepts(items[i])
    decreases |items|
  {
    if items != [] {
      match Assign(r, items[0].key, items[0].value)
      case None => assert !Accepts(items[0]);
      case Some(r') =>
        AcceptedExactly(r', items[1..]);
        assert forall i :: 0 <= i < |items[1..]| ==> items[1..][i] == items[i + 1];
    }
  }

  /** Two records agree on one field. */
  predicate SameField(a: Record, b: Record, k: Key) {
    match k
    case RecordVersion => a.recordVersion == b.recordVersion
    case FsCommit => a.fsCommit == b.fsCommit
    case Sequence => a.sequence == b.sequence
    case KindKey => a.kind == b.kind
    case DependencyHash => a.dependencyHashes == b.dependencyHashes
    case TimestampNs => a.timestampNs == b.timestampNs
    case Boundary => a.boundary == b.boundary
    case _ => TextOf(a, k) == TextOf(b, k)
  }

  function AgentFields(): Fields<Record, Key> {
    Fields(ValueOf, SameField, (r: Record) => r.stateId)
  }

  ghost predicate Took(r: Record, r': Record, t: Record, k: Key) {
    TookField(AgentFields(), r, r', t, k)
  }

  /** A text goes into its own field and no other. */
  lemma PutTextPuts(r: Record, k: Key, s: string, j: Key)
    requires IsText(k) || IsStateId(k)
    ensures TextOf(PutText(r, k, s), k) == s && PutText(r, k, s).stateId == r.stateId
    ensures j != k ==> SameField(PutText(r, k, s), r, j)
  {}

  lemma OwnTextRead(r: Record, t: Record, k: Key) returns (r': Record)
    requires IsText(k) || (IsStateId(k) && ValidStateId(TextOf(t, k)))
    ensures Assign(r, k, ValueOf(t, k)) == Some(r') && Took(r, r', t, k)
  {
    PercentRoundTrip(TextOf(t, k));
    r' := PutText(r, k, TextOf(t, k));
    forall j ensures j == k || SameField(r', r, j) {
      PutTextPuts(r, k, TextOf(t, k), j);
    }
    PutTextPuts(r, k, TextOf(t, k), k);
  }

  predicate IsNumber(k: Key) {
    k.RecordVersion? || k.Sequence? || k.TimestampNs?
  }

  lemma OwnNumberRead(r: Record, t: Record, k: Key) returns (r': Record)
    requires InRange(t) && IsNumber(k)
    ensures Assign(r, k, ValueOf(t, k)) == Some(r') && Took(r, r', t, k)
  {
    match k
    case RecordVersion => ParsedDec(t.recordVersion, TWO32); r' := r.(recordVersion := t.recordVersion);
    case Sequence => ParsedDec(t.sequence, TWO64); r' := r.(sequence := t.sequence);
    case TimestampNs => ParsedDec(t.timestampNs, TWO64); r' := r.(timestampNs := t.timestampNs);
  }

  lemma OwnTokenRead(r: Record, t: Record, k: Key) returns (r': Record)
    requires k.FsCommit? || k.KindKey? || k.Boundary?
    ensures Assign(r, k, ValueOf(t, k)) == Some(r') && Took(r, r', t, k)
  {
    match k
    case FsCommit => HashRoundTrip(t.fsCommit); r' := r.(fsCommit := t.fsCommit);
    case KindKey => KindRoundTrip(t.kind); r' := r.(kind := t.kind);
    case Boundary => r' := r.(boundary := t.boundary);
  }

  lemma OwnValueRead(r: Record, t: Record, k: Key) returns (r': Record)
    requires InRange(t) && WellFormed(t) && k != DependencyHash
    ensures Assign(r, k, ValueOf(t, k)) == Some(r') && Took(r, r', t, k)
  {
    if IsText(k) || IsStateId(k) {
      r' := OwnTextRead(r, t, k);
    } else if IsNumber(k) {
      r' := OwnNumberRead(r, t, k);
    } else {
      r' := OwnTokenRead(r, t, k);
    }
  }

  lemma EveryFieldReads(t: Record, keys: seq<Key>)
    requires InRange(t) && WellFormed(t) && DependencyHash !in keys
    ensures Comparable(AgentFields()) && forall r, k | k in keys :: ReadsOwn(AgentFormat(), AgentFields(), r, t, k)
  {
    forall r, k | k in keys ensures ReadsOwn(AgentFormat(), AgentFields(), r, t, k) {
      var r' := OwnValueRead(r, t, k);
    }
  }

  lemma DependencyReads(h: Hash)
    ensures ParseDependency(HashToHex(h)) == if h == ZERO_HASH then None else Some(h)
  {
    HashRoundTrip(h);
  }

  function AddDependency(r: Record, h: Hash): Record {
    r.(dependencyHashes := r.dependencyHashes + [h])
  }

  lemma OneDependencyReads(r: Record, h: Hash, rest: seq<Item<Key>>)
    requires h != ZERO_HASH
    ensures AssignItems(AgentFormat(), r, [Item(DependencyHash, HashToHex(h))] + rest) == AssignItems(AgentFormat(), AddDependency(r, h), rest)
  {
    DependencyReads(h);
    assert ([Item(DependencyHash, HashToHex(h))] + rest)[1..] == rest;
  }

  lemma {:induction false} DependenciesRead(r: Record, hashes: seq<Hash>)
    requires forall i :: 0 <= i < |hashes| ==> hashes[i] != ZERO_HASH
    ensures AssignItems(AgentFormat(), r, DependencyItems(hashes)) == Some(r.(dependencyHashes := r.dependencyHashes + hashes))
    decreases |hashes|
  {
    if hashes == [] {
      assert r.dependencyHashes + [] == r.dependencyHashes;
    } else {
      assert DependencyItems(hashes) == [Item(DependencyHash, HashToHex(hashes[0]))] + DependencyItems(hashes[1..]);
      OneDependencyReads(r, hashes[0], DependencyItems(hashes[1..]));
      DependenciesRead(AddDependency(r, hashes[0]), hashes[1..]);
      Regroup(r.dependencyHashes, [hashes[0]], hashes[1..]);
      assert [hashes[0]] + hashes[1..] == hashes;
    }
  }

  lemma KeysAreSplit(k: Key)
    ensures (k in HeadKeys()) != (k in TailKeys()) || k == DependencyHash
    ensures DependencyHash !in HeadKeys() && DependencyHash !in TailKeys()
  {
    assert HeadKeys()[..] + [DependencyHash] + TailKeys() == AllKeys()[..13] + [DependencyHash] + AllKeys()[14..];
    assert k == AllKeys()[KeyNumber(k)];
    assert KeyNumber(k) < 13 ==> HeadKeys()[KeyNumber(k)] == k;
    assert KeyNumber(k) > 13 ==> TailKeys()[KeyNumber(k) - 14] == k;
  }

  lemma FieldsDecide(a: Record, b: Record)
    requires a.stateId == b.stateId && forall k :: SameField(a, b, k)
    ensures a == b
  {
    IdFieldsDecide(a, b);
    OtherFieldsDecide(a, b);
  }

  lemma IdFieldsDecide(a: Record, b: Record)
    requires forall k :: SameField(a, b, k)
    ensures a.parentStateId == b.parentStateId && a.snapshotBaseStateId == b.snapshotBaseStateId
    ensures a.unionStateId == b.unionStateId && a.payloadRef == b.payloadRef
    ensures a.branch == b.branch && a.runtimeId == b.runtimeId && a.agentId == b.agentId
    ensures a.payloadSchema == b.payloadSchema && a.payloadInline == b.payloadInline
  {
    assert SameField(a, b, ParentStateId) && SameField(a, b, SnapshotBaseStateId) && SameField(a, b, UnionStateId);
    assert SameField(a, b, PayloadRef) && SameField(a, b, Branch) && SameField(a, b, RuntimeId);
    assert SameField(a, b, AgentId) && SameField(a, b, PayloadSchema) && SameField(a, b, PayloadInline);
  }

  lemma OtherFieldsDecide(a: Record, b: Record)
    requires forall k :: SameField(a, b, k)
    ensures a.recordVersion == b.recordVersion && a.fsCommit == b.fsCommit && a.sequence == b.sequence && a.kind == b.kind
    ensures a.dependencyHashes == b.dependencyHashes && a.timestampNs == b.timestampNs && a.boundary == b.boundary
  {
    assert SameField(a, b, RecordVersion) && SameField(a, b, FsCommit) && SameField(a, b, Sequence);
    assert SameField(a, b, KindKey) && SameField(a, b, DependencyHash) && SameField(a, b, TimestampNs) && SameField(a, b, Boundary);
  }

  /** After the head, the dependencies and the tail every field has been taken over. */
  lemma AllTaken(t: Record, r1: Record, r2: Record, r3: Record)
    requires TookKeys(AgentFields(), Fresh(), r1, t, HeadKeys()) && TookKeys(AgentFields(), r2, r3, t, TailKeys())
    requires r2 == r1.(dependencyHashes := t.dependencyHashes)
    ensures r3 == t.(stateId := "")
  {
    forall k ensures SameField(r3, t.(stateId := ""), k) {
      KeysAreSplit(k);
      assert SameField(r3, if k in TailKeys() then t else r2, k);
      assert SameField(r1, if k in HeadKeys() then t else Fresh(), k);
    }
    FieldsDecide(r3, t.(stateId := ""));
  }

  lemma WellFormedReadsBack(t: Record)
    requires InRange(t) && WellFormed(t)
    ensures AssignItems(AgentFormat(), Fresh(), Items(t)) == Some(t.(stateId := ""))
  {
    var head, deps, tail := ItemsFor(ValueOf, t, HeadKeys()), DependencyItems(t.dependencyHashes), ItemsFor(ValueOf, t, TailKeys());
    KeysAreSplit(DependencyHash);
    EveryFieldReads(t, HeadKeys());
    EveryFieldReads(t, TailKeys());
    var r1 := OwnValuesRead(AgentFormat(), AgentFields(), Fresh(), t, HeadKeys());
    assert SameField(r1, Fresh(), DependencyHash);
    DependenciesRead(r1, t.dependencyHashes);
    var r2 := r1.(dependencyHashes := r1.dependencyHashes + t.dependencyHashes);
    assert [] + t.dependencyHashes == t.dependencyHashes;
    var r3 := OwnValuesRead(AgentFormat(), AgentFields(), r2, t, TailKeys());
    AssignInTwo(AgentFormat(), Fresh(), head, deps);
    AssignInTwo(AgentFormat(), Fresh(), head + deps, tail);
    AllTaken(t, r1, r2, r3);
  }

  // ---- exactly the well-formed records ------------------------------------------------------------

  lemma DependencyAccepted(h: Hash)
    requires Accepts(Item(DependencyHash, HashToHex(h)))
    ensures h != ZERO_HASH
  {
    DependencyReads(h);
  }

  lemma DependenciesAccepted(hashes: seq<Hash>)
    requires forall i :: 0 <= i < |DependencyItems(hashes)| ==> Accepts(DependencyItems(hashes)[i])
    ensures forall i :: 0 <= i < |hashes| ==> hashes[i] != ZERO_HASH
  {
    forall i | 0 <= i < |hashes| ensures hashes[i] != ZERO_HASH {
      assert Accepts(DependencyItems(hashes)[i]);
      DependencyAccepted(hashes[i]);
    }
  }

  /** A record whose fields are all accepted has valid ids. */
  lemma AcceptedIsWellFormed(t: Record)
    requires AssignItems(AgentFormat(), Fresh(), Items(t)).Some?
    ensures WellFormed(t)
  {
    var head, deps, tail := ItemsFor(ValueOf, t, HeadKeys()), DependencyItems(t.dependencyHashes), ItemsFor(ValueOf, t, TailKeys());
    AssignInTwo(AgentFormat(), Fresh(), head + deps, tail);
    AssignInTwo(AgentFormat(), Fresh(), head, deps);
    AcceptedExactly(Fresh(), head);
    AcceptedExactly(AssignItems(AgentFormat(), Fresh(), head).value, deps);
    DependenciesAccepted(t.dependencyHashes);
    IdsAccepted(t);
  }

  lemma IdAccepted(t: Record, k: Key)
    requires IsStateId(k) && Accepts(Item(k, ValueOf(t, k)))
    ensures ValidStateId(TextOf(t, k))
  {
    PercentRoundTrip(TextOf(t, k));
  }

  lemma HeadAccepted(t: Record, k: Key, i: nat)
    requires i < |HeadKeys()| && HeadKeys()[i] == k && IsStateId(k)
    requires forall i :: 0 <= i < |ItemsFor(ValueOf, t, HeadKeys())| ==> Accepts(ItemsFor(ValueOf, t, HeadKeys())[i])
    ensures ValidStateId(TextOf(t, k))
  {
    assert ItemsFor(ValueOf, t, HeadKeys())[i] == Item(k, ValueOf(t, k));
    IdAccepted(t, k);
  }

  lemma IdsAccepted(t: Record)
    requires forall i :: 0 <= i < |ItemsFor(ValueOf, t, HeadKeys())| ==> Accepts(ItemsFor(ValueOf, t, HeadKeys())[i])
    ensures ValidStateId(t.parentStateId) && ValidStateId(t.snapshotBaseStateId)
    ensures ValidStateId(t.unionStateId) && ValidStateId(t.payloadRef)
  {
    HeadAccepted(t, ParentStateId, 1);
    HeadAccepted(t, SnapshotBaseStateId, 2);
    HeadAccepted(t, UnionStateId, 5);
    HeadAccepted(t, PayloadRef, 12);
  }

  // ---- framing ---------------------------------------------------------------------------------------

  lemma IdKeysAreWords(k: Key)
    requires IsStateId(k)
    ensures IsWord(KeyText(k))
  {}

  lemma TextKeysAreWords(k: Key)
    requires IsText(k)
    ensures IsWord(KeyText(k))
  {}

  lemma OtherKeysAreWords(k: Key)
    requires !IsText(k) && !IsStateId(k)
    ensures IsWord(KeyText(k))
  {}

  lemma KeysAreWords(k: Key)
    ensures IsWord(KeyText(k))
  {
    if IsStateId(k) {
      IdKeysAreWords(k);
    } else if IsText(k) {
      TextKeysAreWords(k);
    } else {
      OtherKeysAreWords(k);
    }
  }

  lemma KindsAreWords(k: Kind)
    ensures IsWord(KindLabel(k))
  {}

  lemma ItemIsReadable(t: Record, k: Key)
    ensures Readable(AgentFormat(), Item(k, ValueOf(t, k)))
  {
    KeyIsKnown(k);
    KeysAreWords(k);
    if IsText(k) || IsStateId(k) {
      EncodedIsClean(TextOf(t, k));
    } else if k.FsCommit? {
      HexRoundTrip(t.fsCommit.bytes);
      HexIsClean(HashToHex(t.fsCommit));
    } else if k.KindKey? {
      KindsAreWords(t.kind);
    } else {
      DecRoundTrip(if k.RecordVersion? then t.recordVersion else if k.Sequence? then t.sequence else t.timestampNs);
    }
  }

  lemma DependencyIsReadable(h: Hash)
    ensures Readable(AgentFormat(), Item(DependencyHash, HashToHex(h)))
  {
    KeyIsKnown(DependencyHash);
    KeysAreWords(DependencyHash);
    HexRoundTrip(h.bytes);
    HexIsClean(HashToHex(h));
  }

  lemma AllReadable(t: Record)
    ensures forall i :: 0 <= i < |Items(t)| ==> Readable(AgentFormat(), Items(t)[i])
  {
    forall i | 0 <= i < |Items(t)| ensures Readable(AgentFormat(), Items(t)[i]) {
      var n, m := |HeadKeys()|, |HeadKeys()| + |t.dependencyHashes|;
      if i < n {
        ItemIsReadable(t, HeadKeys()[i]);
      } else if i < m {
        DependencyIsReadable(t.dependencyHashes[i - n]);
      } else {
        ItemIsReadable(t, TailKeys()[i - m]);
      }
    }
  }

  /**
   * Parsing undoes printing, up to the derived id, exactly for the records whose state
   * ids are empty or hashes and whose dependencies are not the zero hash.
   */
  lemma RoundTripExactly(t: Record)
    requires InRange(t)
    ensures Deserialize(Serialize(t)) == Some(t.(stateId := "")) <==> WellFormed(t)
    ensures Deserialize(Serialize(t)).Some? <==> WellFormed(t)
  {
    AllReadable(t);
    ParsePrinted(AgentFormat(), Fresh(), Items(t));
    if WellFormed(t) {
      WellFormedReadsBack(t);
    }
    if AssignItems(AgentFormat(), Fresh(), Items(t)).Some? {
      AcceptedIsWellFormed(t);
    }
  }

  // ---- the reader and the writer as they run --------------------------------------------------------

  method WriteValue(r: Record, k: Key) returns (value: string)
    ensures value == ValueOf(r, k)
  {
    if IsText(k) || IsStateId(k) {
      value := EncodeLoop(TextOf(r, k));
    } else {
      value := ValueOf(r, k);
    }
  }

  /** Appends the lines of some keys to what has been written. */
  method WriteKeys(r: Record, keys: seq<Key>, s: string, ghost items: seq<Item<Key>>) returns (s': string)
    requires s == Print(Header(), KeyText, items)
    ensures s' == Print(Header(), KeyText, items + ItemsFor(ValueOf, r, keys))
  {
    s' := s;
    ghost var fields := ItemsFor(ValueOf, r, keys);
    assert items + fields[..0] == items;
    for i := 0 to |keys|
      invariant s' == Print(Header(), KeyText, items + fields[..i])
    {
      var value := WriteValue(r, keys[i]);
      PrintNext(Header(), KeyText, items, fields, i);
      s' := s' + RenderField((KeyText(keys[i]), value));
    }
    assert fields[..|keys|] == fields;
  }

  method WriteDependencies(hashes: seq<Hash>, s: string, ghost items: seq<Item<Key>>) returns (s': string)
    requires s == Print(Header(), KeyText, items)
    ensures s' == Print(Header(), KeyText, items + DependencyItems(hashes))
  {
    s' := s;
    ghost var fields := DependencyItems(hashes);
    assert items + fields[..0] == items;
    for i := 0 to |hashes|
      invariant s' == Print(Header(), KeyText, items + fields[..i])
    {
      PrintNext(Header(), KeyText, items, fields, i);
      s' := s' + RenderField((KeyText(DependencyHash), HashToHex(hashes[i])));
    }
    assert fields[..|hashes|] == fields;
  }

  method SerializeAgentStateRecord(r: Record) returns (body: string)
    ensures body == Serialize(r)
  {
    ghost var head := [] + ItemsFor(ValueOf, r, HeadKeys());
    body := WriteKeys(r, HeadKeys(), Header(), []);
    body := WriteDependencies(r.dependencyHashes, body, head);
    body := WriteKeys(r, TailKeys(), body, head + DependencyItems(r.dependencyHashes));
    assert head + DependencyItems(r.dependencyHashes) + ItemsFor(ValueOf, r, TailKeys()) == Items(r);
  }

  method ReadField(r: Record, f: Field) returns (r': Option<Record>)
    ensures r' == AssignField(AgentFormat(), r, f)
  {
    var key := FindKey(AllKeys(), KeyText, f.0);
    if key.None? {
      return Some(r);
    }
    if IsText(key.value) || IsStateId(key.value) {
      var decoded := DecodeLoop(f.1);
      r' := AssignText(r, key.value, decoded);
    } else {
      r' := Assign(r, key.value, f.1);
    }
  }

  /** Line by line; the first bad line ends it. */
  method DeserializeAgentStateRecord(body: string) returns (out: Option<Record>)
    ensures out == Deserialize(body)
  {
    if |body| < |Header()| || body[..|Header()|] != Header() {
      return None;
    }
    var r, pos: nat := Fresh(), |Header()|;
    while pos < |body|
      invariant pos <= |body| && Deserialize(body) == Finish(AgentFormat(), r, body[pos..])
      decreases |body| - pos
    {
      FinishStep(AgentFormat(), r, body[pos..]);
      var line, next := NextField(body, pos);
      match line {
        case Blank =>
        case Broken => return None;
        case Got(f) =>
          var r' := ReadField(r, f);
          if r'.None? {
            return None;
          }
          r := r'.value;
      }
      pos := next;
    }
    out := Some(r);
  }
}
