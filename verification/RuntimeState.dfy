/** Union runtime states as text (src/cas/runtime_state.cpp). */
module RuntimeState {
  import opened CasTypes
  import opened Bytes
  import opened LineCodec
  import opened RecordCodec
  import opened Sequences

  datatype Warning = Warning(kind: string, description: string, blocker: bool)

  datatype State = State(
    recordVersion: nat, unionStateId: string, parentUnionStateId: string, branch: string, fsCommit: Hash,
    agentStateId: string, runtimeId: string, runtimeGeneration: nat, templateId: string, templateKind: string,
    boundaryKind: string, commandRef: string, resourceManifestRef: string, timestampNs: nat, warnings: seq<Warning>)

  datatype Key =
    | RecordVersion | ParentUnionStateId | Branch | FsCommit | AgentStateId | RuntimeId | RuntimeGeneration
    | TemplateId | TemplateKind | BoundaryKind | CommandRef | ResourceManifestRef | TimestampNs | WarningKey

  predicate IsText(k: Key) {
    !k.RecordVersion? && !k.FsCommit? && !k.RuntimeGeneration? && !k.TimestampNs? && !k.WarningKey?
  }

  function Fresh(): State {
    State(1, "", "", "main", ZERO_HASH, "", "", 0, "", "live_fork", "", "", "", 0, [])
  }

  /** The integer fields have 32 and 64 bits. */
  predicate InRange(s: State) {
    s.recordVersion < TWO32 && s.runtimeGeneration < TWO64 && s.timestampNs < TWO64
  }

  // ---- keys ------------------------------------------------------------------------------

  function KeyText(k: Key): string {
    match k
    case RecordVersion => "record_version"
    case ParentUnionStateId => "parent_union_state_id"
    case Branch => "branch"
    case FsCommit => "fs_commit"
    case AgentStateId => "agent_state_id"
    case RuntimeId => "runtime_id"
    case RuntimeGeneration => "runtime_generation"
    case TemplateId => "template_id"
    case TemplateKind => "template_kind"
    case BoundaryKind => "boundary_kind"
    case CommandRef => "command_ref"
    case ResourceManifestRef => "resource_manifest_ref"
    case TimestampNs => "timestamp_ns"
    case WarningKey => "warning"
  }

  function HeadKeys(): seq<Key> {
    [RecordVersion, ParentUnionStateId, Branch, FsCommit, AgentStateId, RuntimeId, RuntimeGeneration,
     TemplateId, TemplateKind, BoundaryKind, CommandRef, ResourceManifestRef, TimestampNs]
  }

  function AllKeys(): seq<Key> {
    HeadKeys() + [WarningKey]
  }

  function KeyNumber(k: Key): nat {
    match k
    case RecordVersion => 0
    case ParentUnionStateId => 1
    case Branch => 2
    case FsCommit => 3
    case AgentStateId => 4
    case RuntimeId => 5
    case RuntimeGeneration => 6
    case TemplateId => 7
    case TemplateKind => 8
    case BoundaryKind => 9
    case CommandRef => 10
    case ResourceManifestRef => 11
    case TimestampNs => 12
    case WarningKey => 13
  }

  /** The first character and the length tell the keys apart. */
  function KeySignature(k: Key): (nat, char) {
    match k
    case RecordVersion => (14, 'r')
    case ParentUnionStateId => (21, 'p')
    case Branch => (6, 'b')
    case FsCommit => (9, 'f')
    case AgentStateId => (14, 'a')
    case RuntimeId => (10, 'r')
    case RuntimeGeneration => (18, 'r')
    case TemplateId => (11, 't')
    case TemplateKind => (13, 't')
    case BoundaryKind => (13, 'b')
    case CommandRef => (11, 'c')
    case ResourceManifestRef => (21, 'r')
    case TimestampNs => (12, 't')
    case WarningKey => (7, 'w')
  }

  lemma SignatureOfKey(k: Key)
    ensures |KeyText(k)| == KeySignature(k).0 && KeyText(k)[0] == KeySignature(k).1
  {}

  lemma KeyIsKnown(k: Key)
    ensures FindKey(AllKeys(), KeyText, KeyText(k)) == Some(k)
  {
    assert AllKeys()[KeyNumber(k)] == k;
    forall j | j != k ensures KeyText(j) != KeyText(k) {
      SignatureOfKey(j);
      SignatureOfKey(k);
    }
    FindsKey(AllKeys(), KeyText, k);
  }

  // ---- reading ------------------------------------------------------------------------------

  /**
   * The library scanner for two hexadecimal digits, on the rest of a text.  What it makes
   * of white space, signs or a single digit is its own affair.
   */
  type Scan = string -> Option<nat>

  /** Two digits at the front give their value. */
  ghost predicate ScansTwo(scan: Scan, s: string) {
    |s| >= 2 && HexVal(s[0]).Some? && HexVal(s[1]).Some? ==> scan(s) == Some(16 * HexVal(s[0]).value + HexVal(s[1]).value)
  }

  ghost predicate ScansHex(scan: Scan) {
    forall s: string :: ScansTwo(scan, s)
  }

  /** A text as the library sees it ends at its first zero character. */
  function CText(s: string): string {
    s[..Find(s, '\0')]
  }

  function ScanBytes(scan: Scan, s: string, n: nat): (b: Option<seq<byte>>)
    requires 2 * n <= |s|
    ensures b.Some? ==> |b.value| == n
  {
    if n == 0 then Some([])
    else
      match (ScanBytes(scan, s, n - 1), scan(s[2 * (n - 1)..]))
      case (Some(b), Some(v)) => Some(b + [(v % 256) as byte])
      case _ => None
  }

  /** Only the first 64 characters count. */
  function ParseCommit(scan: Scan, value: string): Option<Hash> {
    var s := CText(value);
    if |s| < 64 then None
    else
      match ScanBytes(scan, s, 32)
      case None => None
      case Some(b) => Some(Hash(b))
  }

  lemma ScansByte(scan: Scan, s: string, b: byte)
    requires ScansTwo(scan, s) && |s| >= 2
    requires s[0] == HexDigit(b as nat / 16) && s[1] == HexDigit(b as nat % 16)
    ensures scan(s) == Some(b as nat)
  {
    HexDigits(b as nat / 16);
    HexDigits(b as nat % 16);
  }

  lemma ScansPair(scan: Scan, b: seq<byte>, i: nat)
    requires ScansHex(scan) && i < |b|
    ensures scan(ToHex(b)[2 * i..]) == Some(b[i] as nat)
  {
    DigitsAt(b, i);
    var s := ToHex(b)[2 * i..];
    assert s[0] == ToHex(b)[2 * i] && s[1] == ToHex(b)[2 * i + 1];
    ScansByte(scan, s, b[i]);
  }

  lemma {:induction false} ScansDigits(scan: Scan, b: seq<byte>, n: nat)
    requires ScansHex(scan) && n <= |b|
    ensures ScanBytes(scan, ToHex(b), n) == Some(b[..n])
  {
    if n > 0 {
      ScansDigits(scan, b, n - 1);
      ScansPair(scan, b, n - 1);
      assert b[..n] == b[..n - 1] + [b[n - 1]];
    }
  }

  lemma {:induction false} DigitsAt(b: seq<byte>, i: nat)
    requires i < |b|
    ensures ToHex(b)[2 * i] == HexDigit(b[i] as nat / 16) && ToHex(b)[2 * i + 1] == HexDigit(b[i] as nat % 16)
  {
    if i > 0 {
      DigitsAt(b[1..], i - 1);
    }
  }

  lemma NoZeroInHex(s: string)
    requires AllHex(s)
    ensures CText(s) == s
  {
    forall i | 0 <= i < |s| ensures s[i] != '\0' {
      assert HexVal(s[i]).Some?;
    }
  }

  /** A printed hash is read back by every scanner that knows two digits. */
  lemma CommitRoundTrip(scan: Scan, h: Hash)
    requires ScansHex(scan)
    ensures ParseCommit(scan, HashToHex(h)) == Some(h)
  {
    HexRoundTrip(h.bytes);
    NoZeroInHex(HashToHex(h));
    ScansDigits(scan, h.bytes, 32);
    assert h.bytes[..32] == h.bytes;
  }

  function ParseFlag(value: string): Option<bool> {
    if value == "1" then Some(true) else if value == "0" then Some(false) else None
  }

  /** Kind, flag and description between two bars. */
  function ParseWarning(value: string): Option<Warning> {
    var bar1 := Find(value, '|');
    if bar1 == |value| then None
    else
      var rest := value[bar1 + 1..];
      var bar2 := Find(rest, '|');
      if bar2 == |rest| then None
      else
        match (PercentDecode(value[..bar1]), ParseFlag(rest[..bar2]), PercentDecode(rest[bar2 + 1..]))
        case (Some(kind), Some(blocker), Some(description)) => Some(Warning(kind, description, blocker))
        case _ => None
  }

  /** The field of a key that holds a text. */
  function TextOf(s: State, k: Key): string {
    match k
    case ParentUnionStateId => s.parentUnionStateId
    case Branch => s.branch
    case AgentStateId => s.agentStateId
    case RuntimeId => s.runtimeId
    case TemplateId => s.templateId
    case TemplateKind => s.templateKind
    case BoundaryKind => s.boundaryKind
    case CommandRef => s.commandRef
    case ResourceManifestRef => s.resourceManifestRef
    case _ => ""
  }

  function PutText(s: State, k: Key, text: string): State {
    match k
    case ParentUnionStateId => s.(parentUnionStateId := text)
    case Branch => s.(branch := text)
    case AgentStateId => s.(agentStateId := text)
    case RuntimeId => s.(runtimeId := text)
    case TemplateId => s.(templateId := text)
    case TemplateKind => s.(templateKind := text)
    case BoundaryKind => s.(boundaryKind := text)
    case CommandRef => s.(commandRef := text)
    case ResourceManifestRef => s.(resourceManifestRef := text)
    case _ => s
  }

  function Assign(scan: Scan, s: State, k: Key, value: string): Option<State> {
    match k
    case RecordVersion => With(ParseDec(value, TWO32), n => s.(recordVersion := n))
    case FsCommit => With(ParseCommit(scan, value), h => s.(fsCommit := h))
    case RuntimeGeneration => With(ParseDec(value, TWO64), n => s.(runtimeGeneration := n))
    case TimestampNs => With(ParseDec(value, TWO64), n => s.(timestampNs := n))
    case WarningKey => With(ParseWarning(value), w => s.(warnings := s.warnings + [w]))
    case _ => With(PercentDecode(value), text => PutText(s, k, text))
  }

  function Header(): string {
    "agentvfs.union_runtime_state.v1\n"
  }

  function RuntimeFormat(scan: Scan): Format<State, Key> {
    Format(Header(), AllKeys(), KeyText, (s, k, value) => Assign(scan, s, k, value))
  }

  function Deserialize(scan: Scan, body: string): Option<State> {
    Parse(RuntimeFormat(scan), Fresh(), body)
  }

  // ---- writing --------------------------------------------------------------------------------

  /** How a field is written; the warnings have lines of their own. */
  function ValueOf(s: State, k: Key): string {
    match k
    case RecordVersion => ToDec(s.recordVersion)
    case FsCommit => HashToHex(s.fsCommit)
    case RuntimeGeneration => ToDec(s.runtimeGeneration)
    case TimestampNs => ToDec(s.timestampNs)
    case WarningKey => ""
    case _ => PercentEncode(TextOf(s, k))
  }

  function WarningText(w: Warning): string {
    PercentEncode(w.kind) + "|" + (if w.blocker then "1" else "0") + "|" + PercentEncode(w.description)
  }

  function WarningItems(ws: seq<Warning>): (items: seq<Item<Key>>)
    ensures |items| == |ws|
  {
    seq(|ws|, i requires 0 <= i < |ws| => Item(WarningKey, WarningText(ws[i])))
  }

  function Items(s: State): seq<Item<Key>> {
    ItemsFor(ValueOf, s, HeadKeys()) + WarningItems(s.warnings)
  }

  function Serialize(s: State): string {
    Print(Header(), KeyText, Items(s))
  }

  // ---- round trip -----------------------------------------------------------------------------------

  /** Bars inside the texts are escaped, so the two separators are found. */
  lemma WarningRoundTrip(w: Warning)
    ensures ParseWarning(WarningText(w)) == Some(w)
  {
    var kind, flag, description := PercentEncode(w.kind), if w.blocker then "1" else "0", PercentEncode(w.description);
    EncodedIsClean(w.kind);
    EncodedIsClean(w.description);
    var value, rest := WarningText(w), flag + "|" + description;
    assert value == kind + "|" + rest;
    FindAt(value, '|', |kind|);
    FindAt(rest, '|', 1);
    assert value[..|kind|] == kind && value[|kind| + 1..] == rest;
    assert rest[..1] == flag && rest[2..] == description;
    PercentRoundTrip(w.kind);
    PercentRoundTrip(w.description);
  }

  /** Two states agree on one field. */
  predicate SameField(a: State, b: State, k: Key) {
    match k
    case RecordVersion => a.recordVersion == b.recordVersion
    case FsCommit => a.fsCommit == b.fsCommit
    case RuntimeGeneration => a.runtimeGeneration == b.runtimeGeneration
    case TimestampNs => a.timestampNs == b.timestampNs
    case WarningKey => a.warnings == b.warnings
    case _ => TextOf(a, k) == TextOf(b, k)
  }

  function RuntimeFields(): Fields<State, Key> {
    Fields(ValueOf, SameField, (s: State) => s.unionStateId)
  }

  ghost predicate Took(s: State, s': State, t: State, k: Key) {
    TookField(RuntimeFields(), s, s', t, k)
  }

  /** A text goes into its own field and no other. */
  lemma PutTextPuts(s: State, k: Key, text: string, j: Key)
    requires IsText(k)
    ensures TextOf(PutText(s, k, text), k) == text && PutText(s, k, text).unionStateId == s.unionStateId
    ensures j != k ==> SameField(PutText(s, k, text), s, j)
  {}

  lemma OwnTextRead(scan: Scan, s: State, t: State, k: Key) returns (s': State)
    requires IsText(k)
    ensures Assign(scan, s, k, ValueOf(t, k)) == Some(s') && Took(s, s', t, k)
  {
    PercentRoundTrip(TextOf(t, k));
    s' := PutText(s, k, TextOf(t, k));
    forall j ensures j == k || SameField(s', s, j) {
      PutTextPuts(s, k, TextOf(t, k), j);
    }
    PutTextPuts(s, k, TextOf(t, k), k);
  }

  lemma OwnNumberRead(scan: Scan, s: State, t: State, k: Key) returns (s': State)
    requires InRange(t) && (k.RecordVersion? || k.RuntimeGeneration? || k.TimestampNs?)
    ensures Assign(scan, s, k, ValueOf(t, k)) == Some(s') && Took(s, s', t, k)
  {
    match k
    case RecordVersion => ParsedDec(t.recordVersion, TWO32); s' := s.(recordVersion := t.recordVersion);
    case RuntimeGeneration => ParsedDec(t.runtimeGeneration, TWO64); s' := s.(runtimeGeneration := t.runtimeGeneration);
    case TimestampNs => ParsedDec(t.timestampNs, TWO64); s' := s.(timestampNs := t.timestampNs);
  }

  lemma OwnCommitRead(scan: Scan, s: State, t: State) returns (s': State)
    requires ScansHex(scan)
    ensures Assign(scan, s, FsCommit, ValueOf(t, FsCommit)) == Some(s') && Took(s, s', t, FsCommit)
  {
    CommitRoundTrip(scan, t.fsCommit);
    s' := s.(fsCommit := t.fsCommit);
  }

  lemma OwnValueRead(scan: Scan, s: State, t: State, k: Key) returns (s': State)
    requires InRange(t) && ScansHex(scan) && k != WarningKey
    ensures Assign(scan, s, k, ValueOf(t, k)) == Some(s') && Took(s, s', t, k)
  {
    if IsText(k) {
      s' := OwnTextRead(scan, s, t, k);
    } else if k.FsCommit? {
      s' := OwnCommitRead(scan, s, t);
    } else {
      s' := OwnNumberRead(scan, s, t, k);
    }
  }

  lemma EveryFieldReads(scan: Scan, t: State, keys: seq<Key>)
    requires InRange(t) && ScansHex(scan) && WarningKey !in keys
    ensures Comparable(RuntimeFields()) && forall s, k | k in keys :: ReadsOwn(RuntimeFormat(scan), RuntimeFields(), s, t, k)
  {
    forall s, k | k in keys ensures ReadsOwn(RuntimeFormat(scan), RuntimeFields(), s, t, k) {
      var s' := OwnValueRead(scan, s, t, k);
    }
  }

  function AddWarning(s: State, w: Warning): State {
    s.(warnings := s.warnings + [w])
  }

  lemma OneWarningReads(scan: Scan, s: State, w: Warning, rest: seq<Item<Key>>)
    ensures AssignItems(RuntimeFormat(scan), s, [Item(WarningKey, WarningText(w))] + rest) == AssignItems(RuntimeFormat(scan), AddWarning(s, w), rest)
  {
    WarningRoundTrip(w);
    assert ([Item(WarningKey, WarningText(w))] + rest)[1..] == rest;
  }

  lemma {:induction false} WarningsRead(scan: Scan, s: State, ws: seq<Warning>)
    ensures AssignItems(RuntimeFormat(scan), s, WarningItems(ws)) == Some(s.(warnings := s.warnings + ws))
    decreases |ws|
  {
    if ws == [] {
      assert s.warnings + [] == s.warnings;
    } else {
      assert WarningItems(ws) == [Item(WarningKey, WarningText(ws[0]))] + WarningItems(ws[1..]);
      OneWarningReads(scan, s, ws[0], WarningItems(ws[1..]));
      WarningsRead(scan, AddWarning(s, ws[0]), ws[1..]);
      Regroup(s.warnings, [ws[0]], ws[1..]);
      assert [ws[0]] + ws[1..] == ws;
    }
  }

  lemma HeadKeysAreAll(k: Key)
    ensures k in HeadKeys() <==> k != WarningKey
  {
    if k != WarningKey {
      assert HeadKeys()[KeyNumber(k)] == k;
    }
  }

  lemma ReadsBack(scan: Scan, t: State)
    requires InRange(t) && ScansHex(scan)
    ensures AssignItems(RuntimeFormat(scan), Fresh(), Items(t)) == Some(t.(unionStateId := ""))
  {
    HeadKeysAreAll(WarningKey);
    EveryFieldReads(scan, t, HeadKeys());
    var s1 := OwnValuesRead(RuntimeFormat(scan), RuntimeFields(), Fresh(), t, HeadKeys());
    assert SameField(s1, Fresh(), WarningKey);
    WarningsRead(scan, s1, t.warnings);
    assert [] + t.warnings == t.warnings;
    AssignInTwo(RuntimeFormat(scan), Fresh(), ItemsFor(ValueOf, t, HeadKeys()), WarningItems(t.warnings));
    forall k | k != WarningKey ensures SameField(s1, t, k) {
      HeadKeysAreAll(k);
      assert SameField(s1, if k in HeadKeys() then t else Fresh(), k);
    }
    NumbersDecide(s1, t);
    TextsDecide(s1, t);
  }

  lemma NumbersDecide(a: State, b: State)
    requires forall k | k != WarningKey :: SameField(a, b, k)
    ensures a.recordVersion == b.recordVersion && a.fsCommit == b.fsCommit
    ensures a.runtimeGeneration == b.runtimeGeneration && a.timestampNs == b.timestampNs
  {
    assert SameField(a, b, RecordVersion) && SameField(a, b, FsCommit);
    assert SameField(a, b, RuntimeGeneration) && SameField(a, b, TimestampNs);
  }

  lemma TextsDecide(a: State, b: State)
    requires forall k | k != WarningKey :: SameField(a, b, k)
    ensures a.parentUnionStateId == b.parentUnionStateId && a.branch == b.branch && a.agentStateId == b.agentStateId
    ensures a.runtimeId == b.runtimeId && a.templateId == b.templateId && a.templateKind == b.templateKind
    ensures a.boundaryKind == b.boundaryKind && a.commandRef == b.commandRef && a.resourceManifestRef == b.resourceManifestRef
  {
    assert SameField(a, b, ParentUnionStateId) && SameField(a, b, Branch) && SameField(a, b, AgentStateId);
    assert SameField(a, b, RuntimeId) && SameField(a, b, TemplateId) && SameField(a, b, TemplateKind);
    assert SameField(a, b, BoundaryKind) && SameField(a, b, CommandRef) && SameField(a, b, ResourceManifestRef);
  }

  // ---- framing ---------------------------------------------------------------------------------------

  lemma ShortKeysAreWords(k: Key)
    requires k.RecordVersion? || k.Branch? || k.FsCommit? || k.AgentStateId? || k.RuntimeId? || k.TimestampNs? || k.WarningKey?
    ensures IsWord(KeyText(k))
  {}

  lemma LongKeysAreWords(k: Key)
    requires k.ParentUnionStateId? || k.RuntimeGeneration? || k.TemplateId? || k.TemplateKind?
    ensures IsWord(KeyText(k))
  {}

  lemma RefKeysAreWords(k: Key)
    requires k.BoundaryKind? || k.CommandRef? || k.ResourceManifestRef?
    ensures IsWord(KeyText(k))
  {}

  lemma KeysAreWords(k: Key)
    ensures IsWord(KeyText(k))
  {
    if k.BoundaryKind? || k.CommandRef? || k.ResourceManifestRef? {
      RefKeysAreWords(k);
    } else if k.ParentUnionStateId? || k.RuntimeGeneration? || k.TemplateId? || k.TemplateKind? {
      LongKeysAreWords(k);
    } else {
      ShortKeysAreWords(k);
    }
  }

  lemma ValueIsOneLine(t: State, k: Key)
    ensures '\n' !in ValueOf(t, k)
  {
    if k.FsCommit? {
      HexRoundTrip(t.fsCommit.bytes);
      HexIsClean(HashToHex(t.fsCommit));
    } else if IsText(k) {
      EncodedIsClean(TextOf(t, k));
    } else {
      DecRoundTrip(if k.RecordVersion? then t.recordVersion else if k.RuntimeGeneration? then t.runtimeGeneration else t.timestampNs);
    }
  }

  lemma ItemIsReadable(scan: Scan, t: State, k: Key)
    ensures Readable(RuntimeFormat(scan), Item(k, ValueOf(t, k)))
  {
    KeyIsKnown(k);
    KeysAreWords(k);
    ValueIsOneLine(t, k);
  }

  lemma WarningIsReadable(scan: Scan, w: Warning)
    ensures Readable(RuntimeFormat(scan), Item(WarningKey, WarningText(w)))
  {
    KeyIsKnown(WarningKey);
    KeysAreWords(WarningKey);
    EncodedIsClean(w.kind);
    EncodedIsClean(w.description);
  }

  lemma AllReadable(scan: Scan, t: State)
    ensures forall i :: 0 <= i < |Items(t)| ==> Readable(RuntimeFormat(scan), Items(t)[i])
  {
    forall i | 0 <= i < |Items(t)| ensures Readable(RuntimeFormat(scan), Items(t)[i]) {
      if i < |HeadKeys()| {
        ItemIsReadable(scan, t, HeadKeys()[i]);
      } else {
        WarningIsReadable(scan, t.warnings[i - |HeadKeys()|]);
      }
    }
  }

  /**
   * Parsing undoes printing for every union runtime state and every library scanner:
   * arbitrary texts survive, the warnings keep their order, and only the derived id is
   * reset.
   */
  lemma RoundTrip(scan: Scan, t: State)
    requires InRange(t) && ScansHex(scan)
    ensures Deserialize(scan, Serialize(t)) == Some(t.(unionStateId := ""))
  {
    AllReadable(scan, t);
    ParsePrinted(RuntimeFormat(scan), Fresh(), Items(t));
    ReadsBack(scan, t);
  }

  // ---- the reader and the writer as they run --------------------------------------------------------

  method WriteValue(s: State, k: Key) returns (value: string)
    ensures value == ValueOf(s, k)
  {
    if IsText(k) {
      value := EncodeLoop(TextOf(s, k));
    } else {
      value := ValueOf(s, k);
    }
  }

  method WriteWarning(w: Warning) returns (value: string)
    ensures value == WarningText(w)
  {
    var kind := EncodeLoop(w.kind);
    var description := EncodeLoop(w.description);
    value := kind + "|" + (if w.blocker then "1" else "0") + "|" + description;
  }

  method WriteHead(s: State) returns (body: string)
    ensures body == Print(Header(), KeyText, ItemsFor(ValueOf, s, HeadKeys()))
  {
    body := Header();
    ghost var fields := ItemsFor(ValueOf, s, HeadKeys());
    assert [] + fields[..0] == [];
    for i := 0 to |HeadKeys()|
      invariant body == Print(Header(), KeyText, [] + fields[..i])
    {
      var value := WriteValue(s, HeadKeys()[i]);
      PrintNext(Header(), KeyText, [], fields, i);
      body := body + RenderField((KeyText(HeadKeys()[i]), value));
    }
    assert [] + fields[..|HeadKeys()|] == fields;
  }

  /** Appends the lines of the warnings to what has been written. */
  method WriteWarnings(ws: seq<Warning>, body: string, ghost items: seq<Item<Key>>) returns (body': string)
    requires body == Print(Header(), KeyText, items)
    ensures body' == Print(Header(), KeyText, items + WarningItems(ws))
  {
    body' := body;
    ghost var lines := WarningItems(ws);
    assert items + lines[..0] == items;
    for i := 0 to |ws|
      invariant body' == Print(Header(), KeyText, items + lines[..i])
    {
      var value := WriteWarning(ws[i]);
      PrintNext(Header(), KeyText, items, lines, i);
      body' := body' + RenderField((KeyText(WarningKey), value));
    }
    assert lines[..|ws|] == lines;
  }

  method SerializeUnionRuntimeState(s: State) returns (body: string)
    ensures body == Serialize(s)
  {
    body := WriteHead(s);
    body := WriteWarnings(s.warnings, body, ItemsFor(ValueOf, s, HeadKeys()));
  }

  /** The scanning loop; the first pair that cannot be scanned ends it. */
  method ReadCommit(scan: Scan, value: string) returns (h: Option<Hash>)
    ensures h == ParseCommit(scan, value)
  {
    var s := CText(value);
    if |s| < 64 {
      return None;
    }
    var b: seq<byte> := [];
    for i := 0 to 32
      invariant ScanBytes(scan, s, i) == Some(b)
    {
      var v := scan(s[2 * i..]);
      if v.None? {
        ScanFails(scan, s, i + 1, 32);
        return None;
      }
      b := b + [(v.value % 256) as byte];
    }
    h := Some(Hash(b));
  }

  lemma {:induction false} ScanFails(scan: Scan, s: string, n: nat, m: nat)
    requires n <= m && 2 * m <= |s| && ScanBytes(scan, s, n).None?
    ensures ScanBytes(scan, s, m).None?
  {
    if n < m {
      ScanFails(scan, s, n, m - 1);
    }
  }

  method ReadWarning(value: string) returns (w: Option<Warning>)
    ensures w == ParseWarning(value)
  {
    var bar1 := Find(value, '|');
    if bar1 == |value| {
      return None;
    }
    var rest := value[bar1 + 1..];
    var bar2 := Find(rest, '|');
    if bar2 == |rest| {
      return None;
    }
    var kind := DecodeLoop(value[..bar1]);
    var flag := ParseFlag(rest[..bar2]);
    if kind.None? || flag.None? {
      return None;
    }
    var description := DecodeLoop(rest[bar2 + 1..]);
    if description.None? {
      return None;
    }
    w := Some(Warning(kind.value, description.value, flag.value));
  }

  method ReadField(scan: Scan, s: State, f: Field) returns (s': Option<State>)
    ensures s' == AssignField(RuntimeFormat(scan), s, f)
  {
    var key := FindKey(AllKeys(), KeyText, f.0);
    if key.None? {
      return Some(s);
    }
    if IsText(key.value) {
      var text := DecodeLoop(f.1);
      s' := With(text, text => PutText(s, key.value, text));
    } else if key.value.WarningKey? {
      var w := ReadWarning(f.1);
      s' := With(w, w => s.(warnings := s.warnings + [w]));
    } else if key.value.FsCommit? {
      var h := ReadCommit(scan, f.1);
      s' := With(h, h => s.(fsCommit := h));
    } else {
      s' := Assign(scan, s, key.value, f.1);
    }
  }

  /** Line by line; the first bad line ends it. */
  method DeserializeUnionRuntimeState(scan: Scan, body: string) returns (out: Option<State>)
    ensures out == Deserialize(scan, body)
  {
    if |body| < |Header()| || body[..|Header()|] != Header() {
      return None;
    }
    var s, pos: nat := Fresh(), |Header()|;
    while pos < |body|
      invariant pos <= |body| && Deserialize(scan, body) == Finish(RuntimeFormat(scan), s, body[pos..])
      decreases |body| - pos
    {
      FinishStep(RuntimeFormat(scan), s, body[pos..]);
      var line, next := NextField(body, pos);
      match line {
        case Blank =>
        case Broken => return None;
        case Got(f) =>
          var s' := ReadField(scan, s, f);
          if s'.None? {
            return None;
          }
          s := s'.value;
      }
      pos := next;
    }
    out := Some(s);
  }
}
