/**
 * The text format of state records (src/cas/agent_state.cpp, src/cas/runtime_state.cpp):
 * a header line, then one `key=value` line per field.  Values are percent-encoded,
 * decimal or hexadecimal, so that none of the framing characters occurs in them.
 */
module LineCodec {
  import opened CasTypes
  import opened Bytes
  import opened Sequences

  // ---- hexadecimal digits -------------------------------------------------------------

  function HexDigit(n: nat): char
    requires n < 16
  {
    if n < 10 then '0' + n as char else 'a' + (n - 10) as char
  }

  /** Upper-case digits, as in the escapes. */
  function HexDigitUpper(n: nat): char
    requires n < 16
  {
    if n < 10 then '0' + n as char else 'A' + (n - 10) as char
  }

  function HexVal(c: char): (v: Option<nat>)
    ensures v.Some? ==> v.value < 16
  {
    if '0' <= c <= '9' then Some(c as int - '0' as int)
    else if 'a' <= c <= 'f' then Some(c as int - 'a' as int + 10)
    else if 'A' <= c <= 'F' then Some(c as int - 'A' as int + 10)
    else None
  }

  lemma HexDigits(n: nat)
    requires n < 16
    ensures HexVal(HexDigit(n)) == Some(n) && HexVal(HexDigitUpper(n)) == Some(n)
  {}

  // ---- percent encoding -----------------------------------------------------------------

  /** The characters that the framing needs for itself. */
  predicate Special(c: char) {
    c == '%' || c == '\n' || c == '\r' || c == '=' || c == '|' || c == ' '
  }

  function EncodeChar(c: char): string {
    if c == '%' then "%25"
    else if c == '\n' then "%0A"
    else if c == '\r' then "%0D"
    else if c == '=' then "%3D"
    else if c == '|' then "%7C"
    else if c == ' ' then "%20"
    else [c]
  }

  function PercentEncode(s: string): string {
    if s == "" then "" else EncodeChar(s[0]) + PercentEncode(s[1..])
  }

  /** One character at the front, and how much of the text it takes. */
  function DecodeChar(s: string): Option<(char, nat)>
    requires s != ""
  {
    if s[0] != '%' then Some((s[0], 1))
    else if |s| < 3 then None
    else
      match (HexVal(s[1]), HexVal(s[2]))
      case (Some(hi), Some(lo)) => Some(((16 * hi + lo) as char, 3))
      case _ => None
  }

  function PercentDecode(s: string): Option<string>
    decreases |s|
  {
    if s == "" then Some("")
    else
      match DecodeChar(s)
      case None => None
      case Some((c, used)) =>
        match PercentDecode(s[used..])
        case None => None
        case Some(rest) => Some([c] + rest)
  }

  lemma DecodeEncodedChar(c: char, rest: string)
    ensures DecodeChar(EncodeChar(c) + rest) == Some((c, |EncodeChar(c)|))
    ensures (EncodeChar(c) + rest)[|EncodeChar(c)|..] == rest
  {
    var s := EncodeChar(c) + rest;
    if Special(c) {
      assert s[0] == '%' && s[1] == EncodeChar(c)[1] && s[2] == EncodeChar(c)[2];
    }
  }

  /** Arbitrary strings survive. */
  lemma {:induction false} PercentRoundTrip(s: string)
    ensures PercentDecode(PercentEncode(s)) == Some(s)
  {
    if s != "" {
      DecodeEncodedChar(s[0], PercentEncode(s[1..]));
      PercentRoundTrip(s[1..]);
      assert [s[0]] + s[1..] == s;
    }
  }

  /** No framing character is left but the percent sign itself. */
  predicate Clean(s: string) {
    '\n' !in s && '=' !in s && '|' !in s
  }

  lemma {:induction false} EncodedIsClean(s: string)
    ensures Clean(PercentEncode(s))
  {
    if s != "" {
      EncodedIsClean(s[1..]);
      assert Clean(EncodeChar(s[0]));
    }
  }

  method EncodeLoop(s: string) returns (out: string)
    ensures out == PercentEncode(s)
  {
    out := "";
    for i := 0 to |s|
      invariant out + PercentEncode(s[i..]) == PercentEncode(s)
    {
      assert s[i..][0] == s[i] && s[i..][1..] == s[i + 1..];
      Regroup(out, EncodeChar(s[i]), PercentEncode(s[i + 1..]));
      out := out + EncodeChar(s[i]);
    }
    assert s[|s|..] == "";
  }

  function AppendDecoded(out: string, rest: Option<string>): Option<string> {
    match rest
    case None => None
    case Some(r) => Some(out + r)
  }

  method DecodeLoop(s: string) returns (out: Option<string>)
    ensures out == PercentDecode(s)
  {
    var decoded, i := "", 0;
    AppendNothing(PercentDecode(s));
    assert s[0..] == s;
    while i < |s|
      invariant 0 <= i <= |s| && PercentDecode(s) == AppendDecoded(decoded, PercentDecode(s[i..]))
      decreases |s| - i
    {
      DecodeStep(s, i, decoded);
      if s[i] == '%' {
        if i + 2 >= |s| {
          return None;
        }
        var hi, lo := HexVal(s[i + 1]), HexVal(s[i + 2]);
        if hi.None? || lo.None? {
          return None;
        }
        decoded := decoded + [(16 * hi.value + lo.value) as char];
        i := i + 3;
      } else {
        decoded := decoded + [s[i]];
        i := i + 1;
      }
    }
    assert s[i..] == "" && decoded + "" == decoded;
    out := Some(decoded);
  }

  lemma AppendNothing(rest: Option<string>)
    ensures AppendDecoded("", rest) == rest
  {
    if rest.Some? {
      assert "" + rest.value == rest.value;
    }
  }

  lemma DecodeStep(s: string, i: nat, decoded: string)
    requires i < |s|
    ensures match DecodeChar(s[i..])
      case None => AppendDecoded(decoded, PercentDecode(s[i..])) == None
      case Some((c, used)) =>
        && i + used <= |s|
        && AppendDecoded(decoded, PercentDecode(s[i..])) == AppendDecoded(decoded + [c], PercentDecode(s[i + used..]))
  {
    match DecodeChar(s[i..])
    case None =>
    case Some((c, used)) =>
      assert s[i..][used..] == s[i + used..];
      match PercentDecode(s[i + used..])
      case None =>
      case Some(rest) => Regroup(decoded, [c], rest);
  }

  // ---- decimal numbers ----------------------------------------------------------------------

  function ToDec(n: nat): (s: string)
    ensures s != ""
  {
    if n < 10 then [HexDigit(n)] else ToDec(n / 10) + [HexDigit(n % 10)]
  }

  predicate IsDigit(c: char) {
    '0' <= c <= '9'
  }

  predicate AllDigits(s: string) {
    forall i :: 0 <= i < |s| ==> IsDigit(s[i])
  }

  function DecValue(s: string): nat
    requires AllDigits(s)
  {
    if s == "" then 0 else 10 * DecValue(s[..|s| - 1]) + (s[|s| - 1] as int - '0' as int)
  }

  /** Digits only, and below the limit. */
  function ParseDec(s: string, limit: nat): Option<nat> {
    if s == "" || !AllDigits(s) then None
    else if DecValue(s) >= limit then None
    else Some(DecValue(s))
  }

  lemma {:induction false} DecRoundTrip(n: nat)
    ensures AllDigits(ToDec(n)) && DecValue(ToDec(n)) == n
  {
    if n >= 10 {
      DecRoundTrip(n / 10);
      var s := ToDec(n);
      assert s[..|s| - 1] == ToDec(n / 10);
    }
  }

  lemma ParsedDec(n: nat, limit: nat)
    requires n < limit
    ensures ParseDec(ToDec(n), limit) == Some(n)
  {
    DecRoundTrip(n);
  }

  // ---- hashes ---------------------------------------------------------------------------------

  function HexOfByte(b: byte): string {
    [HexDigit(b as nat / 16), HexDigit(b as nat % 16)]
  }

  function ToHex(b: seq<byte>): (s: string)
    ensures |s| == 2 * |b|
  {
    if b == [] then "" else HexOfByte(b[0]) + ToHex(b[1..])
  }

  function HashToHex(h: Hash): string {
    ToHex(h.bytes)
  }

  predicate AllHex(s: string) {
    forall i :: 0 <= i < |s| ==> HexVal(s[i]).Some?
  }

  function FromHex(s: string): (b: seq<byte>)
    requires AllHex(s) && |s| % 2 == 0
    ensures |b| == |s| / 2
  {
    if s == "" then []
    else [(16 * HexVal(s[0]).value + HexVal(s[1]).value) as byte] + FromHex(s[2..])
  }

  predicate IsHexHash(s: string) {
    |s| == 64 && AllHex(s)
  }

  function ParseHash(s: string): Option<Hash> {
    if IsHexHash(s) then Some(Hash(FromHex(s))) else None
  }

  lemma {:induction false} HexRoundTrip(b: seq<byte>)
    ensures AllHex(ToHex(b)) && FromHex(ToHex(b)) == b
  {
    if b != [] {
      HexRoundTrip(b[1..]);
      var hi, lo := b[0] as nat / 16, b[0] as nat % 16;
      HexDigits(hi);
      HexDigits(lo);
      var s := ToHex(b);
      assert s[0] == HexDigit(hi) && s[1] == HexDigit(lo) && s[2..] == ToHex(b[1..]);
      forall i | 0 <= i < |s| ensures HexVal(s[i]).Some? {
        if i >= 2 {
          assert s[i] == ToHex(b[1..])[i - 2];
        }
      }
      assert [b[0]] + b[1..] == b;
    }
  }

  lemma HashRoundTrip(h: Hash)
    ensures ParseHash(HashToHex(h)) == Some(h)
  {
    HexRoundTrip(h.bytes);
  }

  lemma HexIsClean(s: string)
    requires AllHex(s)
    ensures Clean(s)
  {
    forall i | 0 <= i < |s| ensures s[i] != '\n' && s[i] != '=' && s[i] != '|' {
      assert HexVal(s[i]).Some?;
    }
  }

  // ---- lines ------------------------------------------------------------------------------------

  type Field = (string, string)

  /** Lower-case letters and underscores, as all keys and kinds are. */
  predicate IsWord(s: string) {
    forall i :: 0 <= i < |s| ==> 'a' <= s[i] <= 'z' || s[i] == '_'
  }

  /** A key that can stand before the separator, a value that can stand on a line. */
  predicate Frames(f: Field) {
    '=' !in f.0 && '\n' !in f.0 && '\n' !in f.1
  }

  function RenderField(f: Field): string {
    f.0 + "=" + f.1 + "\n"
  }

  function Render(fs: seq<Field>): string {
    if fs == [] then "" else RenderField(fs[0]) + Render(fs[1..])
  }

  /** Position of the first c, or the length. */
  function Find(s: string, c: char): (n: nat)
    ensures n <= |s| && (forall i :: 0 <= i < n ==> s[i] != c) && (n < |s| ==> s[n] == c)
  {
    if s == "" || s[0] == c then 0 else 1 + Find(s[1..], c)
  }

  /** A non-empty line has to hold the separator. */
  function ParseLine(line: string): Option<Field> {
    var eq := Find(line, '=');
    if eq == |line| then None else Some((line[..eq], line[eq + 1..]))
  }

  /** The fields of a body, in order; empty lines are skipped, the last line may lack its end. */
  function ParseFields(s: string): Option<seq<Field>>
    decreases |s|
  {
    if s == "" then Some([])
    else
      var nl := Find(s, '\n');
      var rest := if nl < |s| then s[nl + 1..] else "";
      if nl == 0 then ParseFields(rest)
      else
        match (ParseLine(s[..nl]), ParseFields(rest))
        case (Some(f), Some(fs)) => Some([f] + fs)
        case _ => None
  }

  lemma FindAt(s: string, c: char, n: nat)
    requires n < |s| && s[n] == c && forall i :: 0 <= i < n ==> s[i] != c
    ensures Find(s, c) == n
  {}

  lemma ParseRenderedField(f: Field, rest: string)
    requires Frames(f)
    ensures var s := RenderField(f) + rest;
      && Find(s, '\n') == |RenderField(f)| - 1 && s[..|RenderField(f)| - 1] == f.0 + "=" + f.1 && s[|RenderField(f)|..] == rest
    ensures ParseLine(f.0 + "=" + f.1) == Some(f)
  {
    var line := f.0 + "=" + f.1;
    var s := RenderField(f) + rest;
    assert s == line + "\n" + rest;
    FindAt(s, '\n', |line|);
    FindAt(line, '=', |f.0|);
    assert line[..|f.0|] == f.0 && line[|f.0| + 1..] == f.1;
  }

  /** Parsing undoes rendering. */
  lemma {:induction false} FieldsRoundTrip(fs: seq<Field>)
    requires forall i :: 0 <= i < |fs| ==> Frames(fs[i])
    ensures ParseFields(Render(fs)) == Some(fs)
  {
    if fs != [] {
      ParseRenderedField(fs[0], Render(fs[1..]));
      FieldsRoundTrip(fs[1..]);
      assert [fs[0]] + fs[1..] == fs;
    }
  }

  // ---- the loops of the readers and writers -------------------------------------------------------

  lemma {:induction false} RenderAppend(fs: seq<Field>, f: Field)
    ensures Render(fs + [f]) == Render(fs) + RenderField(f)
  {
    if fs == [] {
      assert (fs + [f])[1..] == [];
    } else {
      assert (fs + [f])[1..] == fs[1..] + [f];
      RenderAppend(fs[1..], f);
      Regroup(RenderField(fs[0]), Render(fs[1..]), RenderField(f));
    }
  }

  /** The line at pos without its end, and where the next one begins. */
  method NextLine(body: string, pos: nat) returns (line: string, next: nat)
    requires pos < |body|
    ensures pos < next <= |body| && line == body[pos..][..Find(body[pos..], '\n')]
    ensures body[next..] == Rest(body[pos..])
  {
    var nl := pos;
    while nl < |body| && body[nl] != '\n'
      invariant pos <= nl <= |body| && forall i :: pos <= i < nl ==> body[i] != '\n'
    {
      nl := nl + 1;
    }
    ghost var s := body[pos..];
    assert forall i :: 0 <= i < nl - pos ==> s[i] == body[pos + i];
    if nl < |body| {
      assert s[nl - pos] == body[nl];
      FindAt(s, '\n', nl - pos);
      assert s[nl - pos + 1..] == body[nl + 1..];
    } else {
      assert Find(s, '\n') == |s|;
    }
    line := body[pos..nl];
    assert line == s[..nl - pos];
    next := if nl < |body| then nl + 1 else nl;
  }

  /** What is left behind the first line. */
  function Rest(s: string): (r: string)
    ensures s != "" ==> |r| < |s|
  {
    var nl := Find(s, '\n');
    if nl < |s| then s[nl + 1..] else ""
  }

  /** One line at the front of a body. */
  lemma ParseFieldsStep(s: string)
    requires s != ""
    ensures var line := s[..Find(s, '\n')];
      ParseFields(s) == if line == "" then ParseFields(Rest(s))
                        else match (ParseLine(line), ParseFields(Rest(s))) case (Some(f), Some(fs)) => Some([f] + fs) case _ => None
  {}
}
