/** Fixed-width integers and byte strings, as `memcpy` lays them out on a little-endian machine. */
module Bytes {
  import opened CasTypes
  import opened Sequences

  const TWO16: nat := 0x1_0000
  const TWO32: nat := 0x1_0000_0000
  const TWO64: nat := 0x1_0000_0000_0000_0000

  /** The lowest `width` bytes of n, least significant first. */
  function Le(n: nat, width: nat): (b: seq<byte>)
    ensures |b| == width
    decreases n, width
  {
    if width == 0 then [] else [(n % 256) as byte] + Le(n / 256, width - 1)
  }

  function FromLe(b: seq<byte>): nat {
    if b == [] then 0 else b[0] as nat + 256 * FromLe(b[1..])
  }

  function Pow256(width: nat): (p: nat)
    ensures p > 0
  {
    if width == 0 then 1 else 256 * Pow256(width - 1)
  }

  lemma {:induction false} LeRoundTrip(n: nat, width: nat)
    requires n < Pow256(width)
    ensures FromLe(Le(n, width)) == n
    decreases width
  {
    if width > 0 {
      LeRoundTrip(n / 256, width - 1);
      assert Le(n, width)[1..] == Le(n / 256, width - 1);
    }
  }

  lemma Widths()
    ensures Pow256(2) == TWO16 && Pow256(4) == TWO32 && Pow256(8) == TWO64
  {
    assert Pow256(1) == 256 && Pow256(2) == TWO16 && Pow256(3) == 0x100_0000 && Pow256(4) == TWO32;
    assert Pow256(5) == 0x100_0000_0000 && Pow256(6) == 0x1_0000_0000_0000 && Pow256(7) == 0x100_0000_0000_0000;
  }

  lemma Cut(n: nat, m: nat)
    requires m > 0
    ensures n % m <= n && n % m < m && (n < m ==> n % m == n)
  {
    if n < m {
      assert n % m == n;
    }
  }

  // ---- strings of bytes ------------------------------------------------------------------

  predicate ByteString(s: string) {
    forall i :: 0 <= i < |s| ==> s[i] as int < 256
  }

  function ToBytes(s: string): (b: seq<byte>)
    ensures |b| == |s|
  {
    seq(|s|, i requires 0 <= i < |s| => (s[i] as int % 256) as byte)
  }

  function FromBytes(b: seq<byte>): (s: string)
    ensures |s| == |b| && ByteString(s)
  {
    seq(|b|, i requires 0 <= i < |b| => b[i] as int as char)
  }

  lemma BytesRoundTrip(s: string)
    requires ByteString(s)
    ensures FromBytes(ToBytes(s)) == s
  {}

  // ---- many items in a row -----------------------------------------------------------------

  function Flatten(parts: seq<seq<byte>>): seq<byte> {
    if parts == [] then [] else parts[0] + Flatten(parts[1..])
  }

  function MapAll<T, U>(f: T -> U, s: seq<T>): (r: seq<U>)
    ensures |r| == |s| && forall i :: 0 <= i < |s| ==> r[i] == f(s[i])
  {
    seq(|s|, i requires 0 <= i < |s| => f(s[i]))
  }

  lemma {:induction false} FlattenAppend(parts: seq<seq<byte>>, last: seq<byte>)
    ensures Flatten(parts + [last]) == Flatten(parts) + last
  {
    if parts != [] {
      assert (parts + [last])[1..] == parts[1..] + [last];
      FlattenAppend(parts[1..], last);
    } else {
      assert (parts + [last])[1..] == [];
    }
  }

  /** Appends the encodings of all items to a buffer. */
  method PutMany<T>(put: T -> seq<byte>, items: seq<T>, head: seq<byte>) returns (buf: seq<byte>)
    ensures buf == head + Flatten(MapAll(put, items))
  {
    buf := head;
    for i := 0 to |items|
      invariant buf == head + Flatten(MapAll(put, items[..i]))
    {
      PutNext(put, items, i, head);
      buf := buf + put(items[i]);
    }
    assert items[..|items|] == items;
  }

  lemma PutNext<T>(put: T -> seq<byte>, items: seq<T>, i: nat, head: seq<byte>)
    requires i < |items|
    ensures head + Flatten(MapAll(put, items[..i + 1])) == head + Flatten(MapAll(put, items[..i])) + put(items[i])
  {
    assert MapAll(put, items[..i + 1]) == MapAll(put, items[..i]) + [put(items[i])];
    FlattenAppend(MapAll(put, items[..i]), put(items[i]));
  }

  /** Copies data into a buffer at a position. */
  method PutAt(buf: array<byte>, pos: nat, data: seq<byte>) returns (next: nat)
    requires pos + |data| <= buf.Length
    modifies buf
    ensures next == pos + |data|
    ensures buf[..] == old(buf[..pos]) + data + old(buf[pos + |data|..])
  {
    forall k | 0 <= k < |data| {
      buf[pos + k] := data[k];
    }
    next := pos + |data|;
  }

  // ---- texts under a length field of 16 bits --------------------------------------------------

  /** Only as many bytes of a text are stored as its length field can say. */
  function StoredText(text: string): (r: string)
    ensures r <= text && |r| < TWO16
  {
    text[..|text| % TWO16]
  }

  lemma StoredWhole(text: string)
    ensures StoredText(text) == text <==> |text| < TWO16
  {
    Cut(|text|, TWO16);
    if |text| < TWO16 {
      assert text[..|text|] == text;
    } else {
      assert |StoredText(text)| < |text|;
    }
  }

  // ---- reading many -----------------------------------------------------------------------------

  /** Reads one item at the front and says how many bytes it took. */
  type Parser<T> = seq<byte> -> Option<(T, nat)>

  function ParseMany<T>(parse: Parser<T>, b: seq<byte>, count: nat): Option<(seq<T>, nat)>
    decreases count
  {
    if count == 0 then Some(([], 0))
    else
      match parse(b)
      case None => None
      case Some((x, used)) =>
        if used > |b| then None
        else
          match ParseMany(parse, b[used..], count - 1)
          case None => None
          case Some((rest, more)) => Some(([x] + rest, used + more))
  }

  /** The cursor loop of the readers; gives the items and the position behind them. */
  method ReadMany<T>(parse: Parser<T>, body: seq<byte>, start: nat, count: nat) returns (out: Option<(seq<T>, nat)>)
    requires start <= |body|
    ensures out == ParseMany(parse, body[start..], count)
  {
    var pos, items := start, [];
    PrependNothing(ParseMany(parse, body[start..], count));
    for i := 0 to count
      invariant start <= pos <= |body|
      invariant ParseMany(parse, body[start..], count) == Prepend(items, pos - start, ParseMany(parse, body[pos..], count - i))
    {
      ReadNext(parse, body, start, pos, count - i, items);
      match parse(body[pos..]) {
        case None => return None;
        case Some((x, used)) =>
          if pos + used > |body| {
            return None;
          }
          items := items + [x];
          pos := pos + used;
      }
    }
    assert items + [] == items;
    out := Some((items, pos - start));
  }

  lemma PrependNothing<T>(rest: Option<(seq<T>, nat)>)
    ensures Prepend([], 0, rest) == rest
  {
    if rest.Some? {
      assert [] + rest.value.0 == rest.value.0;
    }
  }

  function Prepend<T>(items: seq<T>, n: nat, rest: Option<(seq<T>, nat)>): Option<(seq<T>, nat)> {
    match rest
    case None => None
    case Some((r, more)) => Some((items + r, n + more))
  }

  lemma ReadNext<T>(parse: Parser<T>, body: seq<byte>, start: nat, pos: nat, count: nat, items: seq<T>)
    requires start <= pos <= |body| && count > 0
    ensures var here := Prepend(items, pos - start, ParseMany(parse, body[pos..], count));
      match parse(body[pos..])
      case None => here == None
      case Some((x, used)) =>
        here == if pos + used > |body| then None
                else Prepend(items + [x], pos + used - start, ParseMany(parse, body[pos + used..], count - 1))
  {
    match parse(body[pos..])
    case None =>
    case Some((x, used)) =>
      if pos + used <= |body| {
        assert body[pos..][used..] == body[pos + used..];
        match ParseMany(parse, body[pos + used..], count - 1)
        case None =>
        case Some((rest, more)) => assert items + ([x] + rest) == items + [x] + rest;
      }
  }

  ghost predicate UndoesAt<T>(parse: Parser<T>, part: seq<byte>, tail: seq<byte>, item: T) {
    parse(part + tail) == Some((item, |part|))
  }

  /** Whatever follows a part, its item is what the parser reads. */
  ghost predicate Undoes<T>(parse: Parser<T>, parts: seq<seq<byte>>, items: seq<T>) {
    |parts| == |items| && forall i, tail :: 0 <= i < |parts| ==> UndoesAt(parse, parts[i], tail, items[i])
  }

  /** A parser that undoes an encoder one item at a time undoes it for many. */
  lemma {:induction false} ParseManyUndoes<T>(parse: Parser<T>, parts: seq<seq<byte>>, items: seq<T>, count: nat, rest: seq<byte>)
    requires Undoes(parse, parts, items) && count <= |items|
    ensures ParseMany(parse, Flatten(parts) + rest, count) == Some((items[..count], |Flatten(parts[..count])|))
    decreases count
  {
    if count > 0 {
      var tail := Flatten(parts[1..]) + rest;
      assert UndoesAt(parse, parts[0], tail, items[0]);
      assert Flatten(parts) + rest == parts[0] + tail;
      assert (parts[0] + tail)[|parts[0]|..] == tail;
      ParseManyUndoes(parse, parts[1..], items[1..], count - 1, rest);
      assert [items[0]] + items[1..][..count - 1] == items[..count];
      assert parts[..count][1..] == parts[1..][..count - 1];
    }
  }

  /** A count of fixed width, then that many items; what follows is ignored. */
  function ParseCounted<T>(parse: Parser<T>, body: seq<byte>, width: nat): Option<seq<T>> {
    if |body| < width then None
    else
      match ParseMany(parse, body[width..], FromLe(body[..width]))
      case None => None
      case Some((items, _)) => Some(items)
  }

  lemma CountedUndoes<T>(parse: Parser<T>, parts: seq<seq<byte>>, items: seq<T>, count: nat, width: nat)
    requires Undoes(parse, parts, items) && count <= |items| && count < Pow256(width)
    ensures ParseCounted(parse, Le(count, width) + Flatten(parts), width) == Some(items[..count])
  {
    LeRoundTrip(count, width);
    HeadAndTail(Le(count, width), Flatten(parts));
    HeadAndTail(Flatten(parts), []);
    ParseManyUndoes(parse, parts, items, count, []);
  }
}
