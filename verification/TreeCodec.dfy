/** The byte format of a directory object (src/cas/tree_serialize.cpp). */
module TreeCodec {
  import opened CasTypes
  import opened Bytes
  import opened OrderedMap

  /** One line; the kind is the byte that is stored. */
  datatype Line = Line(name: string, mode: nat, kind: byte, hash: Hash)

  predicate Wf(e: Line) {
    ByteString(e.name) && e.mode < TWO32
  }

  ghost predicate AllWf(es: seq<Line>) {
    forall i :: 0 <= i < |es| ==> Wf(es[i])
  }

  // ---- sorting by name -------------------------------------------------------------------

  function Insert(e: Line, es: seq<Line>): seq<Line> {
    if es == [] then [e]
    else if Less(es[0].name, e.name) then [es[0]] + Insert(e, es[1..])
    else [e] + es
  }

  function Sort(es: seq<Line>): (r: seq<Line>)
    ensures |r| == |es|
  {
    if es == [] then []
    else
      InsertGrows(es[0], Sort(es[1..]));
      Insert(es[0], Sort(es[1..]))
  }

  lemma InsertGrows(e: Line, es: seq<Line>)
    ensures multiset(Insert(e, es)) == multiset(es) + multiset{e} && |Insert(e, es)| == |es| + 1
  {
    if es != [] && Less(es[0].name, e.name) {
      InsertGrows(e, es[1..]);
      assert es == [es[0]] + es[1..];
    }
  }

  lemma {:induction false} SortPermutes(es: seq<Line>)
    ensures multiset(Sort(es)) == multiset(es)
  {
    if es != [] {
      SortPermutes(es[1..]);
      InsertGrows(es[0], Sort(es[1..]));
      assert es == [es[0]] + es[1..];
    }
  }

  lemma SortKeepsWf(es: seq<Line>)
    requires AllWf(es)
    ensures AllWf(Sort(es))
  {
    SortPermutes(es);
    forall i | 0 <= i < |Sort(es)| ensures Wf(Sort(es)[i]) {
      assert Sort(es)[i] in multiset(Sort(es));
      assert Sort(es)[i] in multiset(es);
      assert Sort(es)[i] in es;
    }
  }

  ghost predicate InOrder(es: seq<Line>) {
    forall i, j :: 0 <= i < j < |es| ==> !Less(es[j].name, es[i].name)
  }

  lemma {:induction false} InsertOrders(e: Line, es: seq<Line>)
    requires InOrder(es)
    ensures InOrder(Insert(e, es))
  {
    if es != [] {
      if Less(es[0].name, e.name) {
        InsertOrders(e, es[1..]);
        var rest := Insert(e, es[1..]);
        InsertGrows(e, es[1..]);
        forall j | 0 <= j < |rest| ensures !Less(rest[j].name, es[0].name) {
          assert rest[j] in multiset(rest);
          LessTrichotomy(es[0].name, e.name);
          if rest[j] != e {
            assert rest[j] in es[1..];
          }
        }
      } else {
        forall j | 0 <= j < |es| ensures !Less(es[j].name, e.name) {
          if j > 0 && Less(es[j].name, e.name) {
            NotBefore(es[0].name, es[j].name, e.name);
          }
        }
      }
    }
  }

  lemma NotBefore(a: string, b: string, c: string)
    requires !Less(b, a) && Less(b, c)
    ensures Less(a, c)
  {
    LessTrichotomy(a, b);
    if a != b {
      LessTransitive(a, b, c);
    }
  }

  lemma {:induction false} SortOrders(es: seq<Line>)
    ensures InOrder(Sort(es))
  {
    if es != [] {
      SortOrders(es[1..]);
      InsertOrders(es[0], Sort(es[1..]));
    }
  }

  /** Lines in strict order are left alone. */
  lemma {:induction false} SortOfSorted(es: seq<Line>)
    requires forall i, j :: 0 <= i < j < |es| ==> Less(es[i].name, es[j].name)
    ensures Sort(es) == es
  {
    if es != [] {
      SortOfSorted(es[1..]);
      if |es| > 1 {
        assert es[1..][0] == es[1];
        LessTrichotomy(es[0].name, es[1].name);
      }
      assert es == [es[0]] + es[1..];
    }
  }

  // ---- encoding ---------------------------------------------------------------------------

  function EncodeLine(e: Line): seq<byte> {
    var name := StoredText(e.name);
    Le(|name|, 2) + ToBytes(name) + Le(e.mode, 4) + [e.kind] + e.hash.bytes
  }

  function Encode(es: seq<Line>): seq<byte> {
    Le(|es| % TWO32, 4) + Flatten(MapAll(EncodeLine, Sort(es)))
  }

  method SerializeTreeEntries(children: seq<Line>) returns (buf: seq<byte>)
    ensures buf == Encode(children)
  {
    var sorted := Sort(children);
    buf := PutMany(EncodeLine, sorted, Le(|sorted| % TWO32, 4));
  }

  // ---- decoding ---------------------------------------------------------------------------

  /** One line at the front, and how many bytes it takes. */
  function DecodeLine(b: seq<byte>): Option<(Line, nat)> {
    if |b| < 2 then None
    else
      var n := FromLe(b[..2]);
      if |b| < 2 + n + 4 + 1 + 32 then None
      else Some((Line(FromBytes(b[2..2 + n]), FromLe(b[2 + n..6 + n]), b[6 + n], Hash(b[7 + n..39 + n])), 39 + n))
  }

  function Decode(body: seq<byte>): Option<seq<Line>> {
    ParseCounted(DecodeLine, body, 4)
  }

  method DeserializeTreeEntries(body: seq<byte>) returns (out: Option<seq<Line>>)
    ensures out == Decode(body)
  {
    if |body| < 4 {
      return None;
    }
    var count := FromLe(body[..4]);
    var lines := ReadMany(DecodeLine, body, 4, count);
    match lines {
      case None => out := None;
      case Some((es, _)) => out := Some(es);
    }
  }

  // ---- round trip ---------------------------------------------------------------------------

  /** What comes back of a line: its name cut to what the length field can say. */
  function Stored(e: Line): Line {
    e.(name := StoredText(e.name))
  }

  lemma DecodeEncodedLine(e: Line, rest: seq<byte>)
    requires Wf(e)
    ensures DecodeLine(EncodeLine(e) + rest) == Some((Stored(e), |EncodeLine(e)|))
    ensures (EncodeLine(e) + rest)[|EncodeLine(e)|..] == rest
  {
    var name := StoredText(e.name);
    var n, b := |name|, EncodeLine(e) + rest;
    Widths();
    LeRoundTrip(n, 2);
    LeRoundTrip(e.mode, 4);
    BytesRoundTrip(name);
    assert b[..2] == Le(n, 2);
    assert b[2..2 + n] == ToBytes(name);
    assert b[2 + n..6 + n] == Le(e.mode, 4);
    assert b[6 + n] == e.kind;
    assert b[7 + n..39 + n] == e.hash.bytes;
  }

  lemma LineUndone(e: Line, tail: seq<byte>)
    requires Wf(e)
    ensures UndoesAt(DecodeLine, EncodeLine(e), tail, Stored(e))
  {
    DecodeEncodedLine(e, tail);
  }

  lemma LinesUndone(es: seq<Line>)
    requires AllWf(es)
    ensures Undoes(DecodeLine, MapAll(EncodeLine, es), MapAll(Stored, es))
  {
    forall i, tail | 0 <= i < |es| ensures UndoesAt(DecodeLine, MapAll(EncodeLine, es)[i], tail, MapAll(Stored, es)[i]) {
      LineUndone(es[i], tail);
    }
  }

  /** Whatever is encoded, this is what decoding gives. */
  lemma DecodeEncoded(es: seq<Line>)
    requires AllWf(es)
    ensures Decode(Encode(es)) == Some(MapAll(Stored, Sort(es))[..|es| % TWO32])
  {
    var sorted := Sort(es);
    var parts := MapAll(EncodeLine, sorted);
    SortKeepsWf(es);
    Widths();
    LinesUndone(sorted);
    Cut(|es|, TWO32);
    CountedUndoes(DecodeLine, parts, MapAll(Stored, sorted), |es| % TWO32, 4);
  }

  lemma SameMembers(es: seq<Line>, e: Line)
    ensures e in es <==> e in Sort(es)
  {
    SortPermutes(es);
    assert e in es <==> e in multiset(es);
    assert e in Sort(es) <==> e in multiset(Sort(es));
  }

  lemma StoredUnchanged(es: seq<Line>)
    ensures MapAll(Stored, es) == es <==> forall e | e in es :: |e.name| < TWO16
  {
    if forall e | e in es :: |e.name| < TWO16 {
      forall i | 0 <= i < |es| ensures Stored(es[i]) == es[i] {
        assert es[i] in es;
      }
    }
    if MapAll(Stored, es) == es {
      forall e | e in es ensures |e.name| < TWO16 {
        var i :| 0 <= i < |es| && es[i] == e;
        assert MapAll(Stored, es)[i] == Stored(e);
      }
    }
  }

  /** The directory comes back sorted and otherwise as it was exactly when every name fits its length field. */
  lemma RoundTripExactly(es: seq<Line>)
    requires AllWf(es) && |es| < TWO32
    ensures Decode(Encode(es)) == Some(Sort(es)) <==> forall e | e in es :: |e.name| < TWO16
  {
    DecodeEncoded(es);
    Cut(|es|, TWO32);
    assert MapAll(Stored, Sort(es))[..|es|] == MapAll(Stored, Sort(es));
    StoredUnchanged(Sort(es));
    forall e ensures e in es <==> e in Sort(es) {
      SameMembers(es, e);
    }
  }
}
