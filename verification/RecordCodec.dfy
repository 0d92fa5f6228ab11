/**
 * Records as lines of keyed fields: what the two record formats share
 * (src/cas/agent_state.cpp, src/cas/runtime_state.cpp).  A format says which keys it
 * knows, how they are spelled, and what a value does to the record.
 */
module RecordCodec {
  import opened CasTypes
  import opened LineCodec
  import opened Sequences

  datatype Item<K> = Item(key: K, value: string)

  datatype Format<!R, !K> = Format(header: string, keys: seq<K>, text: K -> string, assign: (R, K, string) -> Option<R>)

  function With<T, R>(v: Option<T>, put: T -> R): Option<R> {
    match v
    case None => None
    case Some(x) => Some(put(x))
  }

  // ---- keys ----------------------------------------------------------------------------

  /** The chain of comparisons. */
  function FindKey<K>(keys: seq<K>, text: K -> string, s: string): Option<K> {
    if keys == [] then None
    else if s == text(keys[0]) then Some(keys[0])
    else FindKey(keys[1..], text, s)
  }

  lemma {:induction false} FindsKey<K>(keys: seq<K>, text: K -> string, k: K)
    requires k in keys && forall j | j in keys && j != k :: text(j) != text(k)
    ensures FindKey(keys, text, text(k)) == Some(k)
  {
    if keys[0] != k {
      FindsKey(keys[1..], text, k);
    }
  }

  // ---- reading -------------------------------------------------------------------------

  /** One field into the record; an unknown key is ignored, None is the error return. */
  function AssignField<R, K>(fmt: Format<R, K>, r: R, f: Field): Option<R> {
    match FindKey(fmt.keys, fmt.text, f.0)
    case None => Some(r)
    case Some(key) => fmt.assign(r, key, f.1)
  }

  function AssignAll<R, K>(fmt: Format<R, K>, r: R, fs: seq<Field>): Option<R>
    decreases |fs|
  {
    if fs == [] then Some(r)
    else
      match AssignField(fmt, r, fs[0])
      case None => None
      case Some(r') => AssignAll(fmt, r', fs[1..])
  }

  function Finish<R, K>(fmt: Format<R, K>, r: R, text: string): Option<R> {
    match ParseFields(text)
    case None => None
    case Some(fs) => AssignAll(fmt, r, fs)
  }

  function Parse<R, K>(fmt: Format<R, K>, blank: R, body: string): Option<R> {
    var n := |fmt.header|;
    if |body| < n || body[..n] != fmt.header then None else Finish(fmt, blank, body[n..])
  }

  /** What the line at the front of a text gives. */
  datatype LineRead = Blank | Broken | Got(field: Field)

  function ReadLine(text: string): LineRead {
    var line := text[..Find(text, '\n')];
    if line == "" then Blank
    else
      match ParseLine(line)
      case None => Broken
      case Some(f) => Got(f)
  }

  /** Line by line; the first bad line ends it. */
  lemma FinishStep<R, K>(fmt: Format<R, K>, r: R, text: string)
    requires text != ""
    ensures Finish(fmt, r, text) == match ReadLine(text)
      case Blank => Finish(fmt, r, Rest(text))
      case Broken => None
      case Got(f) => (match AssignField(fmt, r, f) case None => None case Some(r') => Finish(fmt, r', Rest(text)))
  {
    ParseFieldsStep(text);
    var line := text[..Find(text, '\n')];
    if line != "" && ParseLine(line).Some? && ParseFields(Rest(text)).Some? {
      var f, fs := ParseLine(line).value, ParseFields(Rest(text)).value;
      assert ([f] + fs)[1..] == fs;
    }
  }

  method NextField(body: string, pos: nat) returns (read: LineRead, next: nat)
    requires pos < |body|
    ensures pos < next <= |body| && read == ReadLine(body[pos..]) && body[next..] == Rest(body[pos..])
  {
    var line;
    line, next := NextLine(body, pos);
    if line == "" {
      return Blank, next;
    }
    var f := ParseLine(line);
    read := if f.None? then Broken else Got(f.value);
  }

  // ---- writing -------------------------------------------------------------------------

  function FieldOf<K>(text: K -> string, i: Item<K>): Field {
    (text(i.key), i.value)
  }

  function FieldsOf<K>(text: K -> string, items: seq<Item<K>>): (fs: seq<Field>)
    ensures |fs| == |items|
  {
    seq(|items|, i requires 0 <= i < |items| => FieldOf(text, items[i]))
  }

  function Print<K>(header: string, text: K -> string, items: seq<Item<K>>): string {
    header + Render(FieldsOf(text, items))
  }

  /** One more line at the end of the text. */
  lemma PrintOneMore<K>(header: string, text: K -> string, items: seq<Item<K>>, i: Item<K>)
    ensures Print(header, text, items + [i]) == Print(header, text, items) + RenderField(FieldOf(text, i))
  {
    assert FieldsOf(text, items + [i]) == FieldsOf(text, items) + [FieldOf(text, i)];
    RenderAppend(FieldsOf(text, items), FieldOf(text, i));
    Regroup(header, Render(FieldsOf(text, items)), RenderField(FieldOf(text, i)));
  }

  /** The next of some more lines behind what has been written. */
  lemma PrintNext<K>(header: string, text: K -> string, items: seq<Item<K>>, more: seq<Item<K>>, n: nat)
    requires n < |more|
    ensures Print(header, text, items + more[..n + 1]) == Print(header, text, items + more[..n]) + RenderField(FieldOf(text, more[n]))
  {
    assert items + more[..n + 1] == items + more[..n] + [more[n]];
    PrintOneMore(header, text, items + more[..n], more[n]);
  }

  // ---- reading what was written ----------------------------------------------------------

  function AssignItems<R, K>(fmt: Format<R, K>, r: R, items: seq<Item<K>>): Option<R>
    decreases |items|
  {
    if items == [] then Some(r)
    else
      match fmt.assign(r, items[0].key, items[0].value)
      case None => None
      case Some(r') => AssignItems(fmt, r', items[1..])
  }

  ghost predicate Readable<R, K>(fmt: Format<R, K>, i: Item<K>) {
    Frames(FieldOf(fmt.text, i)) && FindKey(fmt.keys, fmt.text, fmt.text(i.key)) == Some(i.key)
  }

  lemma {:induction false} FieldsAssignItems<R, K>(fmt: Format<R, K>, r: R, items: seq<Item<K>>)
    requires forall i :: 0 <= i < |items| ==> Readable(fmt, items[i])
    ensures AssignAll(fmt, r, FieldsOf(fmt.text, items)) == AssignItems(fmt, r, items)
    decreases |items|
  {
    if items != [] {
      assert Readable(fmt, items[0]);
      assert forall i :: 0 <= i < |items[1..]| ==> items[1..][i] == items[i + 1];
      match fmt.assign(r, items[0].key, items[0].value)
      case None =>
      case Some(r') =>
        assert FieldsOf(fmt.text, items)[1..] == FieldsOf(fmt.text, items[1..]);
        FieldsAssignItems(fmt, r', items[1..]);
    }
  }

  lemma {:induction false} AssignInTwo<R, K>(fmt: Format<R, K>, r: R, a: seq<Item<K>>, b: seq<Item<K>>)
    ensures AssignItems(fmt, r, a + b) == match AssignItems(fmt, r, a) case None => None case Some(r') => AssignItems(fmt, r', b)
    decreases |a|
  {
    if a == [] {
      assert a + b == b;
    } else {
      assert (a + b)[1..] == a[1..] + b;
      match fmt.assign(r, a[0].key, a[0].value)
      case None =>
      case Some(r') => AssignInTwo(fmt, r', a[1..], b);
    }
  }

  /** Parsing a printed list of items assigns exactly these items, in order. */
  lemma ParsePrinted<R, K>(fmt: Format<R, K>, blank: R, items: seq<Item<K>>)
    requires forall i :: 0 <= i < |items| ==> Readable(fmt, items[i])
    ensures Parse(fmt, blank, Print(fmt.header, fmt.text, items)) == AssignItems(fmt, blank, items)
  {
    forall i | 0 <= i < |items| ensures Frames(FieldsOf(fmt.text, items)[i]) {
      assert Readable(fmt, items[i]);
    }
    FieldsRoundTrip(FieldsOf(fmt.text, items));
    FieldsAssignItems(fmt, blank, items);
    HeadAndTail(fmt.header, Render(FieldsOf(fmt.text, items)));
  }

  // ---- every field reads back its own value ------------------------------------------------

  /** How a record's fields are printed and compared, and the id that no key holds. */
  datatype Fields<!R, !K> = Fields(value: (R, K) -> string, same: (R, R, K) -> bool, id: R -> string)

  function ItemsFor<R, K>(value: (R, K) -> string, r: R, keys: seq<K>): (items: seq<Item<K>>)
    ensures |items| == |keys|
  {
    seq(|keys|, i requires 0 <= i < |keys| => Item(keys[i], value(r, keys[i])))
  }

  /** r' is r with one field taken from t. */
  ghost predicate TookField<R, K(!new)>(f: Fields<R, K>, r: R, r': R, t: R, k: K) {
    f.same(r', t, k) && f.id(r') == f.id(r) && forall j | j != k :: f.same(r', r, j)
  }

  /** Reading the fields of some keys takes exactly these fields over. */
  ghost predicate TookKeys<R, K(!new)>(f: Fields<R, K>, r: R, r': R, t: R, keys: seq<K>) {
    f.id(r') == f.id(r) && forall k :: f.same(r', if k in keys then t else r, k)
  }

  ghost predicate Comparable<R(!new), K(!new)>(f: Fields<R, K>) {
    && (forall r, k :: f.same(r, r, k))
    && (forall a, b, c, k :: f.same(a, b, k) && f.same(b, c, k) ==> f.same(a, c, k))
  }

  /** The printed value of t's field is accepted, and takes this field over. */
  ghost predicate ReadsOwn<R, K(!new)>(fmt: Format<R, K>, f: Fields<R, K>, r: R, t: R, k: K) {
    var read := fmt.assign(r, k, f.value(t, k));
    read.Some? && TookField(f, r, read.value, t, k)
  }

  lemma TookOneMore<R(!new), K(!new)>(f: Fields<R, K>, r: R, r1: R, r': R, t: R, keys: seq<K>)
    requires Comparable(f) && keys != [] && TookField(f, r, r1, t, keys[0]) && TookKeys(f, r1, r', t, keys[1..])
    ensures TookKeys(f, r, r', t, keys)
  {
    forall k ensures f.same(r', if k in keys then t else r, k) {
      assert k in keys <==> k == keys[0] || k in keys[1..];
      assert f.same(r', if k in keys[1..] then t else r1, k);
      if k !in keys[1..] {
        assert f.same(r1, if k == keys[0] then t else r, k);
      }
    }
  }

  lemma {:induction false} OwnValuesRead<R(!new), K(!new)>(fmt: Format<R, K>, f: Fields<R, K>, r: R, t: R, keys: seq<K>)
    returns (r': R)
    requires Comparable(f) && forall q: R, k | k in keys :: ReadsOwn(fmt, f, q, t, k)
    ensures AssignItems(fmt, r, ItemsFor(f.value, t, keys)) == Some(r') && TookKeys(f, r, r', t, keys)
    decreases |keys|
  {
    if keys == [] {
      r' := r;
    } else {
      assert ReadsOwn(fmt, f, r, t, keys[0]);
      var r1 := fmt.assign(r, keys[0], f.value(t, keys[0])).value;
      assert ItemsFor(f.value, t, keys)[1..] == ItemsFor(f.value, t, keys[1..]);
      r' := OwnValuesRead(fmt, f, r1, t, keys[1..]);
      TookOneMore(f, r, r1, r', t, keys);
    }
  }
}
