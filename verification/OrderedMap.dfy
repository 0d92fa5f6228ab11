/**
 * `std::map<std::string, V>` as working_tree.cpp uses it: strings in lexicographic
 * order, iteration in that order, `lower_bound`, and the fact that the keys that
 * share a prefix form one contiguous range.
 */
module OrderedMap {

  // ---- the order ---------------------------------------------------------------------

  predicate Less(a: string, b: string) {
    if b == "" then false
    else if a == "" then true
    else a[0] < b[0] || (a[0] == b[0] && Less(a[1..], b[1..]))
  }

  lemma {:induction false} LessTrichotomy(a: string, b: string)
    ensures Less(a, b) || a == b || Less(b, a)
    ensures !(Less(a, b) && Less(b, a)) && !(Less(a, b) && a == b)
  {
    if a != "" && b != "" && a[0] == b[0] {
      LessTrichotomy(a[1..], b[1..]);
      assert a == [a[0]] + a[1..] && b == [b[0]] + b[1..];
    }
  }

  lemma {:induction false} LessTransitive(a: string, b: string, c: string)
    requires Less(a, b) && Less(b, c)
    ensures Less(a, c)
  {
    if a != "" && a[0] == b[0] && b[0] == c[0] {
      LessTransitive(a[1..], b[1..], c[1..]);
    }
  }

  /** A string with the prefix is not before the prefix. */
  lemma {:induction false} PrefixNotAfter(p: string, k: string)
    requires p <= k
    ensures !Less(k, p)
  {
    if p != "" {
      assert p[1..] <= k[1..];
      PrefixNotAfter(p[1..], k[1..]);
    }
  }

  /** What lies between the prefix and a string with the prefix has the prefix too. */
  lemma {:induction false} PrefixConvex(p: string, a: string, b: string)
    requires !Less(a, p) && p <= b && !Less(b, a)
    ensures p <= a
  {
    if p != "" {
      assert p[1..] <= b[1..];
      PrefixConvex(p[1..], a[1..], b[1..]);
    }
  }

  ghost predicate Sorted(keys: seq<string>) {
    forall i, j :: 0 <= i < j < |keys| ==> Less(keys[i], keys[j])
  }

  lemma SortedDistinct(keys: seq<string>, i: nat, j: nat)
    requires Sorted(keys) && i < |keys| && j < |keys| && keys[i] == keys[j]
    ensures i == j
  {
    LessTrichotomy(keys[i], keys[j]);
  }

  // ---- maps --------------------------------------------------------------------------

  datatype Ordered<V> = Ordered(keys: seq<string>, at: map<string, V>)
  {
    ghost predicate Valid() {
      Sorted(keys) && (forall k :: k in keys <==> k in at)
    }
  }

  function Empty<V>(): (m: Ordered<V>)
    ensures m.Valid()
  {
    Ordered([], map[])
  }

  /** The first position whose key is not before k. */
  function LowerBound(keys: seq<string>, k: string): (n: nat)
    ensures n <= |keys|
  {
    if keys == [] || !Less(keys[0], k) then 0 else 1 + LowerBound(keys[1..], k)
  }

  lemma {:induction false} LowerBoundSplits(keys: seq<string>, k: string)
    requires Sorted(keys)
    ensures forall i :: 0 <= i < LowerBound(keys, k) ==> Less(keys[i], k)
    ensures forall i :: LowerBound(keys, k) <= i < |keys| ==> !Less(keys[i], k)
  {
    if keys != [] {
      var rest := keys[1..];
      if Less(keys[0], k) {
        LowerBoundSplits(rest, k);
        assert forall i :: 0 < i < |keys| ==> keys[i] == rest[i - 1];
      } else {
        forall i | 0 <= i < |keys| ensures !Less(keys[i], k) {
          if Less(keys[i], k) && i > 0 {
            LessTransitive(keys[0], keys[i], k);
          }
        }
      }
    }
  }

  function Put<V>(m: Ordered<V>, k: string, v: V): Ordered<V> {
    if k in m.at then Ordered(m.keys, m.at[k := v])
    else
      var n := LowerBound(m.keys, k);
      Ordered(m.keys[..n] + [k] + m.keys[n..], m.at[k := v])
  }

  lemma PutValid<V>(m: Ordered<V>, k: string, v: V)
    requires m.Valid()
    ensures Put(m, k, v).Valid() && Put(m, k, v).at == m.at[k := v]
  {
    if k !in m.at {
      var n, keys := LowerBound(m.keys, k), Put(m, k, v).keys;
      LowerBoundSplits(m.keys, k);
      forall i | n <= i < |m.keys| ensures Less(k, m.keys[i]) {
        assert m.keys[i] in m.keys;
        LessTrichotomy(k, m.keys[i]);
      }
      InsertSorted(m.keys, n, k);
      forall x ensures x in keys <==> x in m.keys || x == k {
        SplitMembers(m.keys, n, x);
      }
    }
  }

  lemma SplitMembers(keys: seq<string>, n: nat, x: string)
    requires n <= |keys|
    ensures x in keys <==> x in keys[..n] || x in keys[n..]
  {
    assert keys == keys[..n] + keys[n..];
  }

  lemma InsertSorted(keys: seq<string>, n: nat, k: string)
    requires Sorted(keys) && n <= |keys|
    requires forall i :: 0 <= i < n ==> Less(keys[i], k)
    requires forall i :: n <= i < |keys| ==> Less(k, keys[i])
    ensures Sorted(keys[..n] + [k] + keys[n..])
  {}

  function RemoveKey(keys: seq<string>, k: string): (r: seq<string>)
    ensures forall x :: x in r <==> x in keys && x != k
  {
    if keys == [] then []
    else if keys[0] == k then RemoveKey(keys[1..], k)
    else [keys[0]] + RemoveKey(keys[1..], k)
  }

  lemma {:induction false} RemoveSorted(keys: seq<string>, k: string)
    requires Sorted(keys)
    ensures Sorted(RemoveKey(keys, k))
  {
    if keys != [] {
      var rest := RemoveKey(keys[1..], k);
      RemoveSorted(keys[1..], k);
      forall x | x in rest ensures Less(keys[0], x) {
        var i :| 0 <= i < |keys[1..]| && keys[1..][i] == x;
        assert keys[i + 1] == x;
      }
    }
  }

  function Erase<V>(m: Ordered<V>, k: string): Ordered<V> {
    Ordered(RemoveKey(m.keys, k), m.at - {k})
  }

  lemma EraseValid<V>(m: Ordered<V>, k: string)
    requires m.Valid()
    ensures Erase(m, k).Valid()
  {
    RemoveSorted(m.keys, k);
  }

  // ---- one contiguous range per prefix -------------------------------------------------

  /** How many keys from the front have the prefix. */
  function RunLength(keys: seq<string>, p: string): (n: nat)
    ensures n <= |keys|
    ensures forall i :: 0 <= i < n ==> p <= keys[i]
    ensures n < |keys| ==> !(p <= keys[n])
  {
    if keys == [] || !(p <= keys[0]) then 0 else 1 + RunLength(keys[1..], p)
  }

  /** From the lower bound on, as long as the prefix holds. */
  function PrefixRange(keys: seq<string>, p: string): seq<string> {
    var rest := keys[LowerBound(keys, p)..];
    rest[..RunLength(rest, p)]
  }

  lemma InPrefixRange(keys: seq<string>, p: string, i: nat)
    requires Sorted(keys) && i < |keys| && p <= keys[i]
    ensures LowerBound(keys, p) <= i < LowerBound(keys, p) + |PrefixRange(keys, p)|
  {
    var lo := LowerBound(keys, p);
    var rest := keys[lo..];
    var n := RunLength(rest, p);
    LowerBoundSplits(keys, p);
    PrefixNotAfter(p, keys[i]);
    assert lo + n < |keys| ==> rest[n] == keys[lo + n];
    if i > lo + n {
      LessTrichotomy(keys[lo + n], keys[i]);
      PrefixConvex(p, keys[lo + n], keys[i]);
    }
  }

  /** The range has exactly the keys with the prefix, in order. */
  lemma PrefixRangeIsExact(keys: seq<string>, p: string)
    requires Sorted(keys)
    ensures Sorted(PrefixRange(keys, p))
    ensures forall k :: k in PrefixRange(keys, p) <==> k in keys && p <= k
  {
    var lo, range := LowerBound(keys, p), PrefixRange(keys, p);
    assert forall j :: 0 <= j < |range| ==> range[j] == keys[lo + j] && p <= range[j];
    forall k | k in keys && p <= k ensures k in range {
      var i :| 0 <= i < |keys| && keys[i] == k;
      InPrefixRange(keys, p, i);
      assert range[i - lo] == k;
    }
  }

  // ---- merging two orders ----------------------------------------------------------------

  /** The order in which a two-cursor walk visits the keys of two maps. */
  function Merge(b: seq<string>, d: seq<string>): seq<string>
    decreases |b| + |d|
  {
    if b == [] then d
    else if d == [] then b
    else if Less(d[0], b[0]) then [d[0]] + Merge(b, d[1..])
    else if Less(b[0], d[0]) then [b[0]] + Merge(b[1..], d)
    else [d[0]] + Merge(b[1..], d[1..])
  }

  lemma {:induction false} MergeMembers(b: seq<string>, d: seq<string>, k: string)
    ensures k in Merge(b, d) <==> k in b || k in d
    decreases |b| + |d|
  {
    if b != [] && d != [] {
      LessTrichotomy(b[0], d[0]);
      if Less(d[0], b[0]) {
        MergeMembers(b, d[1..], k);
      } else if Less(b[0], d[0]) {
        MergeMembers(b[1..], d, k);
      } else {
        MergeMembers(b[1..], d[1..], k);
      }
    }
  }

  lemma {:induction false} MergeSorted(b: seq<string>, d: seq<string>)
    requires Sorted(b) && Sorted(d)
    ensures Sorted(Merge(b, d))
    decreases |b| + |d|
  {
    if b != [] && d != [] {
      LessTrichotomy(b[0], d[0]);
      if Less(d[0], b[0]) {
        MergeSorted(b, d[1..]);
        ConsSorted(d[0], b, d[1..]);
      } else if Less(b[0], d[0]) {
        MergeSorted(b[1..], d);
        ConsSorted(b[0], b[1..], d);
      } else {
        MergeSorted(b[1..], d[1..]);
        ConsSorted(d[0], b[1..], d[1..]);
      }
    }
  }

  ghost predicate AllAfter(x: string, keys: seq<string>) {
    forall i :: 0 <= i < |keys| ==> Less(x, keys[i])
  }

  lemma ConsSorted(x: string, b: seq<string>, d: seq<string>)
    requires Sorted(b) && Sorted(d) && Sorted(Merge(b, d))
    requires b != [] ==> Less(x, b[0])
    requires d != [] ==> Less(x, d[0])
    ensures Sorted([x] + Merge(b, d))
  {
    var m := Merge(b, d);
    HeadFirst(x, b);
    HeadFirst(x, d);
    forall i | 0 <= i < |m| ensures Less(x, m[i]) {
      MergeMembers(b, d, m[i]);
      if m[i] in b {
        var j :| 0 <= j < |b| && b[j] == m[i];
      } else {
        var j :| 0 <= j < |d| && d[j] == m[i];
      }
    }
  }

  lemma HeadFirst(x: string, keys: seq<string>)
    requires Sorted(keys) && (keys != [] ==> Less(x, keys[0]))
    ensures AllAfter(x, keys)
  {
    forall i | 0 < i < |keys| ensures Less(x, keys[i]) {
      LessTransitive(x, keys[0], keys[i]);
    }
  }
}
