/** Deterministic map order (section 4.2.1 of RFC 8949): `canonMap` of transports/go/cbor.go. */
module CanonMap {
  import opened Bytes
  import opened GoCbor
  import opened GoRoundTrip

  /** Bytewise lexicographic order, as `bytes.Compare(a, b) < 0`. */
  predicate Less(a: seq<byte>, b: seq<byte>) {
    b != [] && (a == [] || a[0] < b[0] || (a[0] == b[0] && Less(a[1..], b[1..])))
  }

  lemma {:induction false} LessTrichotomy(a: seq<byte>, b: seq<byte>)
    ensures !(Less(a, b) && Less(b, a))
    ensures !Less(a, b) && !Less(b, a) <==> a == b
  {
    if a != [] && b != [] && a[0] == b[0] {
      LessTrichotomy(a[1..], b[1..]);
      assert a == [a[0]] + a[1..] && b == [b[0]] + b[1..];
    }
  }

  lemma {:induction false} LessTransitive(a: seq<byte>, b: seq<byte>, c: seq<byte>)
    requires Less(a, b) && Less(b, c)
    ensures Less(a, c)
  {
    if a != [] && a[0] == b[0] == c[0] {
      LessTransitive(a[1..], b[1..], c[1..]);
    }
  }

  /** `!Less(b, a)` is a total order, so it chains. */
  lemma {:induction false} NotLessTransitive(a: seq<byte>, b: seq<byte>, c: seq<byte>)
    requires !Less(b, a) && !Less(c, b)
    ensures !Less(c, a)
  {
    LessTrichotomy(a, b);
    LessTrichotomy(b, c);
    if a != b && b != c {
      LessTransitive(a, b, c);
      LessTrichotomy(a, c);
    }
  }

  function KeyBytes(e: Entry): seq<byte> {
    Encode(e.key)
  }

  predicate Sorted(es: seq<Entry>) {
    forall i, j :: 0 <= i < j < |es| ==> !Less(KeyBytes(es[j]), KeyBytes(es[i]))
  }

  /** The entries whose key encodes to `k`, in order. */
  function WithKey(es: seq<Entry>, k: seq<byte>): seq<Entry> {
    if es == [] then []
    else (if KeyBytes(es[0]) == k then [es[0]] else []) + WithKey(es[1..], k)
  }

  /** What a stable sort promises: ascending keys, and the entries of each key in their
      original order (which makes the result a permutation). */
  ghost predicate StablySorted(es: seq<Entry>, r: seq<Entry>) {
    Sorted(r) && forall k :: WithKey(r, k) == WithKey(es, k)
  }

  lemma {:induction false} WithKeyMember(es: seq<Entry>, k: seq<byte>, e: Entry)
    ensures e in WithKey(es, k) <==> e in es && KeyBytes(e) == k
  {
    if es != [] {
      WithKeyMember(es[1..], k, e);
      assert es == [es[0]] + es[1..];
    }
  }

  lemma {:induction false} WithKeyConcat(a: seq<Entry>, b: seq<Entry>, k: seq<byte>)
    ensures WithKey(a + b, k) == WithKey(a, k) + WithKey(b, k)
  {
    hide KeyBytes, WithKey;
    WithKeyUnfold(a, k);
    if a == [] {
      assert a + b == b;
      assert [] + WithKey(b, k) == WithKey(b, k);
    } else {
      WithKeyUnfold(a + b, k);
      WithKeyConcat(a[1..], b, k);
      assert (a + b)[0] == a[0] && (a + b)[1..] == a[1..] + b;
      var head: seq<Entry> := if KeyBytes(a[0]) == k then [a[0]] else [];
      assert (head + WithKey(a[1..], k)) + WithKey(b, k) == head + (WithKey(a[1..], k) + WithKey(b, k));
    }
  }

  lemma WithKeyUnfold(es: seq<Entry>, k: seq<byte>)
    ensures WithKey(es, k)
         == if es == [] then [] else (if KeyBytes(es[0]) == k then [es[0]] else []) + WithKey(es[1..], k)
  {
  }

  lemma HasOwnKey(es: seq<Entry>)
    ensures es != [] ==> WithKey(es, KeyBytes(es[0])) != []
    ensures es == [] ==> forall k :: WithKey(es, k) == []
  {
  }

  lemma WithKeyRest(es: seq<Entry>, k: seq<byte>)
    requires es != []
    ensures WithKey(es[1..], k) == if KeyBytes(es[0]) == k then WithKey(es, k)[1..] else WithKey(es, k)
  {
    hide KeyBytes;
    assert ([es[0]] + WithKey(es[1..], k))[1..] == WithKey(es[1..], k);
    assert [] + WithKey(es[1..], k) == WithKey(es[1..], k);
  }

  /** The contract pins the result down: there is only one stable sort. */
  lemma {:induction false} StableSortUnique(r: seq<Entry>, s: seq<Entry>)
    requires Sorted(r) && Sorted(s) && forall k :: WithKey(r, k) == WithKey(s, k)
    ensures r == s
    decreases |r|
  {
    hide KeyBytes, Less;
    HasOwnKey(r);
    HasOwnKey(s);
    if r != [] && s != [] {
      FirstKeysAgree(r, s);
      var key := KeyBytes(r[0]);
      assert WithKey(r, key)[0] == r[0] && WithKey(s, key)[0] == s[0];
      forall k ensures WithKey(r[1..], k) == WithKey(s[1..], k) {
        assert WithKey(r, k) == WithKey(s, k);
        WithKeyRest(r, k);
        WithKeyRest(s, k);
      }
      StableSortUnique(r[1..], s[1..]);
      assert r == [r[0]] + r[1..] && s == [s[0]] + s[1..];
    }
  }

  lemma FirstKeysAgree(r: seq<Entry>, s: seq<Entry>)
    requires Sorted(r) && Sorted(s) && r != [] && s != [] && forall k :: WithKey(r, k) == WithKey(s, k)
    ensures KeyBytes(r[0]) == KeyBytes(s[0])
  {
    WithKeyMember(r, KeyBytes(r[0]), r[0]);
    WithKeyMember(s, KeyBytes(r[0]), r[0]);
    WithKeyMember(s, KeyBytes(s[0]), s[0]);
    WithKeyMember(r, KeyBytes(s[0]), s[0]);
    var i :| 0 <= i < |s| && s[i] == r[0];
    var j :| 0 <= j < |r| && r[j] == s[0];
    LessTrichotomy(KeyBytes(r[0]), KeyBytes(s[0]));
  }

  /** Stable sort by insertion: a new first entry goes in front of every equal or greater key. */
  function Insert(e: Entry, es: seq<Entry>): seq<Entry> {
    if es != [] && Less(KeyBytes(es[0]), KeyBytes(e)) then [es[0]] + Insert(e, es[1..]) else [e] + es
  }

  /** The entries of `canonMap(es)`. */
  function Canon(es: seq<Entry>): seq<Entry> {
    if es == [] then [] else Insert(es[0], Canon(es[1..]))
  }

  lemma SortedCons(e: Entry, es: seq<Entry>)
    requires Sorted(es) && forall x | x in es :: !Less(KeyBytes(x), KeyBytes(e))
    ensures Sorted([e] + es)
  {
    hide Less, KeyBytes;
  }

  lemma {:induction false} InsertKeepsOrder(e: Entry, es: seq<Entry>)
    requires Sorted(es)
    ensures Sorted(Insert(e, es)) && |Insert(e, es)| == |es| + 1
    ensures forall x | x in Insert(e, es) :: x == e || x in es
  {
    hide Less, KeyBytes;
    if es != [] && Less(KeyBytes(es[0]), KeyBytes(e)) {
      InsertKeepsOrder(e, es[1..]);
      LessTrichotomy(KeyBytes(es[0]), KeyBytes(e));
      forall x | x in Insert(e, es[1..]) ensures !Less(KeyBytes(x), KeyBytes(es[0])) {
      }
      SortedCons(es[0], Insert(e, es[1..]));
    } else {
      forall x | x in es ensures !Less(KeyBytes(x), KeyBytes(e)) {
        LessTrichotomy(KeyBytes(x), KeyBytes(x));
        NotLessTransitive(KeyBytes(e), KeyBytes(es[0]), KeyBytes(x));
      }
      SortedCons(e, es);
    }
  }

  lemma {:induction false} InsertKeepsKeys(e: Entry, es: seq<Entry>, k: seq<byte>)
    ensures WithKey(Insert(e, es), k) == WithKey([e], k) + WithKey(es, k)
  {
    if es != [] && Less(KeyBytes(es[0]), KeyBytes(e)) {
      LessTrichotomy(KeyBytes(es[0]), KeyBytes(e));
      InsertKeepsKeys(e, es[1..], k);
      WithKeyConcat([es[0]], Insert(e, es[1..]), k);
      WithKeyConcat([es[0]], es[1..], k);
      assert es == [es[0]] + es[1..];
    } else {
      WithKeyConcat([e], es, k);
    }
  }

  lemma {:induction false} CanonStablySorts(es: seq<Entry>)
    ensures StablySorted(es, Canon(es)) && |Canon(es)| == |es|
    ensures forall e :: e in Canon(es) <==> e in es
  {
    if es != [] {
      CanonStablySorts(es[1..]);
      InsertKeepsOrder(es[0], Canon(es[1..]));
      forall k ensures WithKey(Canon(es), k) == WithKey(es, k) {
        InsertKeepsKeys(es[0], Canon(es[1..]), k);
        WithKeyConcat([es[0]], es[1..], k);
        assert es == [es[0]] + es[1..];
      }
    }
    forall e ensures e in Canon(es) <==> e in es {
      WithKeyMember(es, KeyBytes(e), e);
      WithKeyMember(Canon(es), KeyBytes(e), e);
    }
  }

  // ---- main results ------------------------------------------------------------------------------

  predicate DistinctKeys(es: seq<Entry>) {
    forall i, j :: 0 <= i < j < |es| ==> KeyBytes(es[i]) != KeyBytes(es[j])
  }

  lemma {:induction false} AtMostOneWithKey(es: seq<Entry>, k: seq<byte>)
    requires DistinctKeys(es)
    ensures |WithKey(es, k)| <= 1
  {
    if es != [] {
      AtMostOneWithKey(es[1..], k);
      if KeyBytes(es[0]) == k && WithKey(es[1..], k) != [] {
        WithKeyMember(es[1..], k, WithKey(es[1..], k)[0]);
      }
    }
  }

  /** The order in which an envelope's fields are listed does not show in its map. */
  lemma {:induction false} OrderDoesNotMatter(es: seq<Entry>, fs: seq<Entry>)
    requires DistinctKeys(es) && DistinctKeys(fs) && multiset(es) == multiset(fs)
    ensures Canon(es) == Canon(fs) && Encode(CMap(Canon(es))) == Encode(CMap(Canon(fs)))
  {
    hide Insert, Canon, Less, Encode, DistinctKeys;
    CanonStablySorts(es);
    CanonStablySorts(fs);
    forall k ensures WithKey(es, k) == WithKey(fs, k) {
      AtMostOneWithKey(es, k);
      AtMostOneWithKey(fs, k);
      forall e ensures e in WithKey(es, k) <==> e in WithKey(fs, k) {
        WithKeyMember(es, k, e);
        WithKeyMember(fs, k, e);
        assert e in es <==> e in multiset(es);
        assert e in fs <==> e in multiset(fs);
      }
      if WithKey(es, k) != [] { assert WithKey(es, k)[0] in WithKey(fs, k); }
      if WithKey(fs, k) != [] { assert WithKey(fs, k)[0] in WithKey(es, k); }
    }
    StableSortUnique(Canon(es), Canon(fs));
  }

  /** The value of the first entry whose key is the text `key`: `mapGet` on a map. */
  function Lookup(es: seq<Entry>, key: seq<byte>): Option<Value> {
    if es == [] then None
    else if es[0].key == CText(key) then Some(es[0].val)
    else Lookup(es[1..], key)
  }

  /** A text key is the only key with its encoding. */
  lemma TextKeyIsItsBytes(v: Value, key: seq<byte>)
    requires InMemory(v) && |key| <= MAX_INT64
    ensures Encode(v) == Encode(CText(key)) <==> v == CText(key)
  {
    hide Encode;
    if Encode(v) == Encode(CText(key)) {
      EncodeInjective(v, CText(key));
    }
  }

  /** Looking a text key up means taking the first entry with its encoded key. */
  lemma {:induction false} LookupByBytes(es: seq<Entry>, key: seq<byte>)
    requires (forall e | e in es :: EntryInMemory(e)) && |key| <= MAX_INT64
    ensures var found := WithKey(es, Encode(CText(key)));
            Lookup(es, key) == if found == [] then None else Some(found[0].val)
  {
    hide Encode;
    if es != [] {
      assert es[0] in es && EntryInMemory(es[0]);
      TextKeyIsItsBytes(es[0].key, key);
      LookupByBytes(es[1..], key);
    }
  }

  /** Sorting never changes what a text key looks up, even when keys repeat. */
  lemma {:induction false} SortingKeepsLookups(es: seq<Entry>, key: seq<byte>)
    requires (forall e | e in es :: EntryInMemory(e)) && |key| <= MAX_INT64
    ensures Lookup(Canon(es), key) == Lookup(es, key)
  {
    hide Encode, Insert, Canon;
    CanonStablySorts(es);
    LookupByBytes(es, key);
    LookupByBytes(Canon(es), key);
  }

  // ---- the sort as it runs ---------------------------------------------------------------------------

  lemma SwapKeepsKeys(s: seq<Entry>, j: nat, k: seq<byte>)
    requires 0 < j < |s| && KeyBytes(s[j - 1]) != KeyBytes(s[j])
    ensures WithKey(s[j - 1 := s[j]][j := s[j - 1]], k) == WithKey(s, k)
  {
    var x, y := s[j - 1], s[j];
    var front, back := s[..j - 1], s[j + 1..];
    assert s == front + ([x, y] + back);
    assert s[j - 1 := y][j := x] == front + ([y, x] + back);
    WithKeyConcat(front, [x, y] + back, k);
    WithKeyConcat(front, [y, x] + back, k);
    WithKeyConcat([x, y], back, k);
    WithKeyConcat([y, x], back, k);
    assert [x, y][1..] == [y] && [y, x][1..] == [x];
  }

  /** Sorts a copy in place, moving each entry down past strictly greater keys. */
  method CanonicalMap(entries: seq<Entry>) returns (m: Value)
    ensures m == CMap(Canon(entries))
  {
    hide Encode, Insert, Canon, Less;
    var sorted := new Entry[|entries|](i requires 0 <= i < |entries| => entries[i]);
    assert sorted[..] == entries;
    for i := 0 to sorted.Length
      invariant forall p, q :: 0 <= p < q < i ==> !Less(KeyBytes(sorted[q]), KeyBytes(sorted[p]))
      invariant forall k :: WithKey(sorted[..], k) == WithKey(entries, k)
    {
      var j := i;
      while j > 0 && Less(KeyBytes(sorted[j]), KeyBytes(sorted[j - 1]))
        invariant 0 <= j <= i
        invariant forall p, q :: 0 <= p < q <= i && q != j ==> !Less(KeyBytes(sorted[q]), KeyBytes(sorted[p]))
        invariant forall k :: WithKey(sorted[..], k) == WithKey(entries, k)
      {
        LessTrichotomy(KeyBytes(sorted[j]), KeyBytes(sorted[j - 1]));
        ghost var before := sorted[..];
        sorted[j], sorted[j - 1] := sorted[j - 1], sorted[j];
        assert sorted[..] == before[j - 1 := before[j]][j := before[j - 1]];
        forall k ensures WithKey(sorted[..], k) == WithKey(entries, k) {
          SwapKeepsKeys(before, j, k);
        }
        j := j - 1;
      }
      forall p | 0 <= p < j ensures !Less(KeyBytes(sorted[j]), KeyBytes(sorted[p])) {
        if p < j - 1 {
          NotLessTransitive(KeyBytes(sorted[p]), KeyBytes(sorted[j - 1]), KeyBytes(sorted[j]));
        }
      }
    }
    CanonStablySorts(entries);
    StableSortUnique(sorted[..], Canon(entries));
    m := CMap(sorted[..]);
  }
}
