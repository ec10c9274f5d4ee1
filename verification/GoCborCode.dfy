/** The Go codec as it runs: appending through a buffer pointer and reading with a moving
    offset. Each method is proved equal to its function in GoCbor. */
module GoCborCode {
  import opened Bytes
  import opened GoCbor
  import Utf8
  import S = CborSyntax

  /** The byte slice behind the `*[]byte` that encoding appends to. */
  class Buffer {
    var data: seq<byte>

    constructor ()
      ensures data == []
    {
      data := [];
    }

    method Append(bytes: seq<byte>)
      modifies this
      ensures data == old(data) + bytes
    {
      data := data + bytes;
    }
  }

  method WriteHead(buf: Buffer, major: byte, n: u64)
    requires major < 8
    modifies buf
    ensures buf.data == old(buf.data) + ShortestHead(major, n)
  {
    var mt := 32 * major;
    if n < 24 {
      buf.Append([mt + n]);
    } else if n < 0x100 {
      buf.Append([mt + 24, n]);
      assert BigEndian(n, 1) == [n];
    } else if n < 0x1_0000 {
      buf.Append([mt + 25, n / 0x100, n % 0x100]);
      assert BigEndian(n, 2) == [n / 0x100, n % 0x100];
    } else if n < 0x1_0000_0000 {
      buf.Append([mt + 26] + Split(n / 0x1_0000) + Split(n % 0x1_0000));
      FourBytes(n);
    } else {
      var hi, lo := n / 0x1_0000_0000, n % 0x1_0000_0000;
      buf.Append([mt + 27] + (Split(hi / 0x1_0000) + Split(hi % 0x1_0000))
                           + (Split(lo / 0x1_0000) + Split(lo % 0x1_0000)));
      FourBytes(hi);
      FourBytes(lo);
      EightBytes(n);
    }
  }

  /** The two bytes of a 16-bit value. */
  function Split(n: nat): seq<byte>
    requires n < 0x1_0000
  {
    [n / 0x100, n % 0x100]
  }

  lemma FourBytes(n: nat)
    requires n < 0x1_0000_0000
    ensures BigEndian(n, 4) == Split(n / 0x1_0000) + Split(n % 0x1_0000)
  {
    var h := n / 0x1_0000;
    assert n / 0x100 / 0x100 == h && n / 0x100 % 0x100 == n % 0x1_0000 / 0x100;
    assert BigEndian(h, 2) == Split(h);
    assert BigEndian(n, 4) == BigEndian(h, 2) + [n / 0x100 % 0x100] + [n % 0x100];
  }

  lemma EightBytes(n: nat)
    ensures BigEndian(n, 8) == BigEndian(n / 0x1_0000_0000, 4) + BigEndian(n % 0x1_0000_0000, 4)
  {
    BigEndianConcat(n / 0x1_0000_0000, n % 0x1_0000_0000, 4);
  }

  lemma {:induction false} BigEndianConcat(hi: nat, lo: nat, k: nat)
    requires lo < Pow256(k)
    ensures BigEndian(hi * Pow256(k) + lo, 4 + k) == BigEndian(hi, 4) + BigEndian(lo, k)
  {
    if k > 0 {
      var n := hi * Pow256(k) + lo;
      var q := hi * Pow256(k - 1);
      assert n == 256 * q + lo;
      BigEndianConcat(hi, lo / 256, k - 1);
      assert n / 256 == q + lo / 256 && n % 256 == lo % 256;
    }
  }

  method EncodeInto(buf: Buffer, v: Value)
    requires InMemory(v)
    modifies buf
    ensures buf.data == old(buf.data) + Encode(v)
  {
    hide ShortestHead, EncodeAll, EncodeEntries;
    match v {
      case CUint(n) => WriteHead(buf, 0, n);
      case CInt(i) => if i >= 0 { WriteHead(buf, 0, i); } else { WriteHead(buf, 1, -1 - i); }
      case CText(s) =>
        WriteHead(buf, 3, |s|);
        buf.Append(s);
      case CBytes(b) =>
        WriteHead(buf, 2, |b|);
        buf.Append(b);
      case CArray(items) =>
        WriteHead(buf, 4, |items|);
        EncodeItemsInto(buf, items);
      case CMap(entries) =>
        WriteHead(buf, 5, |entries|);
        EncodeEntriesInto(buf, entries);
      case CTag(num, content) =>
        WriteHead(buf, 6, num);
        EncodeInto(buf, content);
    }
  }

  method EncodeItemsInto(buf: Buffer, items: seq<Value>)
    requires forall x | x in items :: InMemory(x)
    modifies buf
    ensures buf.data == old(buf.data) + EncodeAll(items)
  {
    hide Encode, InMemory;
    for i := 0 to |items|
      invariant buf.data + EncodeAll(items[i..]) == old(buf.data) + EncodeAll(items)
    {
      EncodeInto(buf, items[i]);
      assert items[i..][1..] == items[i + 1..];
    }
  }

  method EncodeEntriesInto(buf: Buffer, entries: seq<Entry>)
    requires forall e | e in entries :: EntryInMemory(e)
    modifies buf
    ensures buf.data == old(buf.data) + EncodeEntries(entries)
  {
    hide Encode, EntryInMemory;
    for i := 0 to |entries|
      invariant buf.data + EncodeEntries(entries[i..]) == old(buf.data) + EncodeEntries(entries)
    {
      EncodeEntryInto(buf, entries[i]);
      assert entries[i..][1..] == entries[i + 1..];
    }
  }

  method EncodeEntryInto(buf: Buffer, e: Entry)
    requires EntryInMemory(e)
    modifies buf
    ensures buf.data == old(buf.data) + EncodeEntry(e)
  {
    EncodeInto(buf, e.key);
    EncodeInto(buf, e.val);
  }

  method EncodeValue(v: Value) returns (bytes: seq<byte>)
    requires InMemory(v)
    ensures bytes == Encode(v)
  {
    var buf := new Buffer();
    EncodeInto(buf, v);
    bytes := buf.data;
  }

  method DecodeEnvelopeBytes(b: seq<byte>) returns (r: Result<Value, DecodeError>)
    ensures r == DecodeEnvelope(b)
  {
    var item := DecodeValueDepth(b, 0);
    if item.Err? {
      return Err(item.error);
    }
    if item.value.used != |b| {
      return Err(TrailingBytes);
    }
    return Ok(item.value.value);
  }

  method DecodeValueDepth(b: seq<byte>, depth: nat) returns (r: Result<Item, DecodeError>)
    ensures r == Decode(b, depth)
    decreases |b|, 0
  {
    hide DecodeItems, ReadArg, Paired, Utf8.Valid;
    if depth > MAX_DEPTH {
      return Err(NestingLimit);
    }
    if |b| == 0 {
      return Err(EmptyInput);
    }
    var major, low := b[0] / 32, b[0] % 32;
    var head := ReadArgBytes(b, low);
    if head.Err? {
      return Err(head.error);
    }
    var (arg, n) := head.value;
    if major == 0 {
      return Ok(Item(CUint(arg), n));
    } else if major == 1 {
      if arg > MAX_INT64 {
        return Err(NegativeOutOfRange);
      }
      return Ok(Item(CInt(-1 - arg), n));
    } else if major == 2 {
      if arg > |b| - n {
        return Err(TruncatedBytes);
      }
      return Ok(Item(CBytes(b[n..n + arg]), n + arg));
    } else if major == 3 {
      if arg > |b| - n {
        return Err(TruncatedText);
      }
      if !Utf8.Valid(b[n..n + arg]) {
        return Err(InvalidUtf8);
      }
      return Ok(Item(CText(b[n..n + arg]), n + arg));
    } else if major == 4 {
      if arg > |b| - n {
        return Err(ArrayTooLong);
      }
      var items := DecodeElements(b[n..], arg, depth + 1);
      if items.Err? {
        return Err(items.error);
      }
      return Ok(Item(CArray(items.value.0), n + items.value.1));
    } else if major == 5 {
      if arg > |b| - n {
        return Err(MapTooLong);
      }
      var entries := DecodeMapEntries(b[n..], arg, depth + 1);
      if entries.Err? {
        return Err(entries.error);
      }
      return Ok(Item(CMap(entries.value.0), n + entries.value.1));
    } else if major == 6 {
      var content := DecodeValueDepth(b[n..], depth + 1);
      if content.Err? {
        return Err(content.error);
      }
      return Ok(Item(CTag(arg, content.value.value), n + content.value.used));
    } else {
      return Err(UnsupportedMajor);
    }
  }

  /** The element loop of an array. */
  method DecodeElements(b: seq<byte>, arg: nat, depth: nat) returns (r: Result<(seq<Value>, nat), DecodeError>)
    ensures r == match DecodeItems(b, arg, depth)
                 case Ok(items) => Ok((items.values, items.used))
                 case Err(e) => Err(e)
    decreases |b|, 1
  {
    hide Decode, DecodeItems;
    var items: seq<Value> := [];
    var off: nat := 0;
    AfterNothing(DecodeItems(b, arg, depth));
    for i := 0 to arg
      invariant off <= |b| && |items| == i
      invariant DecodeItems(b, arg, depth) == After(items, off, DecodeItems(b[off..], arg - i, depth))
    {
      var item := DecodeValueDepth(b[off..], depth);
      OneMore(items, off, b[off..], arg - i, depth);
      if item.Err? {
        return Err(item.error);
      }
      items := items + [item.value.value];
      off := off + item.value.used;
    }
    NothingLeft(items, off, b[off..], depth);
    return Ok((items, off));
  }

  /** The entry loop of a map: a key, then its value, `arg` times. */
  method DecodeMapEntries(b: seq<byte>, arg: nat, depth: nat) returns (r: Result<(seq<Entry>, nat), DecodeError>)
    ensures r == match DecodeItems(b, 2 * arg, depth)
                 case Ok(items) => Ok((Paired(items.values), items.used))
                 case Err(e) => Err(e)
    decreases |b|, 1
  {
    hide Decode, DecodeItems, After;
    var entries: seq<Entry> := [];
    ghost var items: seq<Value> := [];
    var off: nat := 0;
    AfterNothing(DecodeItems(b, 2 * arg, depth));
    for i := 0 to arg
      invariant off <= |b| && |items| == 2 * i && entries == Paired(items)
      invariant DecodeItems(b, 2 * arg, depth) == After(items, off, DecodeItems(b[off..], 2 * (arg - i), depth))
    {
      var k := DecodeValueDepth(b[off..], depth);
      OneMore(items, off, b[off..], 2 * (arg - i), depth);
      if k.Err? {
        return Err(k.error);
      }
      off := off + k.value.used;
      var v := DecodeValueDepth(b[off..], depth);
      OneMore(items + [k.value.value], off, b[off..], 2 * (arg - i) - 1, depth);
      if v.Err? {
        return Err(v.error);
      }
      off := off + v.value.used;
      PairedAppend(items, k.value.value, v.value.value);
      assert 2 * (arg - i) - 1 - 1 == 2 * (arg - (i + 1));
      entries := entries + [Entry(k.value.value, v.value.value)];
      items := items + [k.value.value] + [v.value.value];
    }
    NothingLeft(items, off, b[off..], depth);
    return Ok((entries, off));
  }

  /** Items already read in front of the result for the rest. */
  ghost function After(items: seq<Value>, used: nat, r: Result<Items, DecodeError>): Result<Items, DecodeError> {
    match r
    case Ok(rest) => Ok(Items(items + rest.values, used + rest.used))
    case Err(e) => Err(e)
  }

  lemma AfterNothing(r: Result<Items, DecodeError>)
    ensures After([], 0, r) == r
  {
    if r.Ok? {
      assert [] + r.value.values == r.value.values;
    }
  }

  lemma NothingLeft(items: seq<Value>, used: nat, b: seq<byte>, depth: nat)
    ensures After(items, used, DecodeItems(b, 0, depth)) == Ok(Items(items, used))
  {
    assert items + [] == items;
  }

  lemma OneMore(items: seq<Value>, used: nat, b: seq<byte>, count: nat, depth: nat)
    requires count > 0
    ensures Decode(b, depth).Err? ==> After(items, used, DecodeItems(b, count, depth)) == Err(Decode(b, depth).error)
    ensures Decode(b, depth).Ok? ==>
      var item := Decode(b, depth).value;
      After(items, used, DecodeItems(b, count, depth))
        == After(items + [item.value], used + item.used, DecodeItems(b[item.used..], count - 1, depth))
  {
    hide Decode;
    if Decode(b, depth).Ok? {
      var item := Decode(b, depth).value;
      var rest := DecodeItems(b[item.used..], count - 1, depth);
      if rest.Ok? {
        assert items + ([item.value] + rest.value.values) == items + [item.value] + rest.value.values;
      }
    }
  }

  lemma {:induction false} PairedAppend(vs: seq<Value>, k: Value, v: Value)
    requires |vs| % 2 == 0
    ensures Paired(vs + [k] + [v]) == Paired(vs) + [Entry(k, v)]
  {
    if vs == [] {
      assert vs + [k] + [v] == [k, v];
    } else {
      PairedAppend(vs[2..], k, v);
      assert (vs + [k] + [v])[2..] == vs[2..] + [k] + [v];
    }
  }

  method ReadArgBytes(b: seq<byte>, low: byte) returns (r: Result<(u64, nat), DecodeError>)
    requires b != [] && low < 32
    ensures r == ReadArg(b, low)
  {
    if low < 24 {
      return Ok((low, 1));
    } else if low == 24 {
      if |b| < 2 { return Err(TruncatedArgument); }
      BigEndianOf(b[1..2]);
      return Ok((b[1], 2));
    } else if low == 25 {
      if |b| < 3 { return Err(TruncatedArgument); }
      BigEndianOf(b[1..3]);
      return Ok((0x100 * (b[1] as int) + b[2], 3));
    } else if low == 26 {
      if |b| < 5 { return Err(TruncatedArgument); }
      BigEndianOf(b[1..5]);
      return Ok((0x100_0000 * (b[1] as int) + 0x1_0000 * (b[2] as int) + 0x100 * (b[3] as int) + b[4], 5));
    } else if low == 27 {
      if |b| < 9 { return Err(TruncatedArgument); }
      var v: nat := 0;
      for i := 1 to 9
        invariant v == FromBigEndian(b[1..i]) && v < Pow256(i - 1)
      {
        v := v * 256 + b[i];
        assert b[1..i + 1][..i - 1] == b[1..i];
      }
      S.LimitIsPower(S.Eight);
      return Ok((v, 9));
    } else {
      return Err(ReservedInfo);
    }
  }

  /** The value of one, two or four argument bytes, spelled out. */
  lemma {:induction false} BigEndianOf(b: seq<byte>)
    ensures |b| == 1 ==> FromBigEndian(b) == b[0]
    ensures |b| == 2 ==> FromBigEndian(b) == 0x100 * (b[0] as int) + b[1]
    ensures |b| == 3 ==> FromBigEndian(b) == b[0] * 0x1_0000 + 0x100 * (b[1] as int) + b[2]
    ensures |b| == 4 ==>
              FromBigEndian(b) == 0x100_0000 * (b[0] as int) + 0x1_0000 * (b[1] as int) + 0x100 * (b[2] as int) + b[3]
  {
    if 2 <= |b| <= 4 {
      BigEndianOf(b[..|b| - 1]);
    }
  }
}
