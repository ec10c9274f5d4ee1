/** The Rust `Decoder` as it runs: a moving `offset` over fixed `bytes`. Each method is proved
    equal to its function in RustCbor, including where an error is reported. */
module RustCborCode {
  import opened Bytes
  import opened RustCbor
  import Utf8
  import S = CborSyntax

  /** A method that started a read described by `spec` returned `r` and stands at `offset`. */
  predicate Follows<T(==)>(spec: Result<Read<T>, CborError>, r: Result<T, CborError>, offset: nat) {
    match spec
    case Ok(read) => r == Ok(read.value) && offset == read.next
    case Err(e) => r == Err(e)
  }

  method DecodeBytes(bytes: seq<byte>) returns (r: Result<Spanned, CborError>)
    ensures r == Decode(bytes)
  {
    var decoder := new Decoder(bytes);
    var value := decoder.ReadValue(0);
    if value.Err? {
      return Err(value.error);
    }
    if decoder.offset != |bytes| {
      return Err(CborError(decoder.offset, TrailingBytes));
    }
    return Ok(value.value);
  }

  class Decoder {
    const bytes: seq<byte>
    var offset: nat

    constructor (bytes: seq<byte>)
      ensures this.bytes == bytes && offset == 0
    {
      this.bytes := bytes;
      offset := 0;
    }

    predicate Valid()
      reads this
    {
      offset <= |bytes|
    }

    method ReadByte() returns (r: Result<byte, CborError>)
      requires Valid()
      modifies this
      ensures Valid() && Follows(Byte(bytes, old(offset)), r, offset)
    {
      if offset == |bytes| {
        return Err(CborError(offset, Truncated));
      }
      r := Ok(bytes[offset]);
      offset := offset + 1;
    }

    method TakeBytes(length: nat) returns (r: Result<seq<byte>, CborError>)
      requires Valid()
      modifies this
      ensures Valid() && Follows(Take(bytes, old(offset), length), r, offset)
    {
      if offset + length >= 0x1_0000_0000_0000_0000 && offset + length > |bytes| {
        return Err(CborError(offset, LengthOverflowsOffset));
      }
      if offset + length > |bytes| {
        return Err(CborError(offset, LengthTooLarge));
      }
      r := Ok(bytes[offset..offset + length]);
      offset := offset + length;
    }

    method ReadArgument(additional: nat) returns (r: Result<u64, CborError>)
      requires Valid() && additional < 32
      modifies this
      ensures Valid() && Follows(Argument(bytes, old(offset), additional), r, offset)
    {
      hide FromBigEndian, BigEndian, Pow256;
      if additional <= 23 {
        return Ok(additional);
      } else if additional == 24 {
        var x := ReadByte();
        if x.Err? { return Err(x.error); }
        return Ok(x.value);
      } else if additional <= 27 {
        var arg := TakeBytes(if additional == 25 then 2 else if additional == 26 then 4 else 8);
        if arg.Err? { return Err(arg.error); }
        FromBigEndianRoundTrip(arg.value);
        S.LimitIsPower(S.WidthOf(additional).value);
        return Ok(FromBigEndian(arg.value));
      } else if additional == 31 {
        return Err(CborError(offset, IndefiniteNotValidHere));
      } else {
        return Err(CborError(offset, ReservedInfo));
      }
    }

    method ReadLength(additional: nat) returns (r: Result<Option<nat>, CborError>)
      requires Valid() && additional < 32
      modifies this
      ensures Valid() && Follows(Length(bytes, old(offset), additional), r, offset)
      ensures r.Ok? ==> offset >= old(offset)
    {
      if additional == 31 {
        return Ok(None);
      }
      var value := ReadArgument(additional);
      if value.Err? { return Err(value.error); }
      return Ok(Some(value.value));
    }

    method ReadByteString(additional: nat) returns (r: Result<seq<byte>, CborError>)
      requires Valid() && additional < 32
      modifies this
      ensures Valid() && Follows(String(bytes, old(offset), 2, additional), r, offset)
    {
      var length := ReadLength(additional);
      if length.Err? { return Err(length.error); }
      if length.value.Some? {
        r := TakeBytes(length.value.value);
        return r;
      }
      r := ReadChunks(2);
    }

    method ReadTextString(additional: nat) returns (r: Result<seq<byte>, CborError>)
      requires Valid() && additional < 32
      modifies this
      ensures Valid() && Follows(String(bytes, old(offset), 3, additional), r, offset)
    {
      var length := ReadLength(additional);
      if length.Err? { return Err(length.error); }
      if length.value.Some? {
        var start := offset;
        r := TakeBytes(length.value.value);
        if r.Ok? && !Utf8.Valid(r.value) {
          return Err(CborError(start, InvalidUtf8));
        }
        return r;
      }
      r := ReadChunks(3);
    }

    /** The chunk loop of an indefinite string; its depth check can never fire, because
        `ReadValue` has already refused that depth. */
    method ReadChunks(major: nat) returns (r: Result<seq<byte>, CborError>)
      requires Valid() && major in {2, 3}
      modifies this
      ensures Valid() && Follows(Chunks(bytes, old(offset), major), r, offset)
    {
      hide Argument, Utf8.Valid;
      var output: seq<byte> := [];
      AfterNothing(Chunks(bytes, offset, major));
      while true
        invariant Valid()
        invariant Chunks(bytes, old(offset), major) == After(output, Chunks(bytes, offset, major))
        decreases |bytes| - offset
      {
        if offset == |bytes| {
          return Err(CborError(offset, TruncatedIndefinite));
        }
        if bytes[offset] == S.BREAK {
          offset := offset + 1;
          break;
        }
        var initial := ReadByte();
        if initial.value / 32 != major || initial.value % 32 == 31 {
          return Err(CborError(offset, BadChunk));
        }
        var length := ReadArgument(initial.value % 32);
        if length.Err? { return Err(length.error); }
        var start := offset;
        var chunk := TakeBytes(length.value);
        if chunk.Err? { return Err(chunk.error); }
        if major == 3 && !Utf8.Valid(chunk.value) {
          return Err(CborError(start, InvalidUtf8));
        }
        AfterMore(output, chunk.value, Chunks(bytes, offset, major));
        output := output + chunk.value;
      }
      assert output + [] == output;
      return Ok(output);
    }

    method ReadArray(additional: nat, depth: nat) returns (r: Result<seq<Spanned>, CborError>)
      requires Valid() && additional < 32
      modifies this
      ensures Valid() && Follows(ArrayItems(bytes, old(offset), additional, depth), r, offset)
      decreases |bytes| - offset, 2
    {
      hide Value, Counted, UntilBreak, Length;
      var length := ReadLength(additional);
      if length.Err? { return Err(length.error); }
      ghost var start := offset;
      var values: seq<Spanned> := [];
      match length.value {
        case Some(n) =>
          if n > |bytes| - offset {
            return Err(CborError(offset, ArrayTooLong));
          }
          AfterNothing(Counted(bytes, start, n, depth + 1));
          for i := 0 to n
            invariant Valid() && offset >= start
            invariant Counted(bytes, start, n, depth + 1) == After(values, Counted(bytes, offset, n - i, depth + 1))
          {
            OneMoreCounted(values, bytes, offset, n - i, depth + 1);
            var value := ReadValue(depth + 1);
            if value.Err? { return Err(value.error); }
            values := values + [value.value];
          }
          NoneLeft(values, bytes, offset, depth + 1);
        case None =>
          AfterNothing(UntilBreak(bytes, start, depth + 1));
          while true
            invariant Valid() && offset >= start
            invariant UntilBreak(bytes, start, depth + 1) == After(values, UntilBreak(bytes, offset, depth + 1))
            decreases |bytes| - offset
          {
            OneMoreUntilBreak(values, bytes, offset, depth + 1);
            if offset == |bytes| {
              return Err(CborError(offset, TruncatedIndefinite));
            }
            if bytes[offset] == S.BREAK {
              offset := offset + 1;
              break;
            }
            var value := ReadValue(depth + 1);
            if value.Err? { return Err(value.error); }
            values := values + [value.value];
          }
      }
      return Ok(values);
    }

    method ReadMap(additional: nat, depth: nat) returns (r: Result<seq<SpannedEntry>, CborError>)
      requires Valid() && additional < 32
      modifies this
      ensures Valid()
      ensures match MapItems(bytes, old(offset), additional, depth)
              case Ok(read) => r == Ok(PairUp(read.value)) && offset == read.next
              case Err(e) => r == Err(e)
      decreases |bytes| - offset, 2
    {
      hide Value, Counted, UntilBreak, Length, PairUp;
      var length := ReadLength(additional);
      if length.Err? { return Err(length.error); }
      match length.value {
        case Some(n) =>
          if n > (|bytes| - offset) / 2 {
            return Err(CborError(offset, MapTooLong));
          }
          r := ReadCountedEntries(n, depth + 1);
        case None =>
          r := ReadEntriesUntilBreak(depth + 1);
      }
    }

    method ReadCountedEntries(n: nat, depth: nat) returns (r: Result<seq<SpannedEntry>, CborError>)
      requires Valid()
      modifies this
      ensures Valid()
      ensures match Counted(bytes, old(offset), 2 * n, depth)
              case Ok(read) => r == Ok(PairUp(read.value)) && offset == read.next
              case Err(e) => r == Err(e)
      decreases |bytes| - offset, 1
    {
      hide Value, Counted, PairUp;
      var entries: seq<SpannedEntry> := [];
      ghost var items: seq<Spanned> := [];
      AfterNothing(Counted(bytes, offset, 2 * n, depth));
      PairedNothing();
      for i := 0 to n
        invariant Valid() && offset >= old(offset) && |items| == 2 * i && entries == PairUp(items)
        invariant Counted(bytes, old(offset), 2 * n, depth) == After(items, Counted(bytes, offset, 2 * (n - i), depth))
      {
        OneMoreCounted(items, bytes, offset, 2 * (n - i), depth);
        var key := ReadValue(depth);
        if key.Err? { return Err(key.error); }
        OneMoreCounted(items + [key.value], bytes, offset, 2 * (n - i) - 1, depth);
        var value := ReadValue(depth);
        if value.Err? { return Err(value.error); }
        PairedMore(items, key.value, value.value);
        entries := entries + [SpannedEntry(key.value, value.value)];
        items := items + [key.value] + [value.value];
        assert 2 * (n - i) - 1 - 1 == 2 * (n - (i + 1));
      }
      NoneLeft(items, bytes, offset, depth);
      return Ok(entries);
    }

    method ReadEntriesUntilBreak(depth: nat) returns (r: Result<seq<SpannedEntry>, CborError>)
      requires Valid()
      modifies this
      ensures Valid()
      ensures match UntilBreak(bytes, old(offset), depth)
              case Ok(read) =>
                if |read.value| % 2 == 1 then r == Err(CborError(read.next - 1, KeyWithoutValue))
                else r == Ok(PairUp(read.value)) && offset == read.next
              case Err(e) => r == Err(e)
      decreases |bytes| - offset, 1
    {
      hide Value, UntilBreak, PairUp;
      var entries: seq<SpannedEntry> := [];
      ghost var items: seq<Spanned> := [];
      AfterNothing(UntilBreak(bytes, offset, depth));
      PairedNothing();
      while true
        invariant Valid() && offset >= old(offset) && |items| % 2 == 0 && entries == PairUp(items)
        invariant UntilBreak(bytes, old(offset), depth) == After(items, UntilBreak(bytes, offset, depth))
        decreases |bytes| - offset
      {
        OneMoreUntilBreak(items, bytes, offset, depth);
        if offset == |bytes| {
          return Err(CborError(offset, TruncatedIndefinite));
        }
        if bytes[offset] == S.BREAK {
          offset := offset + 1;
          break;
        }
        var key := ReadValue(depth);
        if key.Err? { return Err(key.error); }
        OneMoreUntilBreak(items + [key.value], bytes, offset, depth);
        if offset == |bytes| {
          return Err(CborError(offset, TruncatedIndefinite));
        }
        if bytes[offset] == S.BREAK {
          return Err(CborError(offset, KeyWithoutValue));
        }
        var value := ReadValue(depth);
        if value.Err? { return Err(value.error); }
        PairedMore(items, key.value, value.value);
        entries := entries + [SpannedEntry(key.value, value.value)];
        items := items + [key.value] + [value.value];
      }
      return Ok(entries);
    }

    method ReadSimple(additional: nat) returns (r: Result<Diagnostic, CborError>)
      requires Valid() && additional < 32
      modifies this
      ensures Valid() && Follows(SimpleValue(bytes, old(offset), additional), r, offset)
    {
      if additional <= 19 {
        return Ok(Simple(additional));
      } else if additional == 20 {
        return Ok(Bool(false));
      } else if additional == 21 {
        return Ok(Bool(true));
      } else if additional == 22 {
        return Ok(Null);
      } else if additional == 23 {
        return Ok(Undefined);
      } else if additional == 24 {
        var value := ReadByte();
        if value.Err? { return Err(value.error); }
        if value.value < 32 {
          return Err(CborError(offset, NonMinimalSimple));
        }
        return Ok(Simple(value.value));
      } else if additional <= 27 {
        var bits := ReadArgument(additional);
        if bits.Err? { return Err(bits.error); }
        var width := if additional == 25 then Sixteen else if additional == 26 then ThirtyTwo else SixtyFour;
        return Ok(Float(width, bits.value));
      } else if additional == 31 {
        return Err(CborError(offset, BreakOutside));
      } else {
        return Err(CborError(offset, ReservedSimple));
      }
    }

    /** Reads one item. Every caller passes `allow_break` as false, so only that case is here. */
    method ReadValue(depth: nat) returns (r: Result<Spanned, CborError>)
      requires Valid()
      modifies this
      ensures Valid() && Follows(Value(bytes, old(offset), depth), r, offset)
      decreases |bytes| - offset, 0
    {
      hide Argument, String, ArrayItems, MapItems, SimpleValue, SemanticTag;
      if depth > MAX_DEPTH {
        return Err(CborError(offset, NestingLimit));
      }
      var start := offset;
      var initial := ReadByte();
      if initial.Err? { return Err(initial.error); }
      if initial.value == S.BREAK {
        return Err(CborError(offset, BreakOutside));
      }
      var major, additional := initial.value / 32, initial.value % 32;
      var value: Diagnostic;
      match major {
        case 0 =>
          var arg := ReadArgument(additional);
          if arg.Err? { return Err(arg.error); }
          value := Integer(arg.value);
        case 1 =>
          var arg := ReadArgument(additional);
          if arg.Err? { return Err(arg.error); }
          value := Integer(-1 - arg.value as int);
        case 2 =>
          var data := ReadByteString(additional);
          if data.Err? { return Err(data.error); }
          value := Bytes(data.value);
        case 3 =>
          var data := ReadTextString(additional);
          if data.Err? { return Err(data.error); }
          value := Text(data.value);
        case 4 =>
          var items := ReadArray(additional, depth);
          if items.Err? { return Err(items.error); }
          value := Array(items.value);
        case 5 =>
          var entries := ReadMap(additional, depth);
          if entries.Err? { return Err(entries.error); }
          value := Map(entries.value);
        case 6 =>
          var tag := ReadArgument(additional);
          if tag.Err? { return Err(tag.error); }
          var inner := ReadValue(depth + 1);
          if inner.Err? { return Err(inner.error); }
          value := SemanticTag(tag.value, inner.value);
        case _ =>
          var simple := ReadSimple(additional);
          if simple.Err? { return Err(simple.error); }
          value := simple.value;
      }
      return Ok(Spanned(start, offset, value));
    }
  }

  /** What has been gathered so far in front of what is still to be read. */
  ghost function After<T>(done: seq<T>, rest: Result<Read<seq<T>>, CborError>): Result<Read<seq<T>>, CborError> {
    match rest
    case Ok(read) => Ok(Read(done + read.value, read.next))
    case Err(e) => Err(e)
  }

  lemma AfterNothing<T>(rest: Result<Read<seq<T>>, CborError>)
    ensures After([], rest) == rest
  {
    if rest.Ok? {
      assert [] + rest.value.value == rest.value.value;
    }
  }

  lemma AfterMore<T>(done: seq<T>, more: seq<T>, rest: Result<Read<seq<T>>, CborError>)
    ensures After(done, After(more, rest)) == After(done + more, rest)
  {
    if rest.Ok? {
      assert done + (more + rest.value.value) == done + more + rest.value.value;
    }
  }

  lemma OneMoreCounted(done: seq<Spanned>, b: seq<byte>, off: nat, count: nat, depth: nat)
    requires off <= |b| && count > 0
    ensures Value(b, off, depth).Err? ==> After(done, Counted(b, off, count, depth)) == Err(Value(b, off, depth).error)
    ensures Value(b, off, depth).Ok? ==>
              var read := Value(b, off, depth).value;
              After(done, Counted(b, off, count, depth))
                  == After(done + [read.value], Counted(b, read.next, count - 1, depth))
  {
    hide Value;
    var first := Value(b, off, depth);
    if first.Ok? {
      AfterMore(done, [first.value.value], Counted(b, first.value.next, count - 1, depth));
    }
  }

  lemma OneMoreUntilBreak(done: seq<Spanned>, b: seq<byte>, off: nat, depth: nat)
    requires off <= |b|
    ensures off == |b| ==> After(done, UntilBreak(b, off, depth)) == Err(CborError(off, TruncatedIndefinite))
    ensures off < |b| && b[off] == S.BREAK ==> After(done, UntilBreak(b, off, depth)) == Ok(Read(done, off + 1))
    ensures off < |b| && b[off] != S.BREAK && Value(b, off, depth).Err? ==>
              After(done, UntilBreak(b, off, depth)) == Err(Value(b, off, depth).error)
    ensures off < |b| && b[off] != S.BREAK && Value(b, off, depth).Ok? ==>
              var read := Value(b, off, depth).value;
              After(done, UntilBreak(b, off, depth)) == After(done + [read.value], UntilBreak(b, read.next, depth))
  {
    hide Value;
    assert done + [] == done;
    var first := Value(b, off, depth);
    if first.Ok? {
      AfterMore(done, [first.value.value], UntilBreak(b, first.value.next, depth));
    }
  }

  lemma NoneLeft(done: seq<Spanned>, b: seq<byte>, off: nat, depth: nat)
    requires off <= |b|
    ensures After(done, Counted(b, off, 0, depth)) == Ok(Read(done, off))
  {
    assert done + [] == done;
  }

  lemma PairedNothing()
    ensures PairUp([]) == []
  {
  }

  lemma {:induction false} PairedMore(items: seq<Spanned>, key: Spanned, value: Spanned)
    requires |items| % 2 == 0
    ensures PairUp(items + [key] + [value]) == PairUp(items) + [SpannedEntry(key, value)]
    decreases |items|
  {
    if items == [] {
      assert items + [key] + [value] == [key, value];
    } else {
      PairedMore(items[2..], key, value);
      assert (items + [key] + [value])[2..] == items[2..] + [key] + [value];
    }
  }
}
