/** Occurrences in front of array elements, tuple members and map keys. The formatter never prints them
    there; the parser keeps each with the member it stands before. */
module TypeCounts {
  import opened Bytes
  import opened Ast
  import opened Tokens
  import opened AnnotationPrinter
  import opened ConditionRoundTrip
  import opened TypeParser
  import opened TypePrinter
  import opened TypeRoundTrip
  import opened TypeSpellings

  // ---- one occurrence ------------------------------------------------------------------------------------

  function Counted(occurrence: Occurrence, rest: Input): Input {
    PrintOccurrence(Some(occurrence), [SPACE] + rest)
  }

  lemma {:induction false} CountReads(occurrence: Occurrence, text: Input)
    requires InRange(occurrence) && !IsTrivia(Peek(text))
    ensures var counted := Counted(occurrence, text);
            && IsOccurrence(Peek(counted)) && Skip(counted) == counted
            && ReadOccurrence(counted) == (Explicit(occurrence), [SPACE] + text)
    ensures Skip([SPACE] + text) == text
  {
    hide PrintOccurrence, ReadOccurrence, Explicit, InRange, Skip;
    OccurrenceRoundTrip(occurrence, [SPACE] + text);
    OccurrenceIsNoTrivia(Peek(Counted(occurrence, text)));
    SkipNothing(Counted(occurrence, text));
    SkipOne(SPACE, text);
    SkipNothing(text);
  }

  lemma OccurrenceIsNoTrivia(t: Token)
    requires IsOccurrence(t)
    ensures !IsTrivia(t)
  {
  }

  lemma SpaceShowsType(text: Input)
    requires text != [] && !IsTrivia(Peek(text)) && Peek(text) != Comma && Peek(text) != RightBracket
    ensures TypeAhead([SPACE] + text)
  {
    assert ([SPACE] + text)[1..] == text;
  }

  /** It is seen to be one, as something stands behind it. */
  lemma {:induction false} CountIsAhead(occurrence: Occurrence, text: Input)
    requires InRange(occurrence) && Opens(Peek(text))
    ensures OccurrenceAhead(Counted(occurrence, text))
  {
    hide Skip, TypeAhead, Unsigned, ReadOccurrence;
    OpensSkips(text);
    CountReads(occurrence, text);
    SpaceShowsType(text);
    match occurrence {
      case Exact(n) => assert Counted(occurrence, text)[1..] == [SPACE] + text;
      case Between(Some(min), max) =>
        var behind := [Token.ZeroOrMore] + ((if max.Some? then [Unsigned(max.value)] else []) + ([SPACE] + text));
        assert Counted(occurrence, text) == [Unsigned(min)] + behind;
        assert Counted(occurrence, text)[1..] == behind;
        StarShowsType(behind);
      case _ =>
    }
  }

  lemma StarShowsType(text: Input)
    requires Peek(text) == Token.ZeroOrMore
    ensures TypeAhead(text)
  {
  }

  // ---- members ---------------------------------------------------------------------------------------------

  /** A member as it is written: an occurrence in front or not, then key, `?` and value as an entry has
      them. */
  datatype Member = Member(front: Option<Occurrence>, entry: GroupEntry)

  /** What keeps the parser from taking an integer for a count stands where there is no count. */
  predicate IsMember(m: Member) {
    && FaithfulEntry(m.entry) && m.entry.metadata == []
    && (m.front.Some? ==> InRange(m.front.value))
    && (m.front.None? ==>
          match m.entry.key
          case None => m.entry.valueType.Literal? || !IntegerFirst(m.entry.valueType)
          case Some(LiteralKey(lit)) => !lit.Integer?
          case _ => true)
  }

  function WriteMember(m: Member, indent: nat, cfg: FormatConfig, rest: Input): Input {
    var text := PrintEntry(m.entry, indent, cfg, rest);
    if m.front.Some? then Counted(m.front.value, text) else text
  }

  /** An occurrence in front wins over a `?` behind the key. */
  function ReadMember(m: Member): GroupEntry {
    if m.front.Some? then m.entry.(occurrence := Some(Explicit(m.front.value))) else m.entry
  }

  /** Reading a member, once its occurrence is known. */
  lemma {:induction false} MemberBehindCount(
      text: Input, occurrence: Option<Occurrence>, behind: Input, e: GroupEntry, value: Input, rest: Input)
    requires ReadOccurrenceIf(OccurrenceAhead(text), text) == (occurrence, behind)
    requires var read := ParseOptionalKey(Skip(behind));
             read.Ok? && read.value.0 == (e.key, e.occurrence) && Skip(read.value.1) == value
    requires ParseType(value) == Ok((e.valueType, rest)) && e.metadata == [] && e.docComments == []
    ensures ParseMember(text) == Ok((if occurrence.Some? then e.(occurrence := occurrence) else e, rest))
  {
    hide ParseType, Skip, OccurrenceAhead, KeyAhead, TypeParser.ParseKey, ReadOccurrence;
    var ts2 := Skip(behind);
    if !KeyAhead(ts2) {
      assert ParseOptionalKey(ts2) == Ok(((None, None), ts2));
      NothingSkipped(behind);
    }
  }

  lemma NothingSkipped(ts: Input)
    ensures Skip(Skip(ts)) == Skip(ts)
  {
    hide Skip;
    SkipNothing(Skip(ts));
  }

  lemma {:induction false} MemberReads(m: Member, indent: nat, cfg: FormatConfig, d: Token, rest: Input)
    requires IsMember(m) && (d == Comma || d == RightBracket)
    ensures var text := WriteMember(m, indent, cfg, [d] + rest);
            && Skip(text) == text && Peek(text) != RightBracket && Peek(text) != Eof
            && ParseMember(text) == Ok((ReadMember(m), [d] + rest))
  {
    hide PrintEntry, PrintType, ParseType, Skip, Faithful, OccurrenceAhead, ReadOccurrence, ParseOptionalKey, EndsType,
      Counted, ParseMember, Explicit, InRange, IntegerFirst, ColonAhead;
    var e, behind := m.entry, [d] + rest;
    var value := PrintType(e.valueType, indent, cfg, behind);
    var text := PrintEntry(e, indent, cfg, behind);
    DelimiterEnds(d, rest);
    NoneBehind(behind);
    EntryKey(e, indent, cfg, behind);
    TypeReadsBack(e.valueType, indent, cfg, behind);
    if m.front.Some? {
      CountReads(m.front.value, text);
      CountIsAhead(m.front.value, text);
      MemberBehindCount(Counted(m.front.value, text), Some(Explicit(m.front.value)), [SPACE] + text, e, value, behind);
      OccurrenceOpens(Peek(Counted(m.front.value, text)));
    } else {
      UncountedMember(e, indent, cfg, d, rest);
      MemberBehindCount(text, None, text, e, value, behind);
      OpensSkips(text);
    }
  }

  lemma OccurrenceOpens(t: Token)
    requires IsOccurrence(t)
    ensures t != RightBracket && t != Eof
  {
  }

  lemma {:induction false} UncountedMember(e: GroupEntry, indent: nat, cfg: FormatConfig, d: Token, rest: Input)
    requires IsMember(Member(None, e)) && (d == Comma || d == RightBracket)
    ensures !OccurrenceAhead(PrintEntry(e, indent, cfg, [d] + rest))
  {
    hide PrintType, PrintName, Faithful, IntegerFirst, OccurrenceAhead, Word, PrintOccurrence, PrintWordKey;
    KeyText(e, indent, cfg, [d] + rest);
    NoneBehind([d] + rest);
    var colon := [Colon] + ([SPACE] + PrintType(e.valueType, indent, cfg, [d] + rest));
    match e.key {
      case None => NoOccurrenceAhead(e.valueType, indent, cfg, d, rest);
      case Some(Bare(name)) =>
        KeyToken(name);
        UncountedWord(name, e.occurrence, colon);
        WordShowsNoOccurrence([Word(name)] + PrintOccurrence(e.occurrence, colon));
      case Some(LiteralKey(lit)) =>
        UncountedLiteral(lit, None, colon);
        TextShowsNoOccurrence(lit, PrintOccurrence(None, colon));
    }
  }

  lemma TextShowsNoOccurrence(lit: LiteralValue, rest: Input)
    requires IsLiteralType(lit) && lit.Text?
    ensures !OccurrenceAhead(PrintLiteral(lit, rest))
  {
  }

  // ---- tuples and arrays -----------------------------------------------------------------------------------

  function WriteMembers(ms: seq<Member>, indent: nat, cfg: FormatConfig, rest: Input): Input {
    if ms == [] then rest else WriteMember(ms[0], indent, cfg, WriteMoreMembers(ms[1..], indent, cfg, rest))
  }

  function WriteMoreMembers(ms: seq<Member>, indent: nat, cfg: FormatConfig, rest: Input): Input {
    if ms == [] then rest
    else [Comma] + ([SPACE] + WriteMember(ms[0], indent, cfg, WriteMoreMembers(ms[1..], indent, cfg, rest)))
  }

  function ReadMembers(ms: seq<Member>): (es: seq<GroupEntry>)
    ensures |es| == |ms|
  {
    if ms == [] then [] else [ReadMember(ms[0])] + ReadMembers(ms[1..])
  }

  lemma {:induction false} MembersRead(ms: seq<Member>, indent: nat, cfg: FormatConfig, rest: Input)
    requires forall m | m in ms :: IsMember(m)
    ensures var text := WriteMembers(ms, indent, cfg, [RightBracket] + rest);
            Skip(text) == text && ParseMembers(text) == Ok((ReadMembers(ms), [RightBracket] + rest))
    decreases |ms|
  {
    hide WriteMember, ReadMember, ParseMember, IsMember, Skip, EndsEntry, ParseMembers;
    var close := [RightBracket] + rest;
    DelimiterEnds(RightBracket, rest);
    if ms == [] {
      MembersStop(close);
    } else {
      var more := WriteMembers(ms[1..], indent, cfg, close);
      var d, tail := if ms[1..] == [] then RightBracket else Comma, if ms[1..] == [] then rest else [SPACE] + more;
      assert WriteMoreMembers(ms[1..], indent, cfg, close) == [d] + tail;
      var text := WriteMember(ms[0], indent, cfg, [d] + tail);
      MemberReads(ms[0], indent, cfg, d, tail);
      DelimiterEnds(d, tail);
      if ms[1..] == [] {
        assert ReadMembers(ms) == [ReadMember(ms[0])];
      } else {
        MembersRead(ms[1..], indent, cfg, rest);
        SkipOne(SPACE, more);
      }
      OneMember(text, ReadMember(ms[0]), [d] + tail);
    }
  }

  lemma MembersStop(ts: Input)
    requires Peek(ts) == RightBracket
    ensures ParseMembers(ts) == Ok(([], ts))
  {
  }

  /** One member read, the list goes on behind a comma and ends at the bracket. */
  lemma OneMember(text: Input, e: GroupEntry, behind: Input)
    requires Peek(text) != RightBracket && Peek(text) != Eof && ParseMember(text) == Ok((e, behind))
    requires Skip(behind) == behind
    ensures Peek(behind) == RightBracket ==> ParseMembers(text) == Ok(([e], behind))
    ensures Peek(behind) == Comma && ParseMembers(Skip(behind[1..])).Ok? ==>
              var (more, left) := ParseMembers(Skip(behind[1..])).value;
              ParseMembers(text) == Ok(([e] + more, left))
  {
    hide ParseMember, Skip;
  }

  /** Every list of members, each with an occurrence in front of it or not, is read as the tuple of these
      members with these occurrences, or as the array of its lone unkeyed one. */
  lemma {:induction false} TupleCountsRead(ms: seq<Member>, indent: nat, cfg: FormatConfig, rest: Input)
    requires (forall m | m in ms :: IsMember(m)) && EndsType(rest)
    ensures var read := ReadMembers(ms);
            ParseType([LeftBracket] + WriteMembers(ms, indent, cfg, [RightBracket] + rest))
              == Ok((if |ms| == 1 && ms[0].entry.key.None? then Array(read[0].valueType, read[0].occurrence)
                     else Tuple(GroupExpression(read)), Skip(rest)))
  {
    hide WriteMembers, ParseMembers, IsMember, Skip, EndsType, ParseType, Explicit;
    var text := WriteMembers(ms, indent, cfg, [RightBracket] + rest);
    MembersRead(ms, indent, cfg, rest);
    SkipOne(LeftBracket, text);
    SkipOne(RightBracket, rest);
    if |ms| == 1 {
      assert ReadMembers(ms) == [ReadMember(ms[0])];
    }
    BracketReads([LeftBracket] + text, rest);
  }

  lemma {:induction false} BracketReads(text: Input, rest: Input)
    requires Peek(text) == LeftBracket && ParseArray(text).Ok? && ParseArray(text).value.1 == rest && EndsType(rest)
    ensures ParseType(text) == Ok((ParseArray(text).value.0, Skip(rest)))
  {
    hide ParseArray, ParseControls, Skip;
    assert ParseBase(text) == ParseArray(text);
    NoControls(rest);
    assert ParsePrimary(text) == Ok((ParseArray(text).value.0, Skip(rest)));
  }

  /** `[o t]` is the array of `t` with the occurrence `o`. */
  lemma {:induction false} ArrayCountReads(
      occurrence: Occurrence, t: TypeExpression, indent: nat, cfg: FormatConfig, rest: Input)
    requires InRange(occurrence) && Faithful(t) && EndsType(rest)
    ensures ParseType([LeftBracket]
              + PrintOccurrence(Some(occurrence), [SPACE] + PrintType(t, indent, cfg, [RightBracket] + rest)))
         == Ok((Array(t, Some(Explicit(occurrence))), Skip(rest)))
  {
    hide PrintType, ParseType, Skip, Faithful, EndsType, InRange, PrintOccurrence, IntegerFirst, Explicit;
    var ms := [Member(Some(occurrence), GroupEntry(None, t, None, [], []))];
    assert ms[1..] == [];
    KeyText(ms[0].entry, indent, cfg, [RightBracket] + rest);
    NoneBehind([RightBracket] + rest);
    TupleCountsRead(ms, indent, cfg, rest);
  }

  // ---- maps ------------------------------------------------------------------------------------------------

  /** `{o key => value}` is the map with the occurrence `o`. */
  lemma {:induction false} MapCountReads(
      occurrence: Occurrence, key: TypeExpression, value: TypeExpression, indent: nat, cfg: FormatConfig, rest: Input)
    requires InRange(occurrence) && Faithful(key) && Faithful(value) && EndsType(rest)
    ensures var val := PrintType(value, indent, cfg, [RightBrace] + rest);
            var body := PrintType(key, indent, cfg, [SPACE] + ([Arrow] + ([SPACE] + val)));
            ParseType([LeftBrace] + PrintOccurrence(Some(occurrence), [SPACE] + body))
              == Ok((Map(key, value, Some(Explicit(occurrence))), Skip(rest)))
  {
    hide PrintType, ParseType, Skip, Faithful, EndsType, InRange, PrintOccurrence, Explicit, MapAhead, ParseMapBody,
      IsOccurrence, ReadOccurrence;
    var val := PrintType(value, indent, cfg, [RightBrace] + rest);
    var body := PrintType(key, indent, cfg, [SPACE] + ([Arrow] + ([SPACE] + val)));
    var text := Counted(occurrence, body);
    TypeOpens(key, indent, cfg, [SPACE] + ([Arrow] + ([SPACE] + val)));
    OpensIsNoTrivia();
    CountReads(occurrence, body);
    SkipOne(LeftBrace, text);
    MapBodyReads(Some(Explicit(occurrence)), key, value, indent, cfg, rest);
    CountedMapAhead(occurrence, key, value, indent, cfg, rest);
    BraceMapReads([LeftBrace] + text, Map(key, value, Some(Explicit(occurrence))), rest);
  }

  lemma {:induction false} BraceMapReads(text: Input, t: TypeExpression, rest: Input)
    requires Peek(text) == LeftBrace && MapAhead(text) && ParseMap(text) == Ok((t, rest)) && EndsType(rest)
    ensures ParseType(text) == Ok((t, Skip(rest)))
  {
    hide ParseMap, ParseGroup, MapAhead, ParseControls, Skip;
    assert ParseBase(text) == Ok((t, rest));
    NoControls(rest);
    assert ParsePrimary(text) == Ok((t, Skip(rest)));
  }

  lemma {:induction false} MapBodyReads(
      occurrence: Option<Occurrence>, key: TypeExpression, value: TypeExpression,
      indent: nat, cfg: FormatConfig, rest: Input)
    requires Faithful(key) && Faithful(value)
    ensures var val := PrintType(value, indent, cfg, [RightBrace] + rest);
            var body := PrintType(key, indent, cfg, [SPACE] + ([Arrow] + ([SPACE] + val)));
            ParseMapBody(occurrence, [SPACE] + body) == Ok((Map(key, value, occurrence), rest))
  {
    hide PrintType, ParseType, Skip, Faithful, EndsType;
    var val := PrintType(value, indent, cfg, [RightBrace] + rest);
    var behind := [SPACE] + ([Arrow] + ([SPACE] + val));
    var body := PrintType(key, indent, cfg, behind);
    TypeOpens(key, indent, cfg, behind);
    TypeOpens(value, indent, cfg, [RightBrace] + rest);
    OpensIsNoTrivia();
    SkipOne(SPACE, body);
    SkipNothing(body);
    ArrowEnds(val);
    TypeReadsBack(key, indent, cfg, behind);
    SkipOne(Arrow, [SPACE] + val);
    SkipOne(SPACE, val);
    SkipNothing(val);
    DelimiterEnds(RightBrace, rest);
    TypeReadsBack(value, indent, cfg, [RightBrace] + rest);
  }

  /** The scan for `=>` passes over the occurrence. */
  lemma {:induction false} CountedMapAhead(
      occurrence: Occurrence, key: TypeExpression, value: TypeExpression, indent: nat, cfg: FormatConfig, rest: Input)
    requires InRange(occurrence)
    ensures var val := PrintType(value, indent, cfg, [RightBrace] + rest);
            var body := PrintType(key, indent, cfg, [SPACE] + ([Arrow] + ([SPACE] + val)));
            MapAhead([LeftBrace] + Counted(occurrence, body))
  {
    hide PrintType, ScanBrace, PrintOccurrence, InRange, MapAhead;
    var val := PrintType(value, indent, cfg, [RightBrace] + rest);
    var body := PrintType(key, indent, cfg, [SPACE] + ([Arrow] + ([SPACE] + val)));
    MapLooksLikeMap(key, value, indent, cfg, rest);
    MapText(key, value, indent, cfg, rest);
    ScanOpen(body);
    ScanOpen(Counted(occurrence, body));
    ScanCount(occurrence, [SPACE] + body);
    ScanPlain(SPACE, body);
  }

  lemma ScanPlain(t: Token, text: Input)
    requires t.Whitespace? || IsOccurrence(t)
    ensures ScanBrace([t] + text, 0, 0, 1) == ScanBrace(text, 0, 0, 1)
  {
    assert ([t] + text)[1..] == text;
  }

  lemma {:induction false} ScanCount(occurrence: Occurrence, text: Input)
    requires InRange(occurrence)
    ensures ScanBrace(PrintOccurrence(Some(occurrence), text), 0, 0, 1) == ScanBrace(text, 0, 0, 1)
  {
    hide ScanBrace;
    match occurrence {
      case Optional => ScanPlain(Token.Optional, text);
      case ZeroOrMore => ScanPlain(Token.ZeroOrMore, text);
      case OneOrMore => ScanPlain(Token.OneOrMore, text);
      case Exact(n) => ScanPlain(Unsigned(n), text);
      case Between(min, max) =>
        var tail := (if max.Some? then [Unsigned(max.value)] else []) + text;
        if max.Some? {
          ScanPlain(Unsigned(max.value), text);
        } else {
          assert [] + text == text;
        }
        ScanPlain(Token.ZeroOrMore, tail);
        if min.Some? {
          ScanPlain(Unsigned(min.value), [Token.ZeroOrMore] + tail);
        } else {
          assert [] + ([Token.ZeroOrMore] + tail) == [Token.ZeroOrMore] + tail;
        }
    }
  }
}
