/** Printed text the parser does not read: an integer where a count may stand, and what is printed
    behind an entry's key or value that no entry has there. */
module TypeStops {
  import opened Bytes
  import opened Ast
  import opened Tokens
  import opened AnnotationParser
  import opened AnnotationPrinter
  import opened ConditionRoundTrip
  import opened AnnotationRoundTrip
  import opened TypeParser
  import opened TypePrinter
  import opened TypeRoundTrip
  import opened TypeLosses

  // ---- no type starts here -----------------------------------------------------------------------------

  lemma {:induction false} NoTypeStarts(ts: Input)
    requires Peek(ts) == Slash || Peek(ts) == Arrow || IsControl(Peek(ts))
    ensures ParseType(ts).Err? && !KeyAhead(ts) && Skip(ts) == ts
  {
    hide ParseArray, ParseMap, ParseGroup, MapAhead, ParseDotted, ParseControls, Skip;
    SkipNothing(ts);
    assert ParseBase(ts).Err?;
    assert ParsePrimary(ts).Err?;
  }

  lemma {:induction false} BracketFails(ts: Input)
    requires Peek(ts) == LeftBracket && ParseArray(ts).Err?
    ensures ParseType(ts).Err?
  {
    hide ParseArray, ParseControls, Skip;
    assert ParseBase(ts).Err?;
    assert ParsePrimary(ts).Err?;
  }

  lemma {:induction false} BraceFails(ts: Input)
    requires Peek(ts) == LeftBrace && (if MapAhead(ts) then ParseMap(ts) else ParseGroup(ts)).Err?
    ensures ParseType(ts).Err?
  {
    hide ParseMap, ParseGroup, MapAhead, ParseControls, Skip;
    assert ParseBase(ts).Err?;
    assert ParsePrimary(ts).Err?;
  }

  // ---- an integer in front -----------------------------------------------------------------------------

  /** A type that starts with an integer and goes on: white space, then a mark or an operator. */
  predicate GoesOn(text: Input) {
    |text| >= 3 && text[0].Integer? && text[1] == SPACE && (text[2] == Slash || text[2] == Arrow || IsControl(text[2]))
  }

  lemma {:induction false} IntegerGoesOn(t: TypeExpression, indent: nat, cfg: FormatConfig, rest: Input)
    requires Faithful(t) && IntegerFirst(t) && !t.Literal?
    ensures GoesOn(PrintType(t, indent, cfg, rest))
    decreases t
  {
    hide PrintMoreArms, PrintControls, PrintControl, FaithfulControls, IsControl, IsLiteralType;
    match t {
      case Choice(arms) =>
        var more := PrintMoreArms(arms[1..], indent, cfg, rest);
        if arms[0].Literal? {
          MoreArmsStart(arms[1..], indent, cfg, rest);
          ChoiceText(t, indent, cfg, rest);
          assert PrintType(arms[0], indent, cfg, more) == PrintLiteral(arms[0].lit, [SPACE] + ([Slash] + more[2..]));
        } else {
          IntegerGoesOn(arms[0], indent, cfg, more);
        }
      case Constrained(base, ops) =>
        ControlsStart(ops, cfg, rest);
        assert base.Literal?;
    }
  }

  /** The integer is read as a count, and then no type follows. */
  lemma {:induction false} CountIsRead(text: Input)
    requires GoesOn(text)
    ensures ReadOccurrence(text) == (Exact(AsU64(text[0].i)), text[1..]) && Skip(text[1..]) == text[2..]
    ensures OccurrenceAhead(text) && ParseType(text[2..]).Err? && !KeyAhead(text[2..]) && Skip(text[2..]) == text[2..]
  {
    hide ParseType, KeyAhead, IsControl;
    assert text[1..][0] == SPACE && text[1..][1..] == text[2..];
    NoTypeStarts(text[2..]);
    ShowsType(text);
  }

  lemma ShowsType(text: Input)
    requires GoesOn(text)
    ensures TypeAhead(text[1..])
  {
    assert text[1..][0] == SPACE && text[1..][1..] == text[2..];
  }

  lemma {:induction false} StuckMember(text: Input)
    requires GoesOn(text)
    ensures ParseMember(text).Err?
  {
    hide ParseType, KeyAhead, IsControl, ReadOccurrence, Skip, OccurrenceAhead;
    CountIsRead(text);
  }

  predicate IsStuck(e: GroupEntry) {
    e.key.None? && IntegerFirst(e.valueType) && !e.valueType.Literal?
  }

  lemma {:induction false} MembersFail(es: seq<GroupEntry>, indent: nat, cfg: FormatConfig, rest: Input)
    requires forall e | e in es :: FaithfulMember(e) || (Faithful(e.valueType) && IsStuck(e))
    requires exists e | e in es :: IsStuck(e)
    ensures var text := PrintMembers(es, indent, cfg, [RightBracket] + rest);
            Skip(text) == text && ParseMembers(text).Err?
    decreases |es|
  {
    hide PrintType, PrintMember, ParseMember, FaithfulMember, Faithful, IntegerFirst, Skip, GoesOn, ReadsBack,
      EndsEntry;
    var close := [RightBracket] + rest;
    var more := PrintMoreMembers(es[1..], indent, cfg, close);
    var text := PrintMember(es[0], indent, cfg, more);
    if FaithfulMember(es[0]) {
      MemberParts(es[0]);
    }
    if IsStuck(es[0]) {
      StuckText(es[0], indent, cfg, more);
      StuckMember(text);
      SkipNothing(text);
    } else {
      var tail := PrintMembers(es[1..], indent, cfg, close);
      assert more == [Comma] + ([SPACE] + tail);
      MembersFail(es[1..], indent, cfg, rest);
      MemberValueReadsBack(es[0], indent, cfg, Comma, [SPACE] + tail);
      MemberRoundTrip(es[0], indent, cfg, Comma, [SPACE] + tail);
      DelimiterEnds(Comma, [SPACE] + tail);
      SkipOne(SPACE, tail);
      OpensIsNoTrivia();
      SkipNothing(text);
    }
  }

  lemma MemberParts(e: GroupEntry)
    requires FaithfulMember(e)
    ensures Faithful(e.valueType) && !IsStuck(e)
  {
    hide IntegerFirst, Faithful;
  }

  lemma StuckText(e: GroupEntry, indent: nat, cfg: FormatConfig, rest: Input)
    requires Faithful(e.valueType) && IsStuck(e)
    ensures GoesOn(PrintMember(e, indent, cfg, rest)) && Peek(PrintMember(e, indent, cfg, rest)).Integer?
  {
    hide PrintType, Faithful, IntegerFirst;
    IntegerGoesOn(e.valueType, indent, cfg, rest);
  }

  /** A tuple is read unless a member without a key starts with an integer and goes on. */
  lemma {:induction false} TupleIsRead(es: seq<GroupEntry>, indent: nat, cfg: FormatConfig, rest: Input)
    requires forall e | e in es ::
               FaithfulMember(KeptMember(e)) || (Faithful(Kept(e.valueType)) && IsStuck(KeptMember(e)))
    requires EndsType(rest)
    ensures ParseType(PrintType(Tuple(GroupExpression(es)), indent, cfg, rest)).Ok?
       <==> forall e | e in es :: !IsStuck(KeptMember(e))
  {
    hide ParseType, PrintType, Skip, EndsType, KeptMember, FaithfulMember, IsStuck, Faithful, Kept;
    if forall e | e in es :: !IsStuck(KeptMember(e)) {
      TupleComesBack(es, indent, cfg, rest);
    } else {
      var kept := KeptMembers(es);
      KeptMemberAt(es);
      var k :| 0 <= k < |es| && IsStuck(KeptMember(es[k]));
      assert IsStuck(kept[k]);
      forall e | e in kept ensures FaithfulMember(e) || (Faithful(e.valueType) && IsStuck(e)) {
        var i :| 0 <= i < |es| && e == KeptMember(es[i]);
        KeptValue(es[i]);
      }
      MembersFail(kept, indent, cfg, rest);
      KeptMembersText(es, indent, cfg, [RightBracket] + rest);
      TupleFails(es, indent, cfg, rest);
    }
  }

  lemma KeptValue(e: GroupEntry)
    ensures KeptMember(e).valueType == Kept(e.valueType)
  {
  }

  lemma TupleFails(es: seq<GroupEntry>, indent: nat, cfg: FormatConfig, rest: Input)
    requires var text := PrintMembers(es, indent, cfg, [RightBracket] + rest);
             Skip(text) == text && ParseMembers(text).Err?
    ensures ParseType(PrintType(Tuple(GroupExpression(es)), indent, cfg, rest)).Err?
  {
    hide PrintMembers, ParseMembers, ParseType, Skip;
    var text := PrintMembers(es, indent, cfg, [RightBracket] + rest);
    SkipOne(LeftBracket, text);
    BracketFails([LeftBracket] + text);
  }

  /** An array is read unless its element starts with an integer and goes on. */
  lemma {:induction false} ArrayIsRead(
      element: TypeExpression, occurrence: Option<Occurrence>, indent: nat, cfg: FormatConfig, rest: Input)
    requires Faithful(element) && EndsType(rest)
    ensures ParseType(PrintType(Array(element, occurrence), indent, cfg, rest)).Ok?
       <==> element.Literal? || !IntegerFirst(element)
  {
    hide ParseType, PrintType, Skip, EndsType, IntegerFirst;
    if element.Literal? || !IntegerFirst(element) {
      ArrayComesBack(element, occurrence, indent, cfg, rest);
    } else {
      var es := [GroupEntry(None, element, None, [], [])];
      MembersFail(es, indent, cfg, rest);
      TupleFails(es, indent, cfg, rest);
      assert PrintType(Array(element, occurrence), indent, cfg, rest)
          == PrintType(Tuple(GroupExpression(es)), indent, cfg, rest)
      by { LoneText(element, occurrence, indent, cfg, rest); }
    }
  }

  lemma LoneText(element: TypeExpression, occurrence: Option<Occurrence>, indent: nat, cfg: FormatConfig, rest: Input)
    ensures PrintType(Array(element, occurrence), indent, cfg, rest)
         == PrintType(Tuple(GroupExpression([GroupEntry(None, element, None, [], [])])), indent, cfg, rest)
  {
    BracketedText([GroupEntry(None, element, None, [], [])], indent, cfg, rest);
  }

  /** A map is read unless its key starts with an integer. */
  lemma {:induction false} MapIsRead(
      key: TypeExpression, value: TypeExpression, occurrence: Option<Occurrence>,
      indent: nat, cfg: FormatConfig, rest: Input)
    requires Faithful(key) && Faithful(value) && EndsType(rest)
    ensures ParseType(PrintType(Map(key, value, occurrence), indent, cfg, rest)).Ok? <==> !IntegerFirst(key)
  {
    hide ParseType, PrintType, Skip, EndsType, IntegerFirst, ParseMap, MapAhead, GoesOn;
    if !IntegerFirst(key) {
      MapComesBack(key, value, occurrence, indent, cfg, rest);
    } else {
      var val := PrintType(value, indent, cfg, [RightBrace] + rest);
      var behind := [SPACE] + ([Arrow] + ([SPACE] + val));
      var text := PrintType(key, indent, cfg, behind);
      MapText(key, value, indent, cfg, rest);
      MapLooksLikeMap(key, value, indent, cfg, rest);
      if key.Literal? {
        LiteralGoesOn(key.lit, indent, cfg, val);
      } else {
        IntegerGoesOn(key, indent, cfg, behind);
      }
      MapFails(text);
      BraceFails([LeftBrace] + text);
      assert PrintType(Map(key, value, occurrence), indent, cfg, rest)
          == PrintType(Map(key, value, None), indent, cfg, rest)
      by { MapPrintsNoOccurrence(key, value, occurrence, indent, cfg, rest); }
    }
  }

  lemma LiteralGoesOn(lit: LiteralValue, indent: nat, cfg: FormatConfig, rest: Input)
    requires IntegerFirst(Literal(lit))
    ensures GoesOn(PrintType(Literal(lit), indent, cfg, [SPACE] + ([Arrow] + ([SPACE] + rest))))
  {
  }

  lemma MapPrintsNoOccurrence(
      key: TypeExpression, value: TypeExpression, occurrence: Option<Occurrence>,
      indent: nat, cfg: FormatConfig, rest: Input)
    ensures PrintType(Map(key, value, occurrence), indent, cfg, rest)
         == PrintType(Map(key, value, None), indent, cfg, rest)
  {
  }

  lemma {:induction false} MapFails(text: Input)
    requires GoesOn(text)
    ensures ParseMap([LeftBrace] + text).Err?
  {
    hide ParseType, IsControl, ReadOccurrence, Skip, OccurrenceAhead;
    SkipOne(LeftBrace, text);
    SkipNothing(text);
    CountIsRead(text);
  }

  // ---- groups ------------------------------------------------------------------------------------------

  /** An entry whose parts print as faithful ones, and whose annotations lex. */
  predicate HasFaithfulParts(e: GroupEntry) {
    && Faithful(e.valueType) && e.docComments == [] && (forall a | a in e.metadata :: LexesAnnotation(a))
    && (e.key.Some? && !e.key.value.TypeKey? ==> Count(e.occurrence) == "")
    && match e.key
       case None => e.occurrence.None?
       case Some(Bare(name)) => IsKeyName(name)
       case Some(LiteralKey(lit)) => IsLiteralType(lit)
       case Some(TypeKey(t)) => Faithful(t)
  }

  /** What was read as an entry is no entry, as neither a comma nor a closing mark follows. */
  predicate Strays(r: Parsed<GroupEntry>) {
    r.Ok? ==> Skip(r.value.1) == r.value.1 && !IsDelimiter(Peek(r.value.1))
  }

  /** What stands behind a key that is no mere mark of a field's being optional. */
  predicate StopsEntry(t: Token) {
    t in {Colon, Token.ZeroOrMore, Token.OneOrMore} || t.Integer? || t.Other?
  }

  lemma OccurrenceStops(occurrence: Option<Occurrence>, value: Input)
    ensures var behind := PrintOccurrence(occurrence, [Colon] + value);
            && behind != [] && Skip(behind) == behind
            && (if occurrence == Some(Occurrence.Optional) then behind == [Token.Optional] + ([Colon] + value)
                else StopsEntry(Peek(behind)))
            && (occurrence.Some? && occurrence != Some(Occurrence.Optional) ==> Peek(behind) != Colon)
  {
  }

  /** A type read up to there, with no key before it, ends as a stray entry. */
  lemma {:induction false} ValueStrays(text: Input, t: TypeExpression, behind: Input)
    requires ParseType(text) == Ok((t, behind)) && Skip(text) == text && Skip(behind) == behind
    requires StopsEntry(Peek(behind))
          || (Peek(behind) == Token.Optional && Skip(behind[1..]) == behind[1..] && StopsEntry(Peek(behind[1..])))
    ensures Strays(ParseEntryValue(None, None, [], text))
  {
    hide ParseType, Skip;
    assert !Peek(behind).At?;
  }

  lemma {:induction false} UnkeyedStrays(text: Input, t: TypeExpression, behind: Input)
    requires ParseType(text) == Ok((t, behind)) && Skip(text) == text && Skip(behind) == behind
    requires StopsEntry(Peek(behind))
          || (Peek(behind) == Token.Optional && Skip(behind[1..]) == behind[1..] && StopsEntry(Peek(behind[1..])))
    requires !KeyAhead(text) && !Peek(text).At? && Peek(text) != Token.Optional
    ensures Strays(ParseEntry(text))
  {
    hide ParseType, Skip, KeyAhead, ParseEntryValue, Strays;
    ValueStrays(text, t, behind);
    assert ParseAnnotations(text) == Ok(([], text));
  }

  /** Where `behind` ends a lone token's type. */
  lemma {:induction false} TokenReads(text: Input, t: TypeExpression, behind: Input)
    requires ParseBase(text) == Ok((t, behind)) && Skip(behind) == behind
    requires StopsEntry(Peek(behind)) || Peek(behind) == Token.Optional
    requires Opens(Peek(text))
    ensures ParseType(text) == Ok((t, behind))
  {
    hide ParseBase, ParseControls, Skip;
    NoControls(behind);
    assert ParsePrimary(text) == Ok((t, behind));
  }

  /** A type is no key of an entry. */
  lemma {:induction false} TypeKeyStrays(e: GroupEntry, indent: nat, cfg: FormatConfig, rest: Input)
    requires HasFaithfulParts(e) && e.key.Some? && e.key.value.TypeKey?
    ensures var text := PrintEntry(e, indent, cfg, rest); Peek(text) == LeftParen && Strays(ParseEntry(text))
  {
    hide PrintType, ParseType, Skip, PrintAnnotations, Faithful, EndsType, ParseEntry, PrintOccurrence, StopsEntry,
      Strays, PrintEntry;
    var value := PrintType(e.valueType, indent, cfg, PrintAnnotations(e.metadata, rest));
    var behind := PrintOccurrence(e.occurrence, [Colon] + ([SPACE] + value));
    var t := e.key.value.typ;
    KeyText(e, indent, cfg, rest);
    DelimiterEnds(RightParen, behind);
    TypeReadsBack(t, indent, cfg, [RightParen] + behind);
    TypeOpens(t, indent, cfg, [RightParen] + behind);
    NoKeyAhead(t, indent, cfg, [RightParen] + behind);
    OccurrenceStops(e.occurrence, [SPACE] + value);
    SkipOne(Colon, [SPACE] + value);
    var inner := PrintType(t, indent, cfg, [RightParen] + behind);
    SkipNothing(inner);
    ParenthesesRead(inner, t, behind);
    SkipOne(LeftParen, inner);
    ColonStops();
    UnkeyedStrays([LeftParen] + inner, t, behind);
  }

  lemma ColonStops()
    ensures StopsEntry(Colon)
  {
  }

  lemma {:induction false} ParenthesesRead(inner: Input, t: TypeExpression, behind: Input)
    requires ParseType(inner) == Ok((t, [RightParen] + behind)) && Skip(inner) == inner && !KeyAhead(inner)
    requires StopsEntry(Peek(behind)) || Peek(behind) == Token.Optional
    ensures ParseType([LeftParen] + inner) == Ok((t, behind)) && !KeyAhead([LeftParen] + inner)
  {
    hide KeyAhead, Skip;
    SkipOne(LeftParen, inner);
    SkipOne(RightParen, behind);
    assert ParsePrimary([LeftParen] + inner) == Ok((t, behind)) by { hide ParseType; }
    NoKeyInParentheses(inner);
  }

  lemma NoKeyInParentheses(inner: Input)
    ensures !KeyAhead([LeftParen] + inner)
  {
  }

  /** A word with a count behind it is no key. */
  lemma {:induction false} CountedKeyStrays(e: GroupEntry, indent: nat, cfg: FormatConfig, rest: Input)
    requires HasFaithfulParts(e) && e.key.Some? && e.key.value.Bare?
    requires e.occurrence.Some? && e.occurrence != Some(Occurrence.Optional)
    ensures var text := PrintEntry(e, indent, cfg, rest); Opens(Peek(text)) && Strays(ParseEntry(text))
  {
    hide PrintType, ParseType, ParseBase, Skip, PrintAnnotations, Faithful, ParseEntry, PrintOccurrence, StopsEntry,
      Strays, Word, IsKeyName, PrintName, KeyAhead, PrintEntry, Count;
    var value := PrintType(e.valueType, indent, cfg, PrintAnnotations(e.metadata, rest));
    var behind := PrintOccurrence(e.occurrence, [Colon] + ([SPACE] + value));
    var name := e.key.value.name;
    KeyToken(name);
    KeyText(e, indent, cfg, rest);
    UncountedWord(name, e.occurrence, [Colon] + ([SPACE] + value));
    OccurrenceStops(e.occurrence, [SPACE] + value);
    var text := [Word(name)] + behind;
    StopIsNoMark(Peek(behind));
    NoKeyBefore(Word(name), behind);
    WordReads(name, behind);
    SkipOne(Word(name), behind);
    TokenReads(text, Named(name), behind);
    UnkeyedStrays(text, Named(name), behind);
  }

  lemma StopIsNoMark(t: Token)
    requires StopsEntry(t)
    ensures t != Dot && t != Token.Optional && t != Arrow && !IsTrivia(t)
  {
  }

  lemma NoKeyBefore(t: Token, behind: Input)
    requires behind != [] && Peek(behind) !in {Colon, Arrow, Token.Optional} && !IsTrivia(Peek(behind))
    requires t.Identifier? || t.Builtin? || t.Integer? || t.TextString? || t.ByteString?
    ensures !KeyAhead([t] + behind)
  {
    assert ([t] + behind)[1..] == behind;
  }

  lemma WordReads(name: string, behind: Input)
    requires Word(name) == Identifier(name) || Word(name) == Token.Builtin(name)
    requires Peek(behind) != Dot
    ensures ParseBase([Word(name)] + behind) == Ok((Named(name), behind))
  {
    hide ParseArray, ParseMap, ParseGroup, MapAhead;
    assert ([Word(name)] + behind)[1..] == behind;
  }

  /** A literal key takes no occurrence, and bytes are no key. */
  lemma {:induction false} LiteralKeyStrays(e: GroupEntry, indent: nat, cfg: FormatConfig, rest: Input)
    requires HasFaithfulParts(e) && e.key.Some? && e.key.value.LiteralKey?
    requires e.occurrence.Some? || e.key.value.lit.ByteString?
    ensures var text := PrintEntry(e, indent, cfg, rest); Opens(Peek(text)) && Strays(ParseEntry(text))
  {
    hide PrintType, ParseType, ParseBase, Skip, PrintAnnotations, Faithful, ParseEntry, PrintOccurrence, StopsEntry,
      Strays, KeyAhead, PrintLiteral, IsLiteralType, ParseOptionalKey, PrintEntry, Count;
    var value := PrintType(e.valueType, indent, cfg, PrintAnnotations(e.metadata, rest));
    var behind := PrintOccurrence(e.occurrence, [Colon] + ([SPACE] + value));
    var lit := e.key.value.lit;
    KeyText(e, indent, cfg, rest);
    UncountedLiteral(lit, e.occurrence, [Colon] + ([SPACE] + value));
    LiteralToken(lit, behind);
    OccurrenceStops(e.occurrence, [SPACE] + value);
    SkipOne(Colon, [SPACE] + value);
    var text := PrintLiteral(lit, behind);
    SkipNothing(text);
    if !lit.ByteString? && e.occurrence == Some(Occurrence.Optional) {
      OptionalLiteralFails(text, [Colon] + ([SPACE] + value));
    } else {
      if !lit.ByteString? {
        StopIsNoMark(Peek(behind));
        NoKeyBefore(Peek(text), behind);
      }
      ColonStops();
      LiteralBase(lit, behind);
      TokenReads(text, Literal(lit), behind);
      UnkeyedStrays(text, Literal(lit), behind);
    }
  }

  lemma LiteralToken(lit: LiteralValue, behind: Input)
    requires IsLiteralType(lit)
    ensures var text := PrintLiteral(lit, behind);
            && text == [Peek(text)] + behind && Opens(Peek(text)) && !IsTrivia(Peek(text))
            && (if lit.ByteString? then Peek(text).ByteString? && !KeyAhead(text)
                else Peek(text).Integer? || Peek(text).TextString?)
  {
  }

  lemma {:induction false} OptionalLiteralFails(text: Input, colon: Input)
    requires text == [Peek(text)] + ([Token.Optional] + colon) && (Peek(text).Integer? || Peek(text).TextString?)
    requires Peek(colon) == Colon && Skip(colon) == colon
    ensures Strays(ParseEntry(text))
  {
    hide ParseType, Skip, ParseEntryValue;
    SkipNothing(text);
    SkipOne(Peek(text), [Token.Optional] + colon);
    SkipOne(Token.Optional, colon);
    assert ColonAhead(colon, true);
    assert KeyAhead(text);
    assert ParseKey(text).Err?;
    assert ParseAnnotations(text) == Ok(([], text));
  }

  /** Where one of them is not readable, reading annotations fails or leaves an operator behind. */
  lemma {:induction false} AnnotationsStray(metadata: seq<Annotation>, rest: Input)
    requires forall a | a in metadata :: LexesAnnotation(a)
    requires exists a | a in metadata :: !ReadableAnnotation(a)
    ensures var r := ParseAnnotations(Skip(PrintAnnotations(metadata, rest)));
            r.Ok? ==> Peek(r.value.1).Comparison? && Skip(r.value.1) == r.value.1
    decreases |metadata|
  {
    hide Skip, PrintAnnotation, ParseAnnotation, LexesAnnotation, ReadableAnnotation, ReadAnnotation;
    var more := PrintAnnotations(metadata[1..], rest);
    var text := PrintAnnotation(metadata[0], more);
    AnnotationReads(metadata[0], more);
    SkipOne(SPACE, text);
    SkipOne(Peek(text), text[1..]);
    if ReadableAnnotation(metadata[0]) {
      AnnotationsStray(metadata[1..], rest);
    } else if ParseAnnotation(text).Ok? {
      SkipNothing(Skip(ParseAnnotation(text).value.1));
    }
  }

  lemma {:induction false} AnnotatedStrays(e: GroupEntry, indent: nat, cfg: FormatConfig, rest: Input)
    requires FaithfulEntry(e.(metadata := [])) && EndsEntry(rest)
    requires forall a | a in e.metadata :: LexesAnnotation(a)
    requires exists a | a in e.metadata :: !ReadableAnnotation(a)
    ensures var text := PrintEntry(e, indent, cfg, rest); Opens(Peek(text)) && Strays(ParseEntry(text))
  {
    hide PrintType, PrintEntry, ParseType, ParseOptionalKey, Skip, Faithful, EndsType, ColonAhead, PrintAnnotations,
      LexesAnnotation, ReadableAnnotation, EndsValue, ParseAnnotations;
    var text, behind := PrintEntry(e, indent, cfg, rest), PrintAnnotations(e.metadata, rest);
    AnnotationsEndValue(e.metadata, rest);
    EntryKey(e, indent, cfg, rest);
    NoAnnotations(text);
    AnnotationsStray(e.metadata, rest);
    ValueEndsType(behind);
    TypeReadsBack(e.valueType, indent, cfg, behind);
    SkipNothing(Skip(behind));
  }

  lemma ValueEndsType(rest: Input)
    requires EndsValue(rest)
    ensures EndsType(rest) && Peek(Skip(rest)) != Token.Optional
  {
  }

  lemma {:induction false} EntryStrays(e: GroupEntry, indent: nat, cfg: FormatConfig, rest: Input)
    requires HasFaithfulParts(e) && !ReadableEntry(e) && EndsEntry(rest)
    ensures var text := PrintEntry(e, indent, cfg, rest);
            (Opens(Peek(text)) || Peek(text) == LeftParen) && Strays(ParseEntry(text))
  {
    hide PrintEntry, ParseEntry, Strays, Opens, Faithful, EndsEntry, LexesAnnotation, ReadableAnnotation,
      IsLiteralType, IsKeyName, Count;
    if e.key.Some? && e.key.value.TypeKey? {
      TypeKeyStrays(e, indent, cfg, rest);
    } else if e.key.Some? && e.key.value.Bare? && e.occurrence.Some? && e.occurrence != Some(Occurrence.Optional) {
      CountedKeyStrays(e, indent, cfg, rest);
    } else if e.key.Some? && e.key.value.LiteralKey? && (e.occurrence.Some? || e.key.value.lit.ByteString?) {
      LiteralKeyStrays(e, indent, cfg, rest);
    } else {
      AnnotatedStrays(e, indent, cfg, rest);
    }
  }

  lemma {:induction false} EntriesFail(es: seq<GroupEntry>, indent: nat, outer: nat, cfg: FormatConfig, rest: Input)
    requires (forall e | e in es :: HasFaithfulParts(e)) && (exists e | e in es :: !ReadableEntry(e))
    ensures ParseMoreEntries(Skip(PrintEntries(es, indent, cfg, Spaces(outer, [RightBrace] + rest))), RightBrace).Err?
    decreases |es|
  {
    hide PrintEntry, PrintEntries, ParseEntry, ParseMoreEntries, ReadableEntry, Skip, EndsEntry, ReadsBack, Spaces,
      Opens, PrintAnnotations, HasFaithfulParts, Strays;
    var end := Spaces(outer, [RightBrace] + rest);
    EntriesUnfold(es, indent, cfg, end);
    var more := PrintEntries(es[1..], indent, cfg, end);
    var comma := |es| > 1 || cfg.trailingCommas;
    var behind := PrintComma(comma, [Newline] + more);
    var text := PrintEntry(es[0], indent, cfg, behind);
    SkipSpaces(indent, text);
    SkipOne(Newline, more);
    if comma {
      DelimiterEnds(Comma, [Newline] + more);
    } else {
      NoEntries(es[1..], indent, cfg, end);
      LineEnds(outer, RightBrace, rest);
    }
    OpensIsNoTrivia();
    if !ReadableEntry(es[0]) {
      EntryStrays(es[0], indent, cfg, behind);
      SkipNothing(text);
      StrayEndsEntries(text);
    } else {
      EntriesFail(es[1..], indent, outer, cfg, rest);
      EntryValueReadsBack(es[0], indent, cfg, behind);
      EntryRoundTrip(es[0], indent, cfg, behind);
      SkipNothing(text);
      SkipNothing(Skip(behind));
      OneEntry(text, ReadEntry(es[0]), Skip(behind), RightBrace);
    }
  }

  lemma {:induction false} StrayEndsEntries(text: Input)
    requires (Opens(Peek(text)) || Peek(text) == LeftParen) && Strays(ParseEntry(text))
    ensures ParseMoreEntries(text, RightBrace).Err?
  {
    hide ParseEntry, Skip;
  }

  lemma {:induction false} GroupFails(g: GroupExpression, indent: nat, cfg: FormatConfig, rest: Input)
    requires (forall e | e in g.entries :: HasFaithfulParts(e)) && (exists e | e in g.entries :: !ReadableEntry(e))
    ensures ParseType(PrintType(Group(g), indent, cfg, rest)).Err?
  {
    hide PrintEntries, ParseMoreEntries, ParseType, Spaces, Skip, ReadableEntry, HasFaithfulParts, MapAhead, PrintGroup;
    var inner := indent + cfg.indentSize;
    var close := Spaces(indent, [RightBrace] + rest);
    var entries := PrintEntries(g.entries, inner, cfg, close);
    EntriesFail(g.entries, inner, indent, cfg, rest);
    GroupText(g, indent, cfg, rest);
    SkipOne(LeftBrace, [Newline] + entries);
    SkipOne(Newline, entries);
    GroupLooksLikeGroup(g, indent, cfg, rest);
    BraceFails(PrintGroup(g, indent, cfg, rest));
  }

  lemma GroupText(g: GroupExpression, indent: nat, cfg: FormatConfig, rest: Input)
    requires g.entries != []
    ensures PrintGroup(g, indent, cfg, rest)
         == [LeftBrace] + ([Newline]
              + PrintEntries(g.entries, indent + cfg.indentSize, cfg, Spaces(indent, [RightBrace] + rest)))
    ensures PrintType(Group(g), indent, cfg, rest) == PrintGroup(g, indent, cfg, rest)
  {
    hide PrintEntries, Spaces;
  }

  lemma {:induction false} GroupReads(g: GroupExpression, indent: nat, cfg: FormatConfig, rest: Input)
    requires (forall e | e in g.entries :: ReadableEntry(e)) && EndsType(rest)
    ensures ParseType(PrintType(Group(g), indent, cfg, rest))
         == Ok((Group(GroupExpression(ReadEntries(g.entries))), Skip(rest)))
  {
    hide PrintGroup, ParseGroup, ParseType, Skip, EndsType, MapAhead, ReadableEntry, ReadEntries;
    GroupLooksLikeGroup(g, indent, cfg, rest);
    GroupOpens(g, indent, cfg, rest);
    GroupRoundTrip(g, indent, cfg, rest);
    BraceReads(PrintGroup(g, indent, cfg, rest), Group(GroupExpression(ReadEntries(g.entries))), rest);
  }

  lemma {:induction false} BraceReads(text: Input, t: TypeExpression, rest: Input)
    requires Peek(text) == LeftBrace && !MapAhead(text) && ParseGroup(text) == Ok((t, rest)) && EndsType(rest)
    ensures ParseType(text) == Ok((t, Skip(rest)))
  {
    hide ParseMap, ParseGroup, MapAhead, ParseControls, Skip;
    assert ParseBase(text) == Ok((t, rest));
    NoControls(rest);
    assert ParsePrimary(text) == Ok((t, Skip(rest)));
  }

  /** A printed entry that is read comes back exactly when it is faithful. */
  lemma {:induction false} EntryComesBack(e: GroupEntry)
    requires ReadableEntry(KeptEntry(e))
    ensures ReadEntry(KeptEntry(e)) == e <==> FaithfulEntry(e)
  {
    hide Faithful, Kept, LexesAnnotation, ReadableAnnotation, FaithfulAnnotation, ReadAnnotation, ReadAnnotations,
      IsLiteralType, IsKeyName, KeptKey;
    if FaithfulEntry(e) {
      EntryIsKept(e);
      FaithfulIsReadable(e);
    } else if ReadEntry(KeptEntry(e)) == e {
      assert KeptEntry(e).(metadata := []) == e.(metadata := []);
      AnnotationsComeBack(e.metadata);
    }
  }

  /** A group is read exactly when no entry has a type or bytes for a key, a count behind its key, an
      occurrence behind a literal key, or an annotation that is not readable. What is read has its
      annotations as they are read; it is the group itself exactly when its entries are faithful. */
  lemma {:induction false} GroupIsRead(es: seq<GroupEntry>, indent: nat, cfg: FormatConfig, rest: Input)
    requires (forall e | e in es :: HasFaithfulParts(KeptEntry(e))) && EndsType(rest)
    ensures var r := ParseType(PrintType(Group(GroupExpression(es)), indent, cfg, rest));
            && (if forall e | e in es :: ReadableEntry(KeptEntry(e)) then
                  r == Ok((Group(GroupExpression(ReadEntries(KeptEntries(es)))), Skip(rest)))
                else r.Err?)
            && (r == Ok((Group(GroupExpression(es)), Skip(rest))) <==> forall e | e in es :: FaithfulEntry(e))
  {
    hide ParseType, PrintType, Skip, EndsType, KeptEntry, FaithfulEntry, HasFaithfulParts, ReadableEntry, ReadEntry;
    var kept := KeptEntries(es);
    KeptEntryAt(es);
    KeptText(Group(GroupExpression(es)), indent, cfg, rest);
    if forall e | e in es :: ReadableEntry(KeptEntry(e)) {
      assert forall e | e in kept :: ReadableEntry(e);
      GroupReads(GroupExpression(kept), indent, cfg, rest);
      EntriesComeBack(es);
    } else {
      var k :| 0 <= k < |es| && !ReadableEntry(KeptEntry(es[k]));
      assert kept[k] in kept;
      GroupFails(GroupExpression(kept), indent, cfg, rest);
      if FaithfulEntry(es[k]) {
        EntryIsKept(es[k]);
        FaithfulIsReadable(es[k]);
      }
      assert es[k] in es && !FaithfulEntry(es[k]);
    }
  }

  lemma {:induction false} EntriesComeBack(es: seq<GroupEntry>)
    requires forall e | e in es :: ReadableEntry(KeptEntry(e))
    ensures ReadEntries(KeptEntries(es)) == es <==> forall e | e in es :: FaithfulEntry(e)
    decreases |es|
  {
    hide KeptEntry, FaithfulEntry, ReadableEntry, ReadEntry;
    if es != [] {
      EntryComesBack(es[0]);
      EntriesComeBack(es[1..]);
      assert KeptEntries(es)[1..] == KeptEntries(es[1..]);
      assert ReadEntries(KeptEntries(es))[1..] == ReadEntries(KeptEntries(es[1..]));
      assert es == [es[0]] + es[1..];
    }
  }

  lemma {:induction false} KeptEntryAt(es: seq<GroupEntry>)
    ensures forall k | 0 <= k < |es| :: KeptEntries(es)[k] == KeptEntry(es[k])
    decreases |es|
  {
    hide KeptEntry;
    if es != [] {
      KeptEntryAt(es[1..]);
    }
  }
}
