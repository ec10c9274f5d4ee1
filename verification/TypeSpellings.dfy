/** Spellings the formatter never uses: the parser reads them as the same trees. */
module TypeSpellings {
  import opened Bytes
  import opened Ast
  import opened Tokens
  import opened AnnotationParser
  import opened AnnotationPrinter
  import opened ConditionRoundTrip
  import opened AnnotationRoundTrip
  import opened TypeParser
  import opened TypePrinter
  import opened TypeRoundTrip
  import opened TypeScan

  /** Parentheses around a type change nothing, except that what follows them, white space
      included, is left alone. */
  lemma {:induction false} Parenthesized(t: TypeExpression, indent: nat, cfg: FormatConfig, rest: Input)
    requires Faithful(t) && !IsChoiceMark(Peek(rest)) && !IsRangeMark(Peek(rest))
    ensures ParseType([LeftParen] + PrintType(t, indent, cfg, [RightParen] + rest)) == Ok((t, rest))
  {
    hide PrintType, Faithful, Skip, KeyAhead, ParseType, ReadsBack, EndsType;
    var text := PrintType(t, indent, cfg, [RightParen] + rest);
    PrimaryInParens(t, indent, cfg, rest);
    SkipOne(LeftParen, text);
    PrimaryAlone([LeftParen] + text);
  }

  lemma {:induction false} PrimaryInParens(t: TypeExpression, indent: nat, cfg: FormatConfig, rest: Input)
    requires Faithful(t)
    ensures ParsePrimary([LeftParen] + PrintType(t, indent, cfg, [RightParen] + rest)) == Ok((t, rest))
  {
    hide PrintType, Faithful, Skip, KeyAhead, ParseType, EndsType;
    var text := PrintType(t, indent, cfg, [RightParen] + rest);
    DelimiterEnds(RightParen, rest);
    SkipOne(LeftParen, text);
    TypeOpens(t, indent, cfg, [RightParen] + rest);
    SkipNothing(text);
    NoKeyAhead(t, indent, cfg, [RightParen] + rest);
    TypeReadsBack(t, indent, cfg, [RightParen] + rest);
  }

  lemma {:induction false} PrimaryAlone(ts: Input)
    requires !IsRangeMark(Peek(ts)) && ParsePrimary(ts).Ok?
    requires var left := ParsePrimary(ts).value.1; !IsChoiceMark(Peek(left)) && !IsRangeMark(Peek(left))
    ensures ParseType(ts) == ParsePrimary(ts)
  {
    hide ParsePrimary;
  }

  /** `(key: type, ...)` is the group `{key: type, ...}`. */
  lemma {:induction false} GroupInParens(es: seq<GroupEntry>, indent: nat, cfg: FormatConfig, rest: Input)
    requires es != [] && (forall e | e in es :: ReadableEntry(e)) && es[0].key.Some?
    ensures ParsePrimary([LeftParen] + PrintEntries(es, indent, cfg, [RightParen] + rest))
         == Ok((Group(GroupExpression(ReadEntries(es))), rest))
  {
    hide PrintEntries, PrintEntry, ReadableEntry, ReadEntry, Skip, KeyAhead, ParseMoreEntries, Spaces, EndsEntry;
    var close := [RightParen] + rest;
    var text := PrintEntries(es, indent, cfg, close);
    SkipOne(LeftParen, text);
    DelimiterEnds(RightParen, rest);
    EntriesUnfold(es, indent, cfg, close);
    var more := PrintEntries(es[1..], indent, cfg, close);
    var comma := |es| > 1 || cfg.trailingCommas;
    var behind := PrintComma(comma, [Newline] + more);
    var first := PrintEntry(es[0], indent, cfg, behind);
    NoSpaces(close);
    EntriesRoundTrip(es, indent, 0, cfg, RightParen, rest);
    if comma {
      DelimiterEnds(Comma, [Newline] + more);
    } else {
      NoEntries(es[1..], indent, cfg, close);
      LineEnds(0, RightParen, rest);
    }
    SkipSpaces(indent, first);
    KeyedEntryAhead(es[0], indent, cfg, behind);
    SkipNothing(first);
  }

  lemma NoSpaces(rest: Input)
    ensures Spaces(0, rest) == rest
  {
  }

  lemma {:induction false} KeyedEntryAhead(e: GroupEntry, indent: nat, cfg: FormatConfig, rest: Input)
    requires ReadableEntry(e) && EndsEntry(rest) && e.key.Some?
    ensures KeyAhead(PrintEntry(e, indent, cfg, rest)) && !IsTrivia(Peek(PrintEntry(e, indent, cfg, rest)))
  {
    hide PrintEntry, KeyAhead, EndsType, ColonAhead, Faithful, PrintAnnotations, TypeParser.ParseKey, LexesAnnotation,
      ReadableAnnotation;
    AnnotationsEndValue(e.metadata, rest);
    EntryKey(e, indent, cfg, rest);
  }

  // ---- optional fields and annotations --------------------------------------------------------------

  function FieldOf(
      name: string, t: TypeExpression, occurrence: Option<Occurrence>, metadata: seq<Annotation>): GroupEntry
  {
    GroupEntry(Some(Bare(name)), t, occurrence, metadata, [])
  }

  /** Printed annotations that are read, as `ReadAnnotations` of them. */
  predicate AreAllRead(metadata: seq<Annotation>) {
    forall a | a in metadata :: LexesAnnotation(a) && ReadableAnnotation(a)
  }

  /** `? name: type`, `name?: type` and `name: type ?` are the same optional field, whatever annotations
      it has. */
  lemma {:induction false} OptionalSpellings(
      name: string, t: TypeExpression, metadata: seq<Annotation>, indent: nat, cfg: FormatConfig, rest: Input)
    requires IsKeyName(name) && Faithful(t) && AreAllRead(metadata) && EndsEntry(rest)
    ensures var field := FieldOf(name, t, Some(Occurrence.Optional), metadata);
            var plain := FieldOf(name, t, None, metadata);
            var behind := [SPACE] + ([Token.Optional] + PrintAnnotations(metadata, rest));
            var read := Ok((field.(metadata := ReadAnnotations(metadata)), Skip(rest)));
            && ParseEntry(PrintEntry(field, indent, cfg, rest)) == read
            && ParseEntry([Token.Optional] + ([SPACE] + PrintEntry(plain, indent, cfg, rest))) == read
            && ParseEntry(PrintEntry(plain.(metadata := []), indent, cfg, behind)) == read
  {
    hide *;
    OptionalBehindKey(name, t, metadata, indent, cfg, rest);
    OptionalBeforeKey(name, t, metadata, indent, cfg, rest);
    OptionalBehindValue(name, t, metadata, indent, cfg, rest);
    assert FieldOf(name, t, None, metadata).(metadata := []) == FieldOf(name, t, None, [])
        && FieldOf(name, t, Some(Occurrence.Optional), metadata).(metadata := ReadAnnotations(metadata))
             == FieldOf(name, t, Some(Occurrence.Optional), ReadAnnotations(metadata))
    by { FieldParts(name, t, metadata, ReadAnnotations(metadata)); }
  }

  lemma FieldParts(name: string, t: TypeExpression, a: seq<Annotation>, b: seq<Annotation>)
    ensures FieldOf(name, t, None, a).(metadata := []) == FieldOf(name, t, None, [])
    ensures FieldOf(name, t, Some(Occurrence.Optional), a).(metadata := b)
         == FieldOf(name, t, Some(Occurrence.Optional), b)
  {
  }

  lemma {:induction false} OptionalBehindKey(
      name: string, t: TypeExpression, metadata: seq<Annotation>, indent: nat, cfg: FormatConfig, rest: Input)
    requires IsKeyName(name) && Faithful(t) && AreAllRead(metadata) && EndsEntry(rest)
    ensures ParseEntry(PrintEntry(FieldOf(name, t, Some(Occurrence.Optional), metadata), indent, cfg, rest))
         == Ok((FieldOf(name, t, Some(Occurrence.Optional), ReadAnnotations(metadata)), Skip(rest)))
  {
    hide PrintEntry, ParseEntry, Faithful, EndsType, ReadsBack, ColonAhead, Skip, PrintAnnotations, LexesAnnotation,
      ReadableAnnotation, ReadAnnotations;
    var f := FieldOf(name, t, Some(Occurrence.Optional), metadata);
    AnnotationsEndValue(metadata, rest);
    TypeReadsBack(t, indent, cfg, PrintAnnotations(metadata, rest));
    EntryRoundTrip(f, indent, cfg, rest);
  }

  /** The key part of the plain field, whatever follows its value. */
  lemma {:induction false} PlainKey(name: string, value: Input)
    requires IsKeyName(name) && !IsTrivia(Peek(value))
    ensures var text := PrintName(name, [Colon] + ([SPACE] + value));
            && !IsTrivia(Peek(text)) && Peek(text) != Token.Optional && !Peek(text).At?
            && ParseOptionalKey(text) == Ok(((Some(Bare(name)), None), [SPACE] + value))
            && Skip([SPACE] + value) == value
  {
    hide KeyAhead, TypeParser.ParseKey, PrintName, Skip, Word;
    KeyWord(name, false, value);
    WholeName(name, [Colon] + ([SPACE] + value));
  }

  lemma {:induction false} OptionalBeforeKey(
      name: string, t: TypeExpression, metadata: seq<Annotation>, indent: nat, cfg: FormatConfig, rest: Input)
    requires IsKeyName(name) && Faithful(t) && AreAllRead(metadata) && EndsEntry(rest)
    ensures ParseEntry([Token.Optional] + ([SPACE] + PrintEntry(FieldOf(name, t, None, metadata), indent, cfg, rest)))
         == Ok((FieldOf(name, t, Some(Occurrence.Optional), ReadAnnotations(metadata)), Skip(rest)))
  {
    hide PrintType, PrintName, ParseType, ParseOptionalKey, Faithful, EndsType, ColonAhead, Skip, PrintAnnotations,
      LexesAnnotation, ReadableAnnotation, ReadAnnotations, ParseAnnotations, PrintEntry;
    var behind := PrintAnnotations(metadata, rest);
    var value := PrintType(t, indent, cfg, behind);
    var text := PrintName(name, [Colon] + ([SPACE] + value));
    PlainText(name, t, metadata, indent, cfg, rest);
    AnnotationsEndValue(metadata, rest);
    TypeOpens(t, indent, cfg, behind);
    PlainKey(name, value);
    TypeReadsBack(t, indent, cfg, behind);
    AnnotationsRoundTrip(metadata, rest);
    SkipOne(Token.Optional, [SPACE] + text);
    SkipOne(SPACE, text);
    SkipNothing(text);
    SkipNothing(Skip(behind));
    NoneHere([Token.Optional] + ([SPACE] + text));
    assert [] + ReadAnnotations(metadata) == ReadAnnotations(metadata);
  }

  lemma PlainText(
      name: string, t: TypeExpression, metadata: seq<Annotation>, indent: nat, cfg: FormatConfig, rest: Input)
    ensures PrintEntry(FieldOf(name, t, None, metadata), indent, cfg, rest)
         == PrintName(name, [Colon] + ([SPACE] + PrintType(t, indent, cfg, PrintAnnotations(metadata, rest))))
  {
    hide PrintType, PrintName, PrintAnnotations;
    KeyText(FieldOf(name, t, None, metadata), indent, cfg, rest);
    assert name + "" == name;
  }

  lemma NoneBehind(rest: Input)
    ensures PrintAnnotations([], rest) == rest
  {
  }

  lemma NoneHere(ts: Input)
    requires !Peek(ts).At?
    ensures ParseAnnotations(ts) == Ok(([], ts))
  {
  }

  lemma {:induction false} OptionalBehindValue(
      name: string, t: TypeExpression, metadata: seq<Annotation>, indent: nat, cfg: FormatConfig, rest: Input)
    requires IsKeyName(name) && Faithful(t) && AreAllRead(metadata) && EndsEntry(rest)
    ensures var behind := [SPACE] + ([Token.Optional] + PrintAnnotations(metadata, rest));
            ParseEntry(PrintEntry(FieldOf(name, t, None, []), indent, cfg, behind))
              == Ok((FieldOf(name, t, Some(Occurrence.Optional), ReadAnnotations(metadata)), Skip(rest)))
  {
    hide PrintType, PrintName, ParseType, ParseOptionalKey, Faithful, Skip, LexesAnnotation, ReadableAnnotation,
      ReadAnnotations, ParseAnnotations, PrintEntry, PrintAnnotations;
    var annotations := PrintAnnotations(metadata, rest);
    var mark := [SPACE] + ([Token.Optional] + annotations);
    var value := PrintType(t, indent, cfg, mark);
    var text := PrintName(name, [Colon] + ([SPACE] + value));
    PlainText(name, t, [], indent, cfg, mark);
    NoneBehind(mark);
    SkipOne(SPACE, [Token.Optional] + annotations);
    SkipOne(Token.Optional, annotations);
    TypeOpens(t, indent, cfg, mark);
    PlainKey(name, value);
    TypeReadsBack(t, indent, cfg, mark);
    AnnotationsRoundTrip(metadata, rest);
    SkipNothing(text);
    SkipNothing([Token.Optional] + annotations);
    NoneHere(text);
    assert [] + ReadAnnotations(metadata) == ReadAnnotations(metadata);
  }

  /** Annotations in front of an entry. */
  function Leading(metadata: seq<Annotation>, rest: Input): Input {
    if metadata == [] then rest else PrintAnnotation(metadata[0], [SPACE] + Leading(metadata[1..], rest))
  }

  /** Annotations may stand before an entry or behind it: the entry has them all, in order. */
  lemma {:induction false} AnnotationsAround(
      e: GroupEntry, before: seq<Annotation>, indent: nat, cfg: FormatConfig, rest: Input)
    requires ReadableEntry(e) && AreAllRead(before) && EndsEntry(rest)
    ensures ParseEntry(Leading(before, PrintEntry(e, indent, cfg, rest)))
         == Ok((e.(metadata := ReadAnnotations(before) + ReadAnnotations(e.metadata)), Skip(rest)))
  {
    hide PrintType, PrintEntry, ParseType, ParseOptionalKey, Skip, Faithful, EndsType, ColonAhead, PrintAnnotations,
      LexesAnnotation, ReadableAnnotation, ReadAnnotations, Leading, ParseAnnotations;
    var text := PrintEntry(e, indent, cfg, rest);
    var behind := PrintAnnotations(e.metadata, rest);
    AnnotationsEndValue(e.metadata, rest);
    EntryKey(e, indent, cfg, rest);
    TypeReadsBack(e.valueType, indent, cfg, behind);
    AnnotationsRoundTrip(e.metadata, rest);
    SkipNothing(Skip(behind));
    LeadingRead(before, text);
  }

  lemma {:induction false} LeadingRead(metadata: seq<Annotation>, rest: Input)
    requires AreAllRead(metadata) && Skip(rest) == rest && !Peek(rest).At?
    ensures var text := Leading(metadata, rest);
            Skip(text) == text && ParseAnnotations(text) == Ok((ReadAnnotations(metadata), rest))
    decreases |metadata|
  {
    hide Skip, PrintAnnotation, ParseAnnotation, LexesAnnotation, ReadableAnnotation, ReadAnnotation;
    if metadata != [] {
      var more := Leading(metadata[1..], rest);
      var text := PrintAnnotation(metadata[0], [SPACE] + more);
      LeadingRead(metadata[1..], rest);
      AnnotationReads(metadata[0], [SPACE] + more);
      SkipOne(Peek(text), text[1..]);
      SkipOne(SPACE, more);
    }
  }

  // ---- choices, operands and keys --------------------------------------------------------------------

  /** Further arms, each behind the mark of its index. */
  function WriteArms(arms: seq<TypeExpression>, marks: seq<Token>, indent: nat, cfg: FormatConfig, rest: Input): Input
    requires |marks| == |arms|
  {
    if arms == [] then rest
    else
      [SPACE] + ([marks[0]] + ([SPACE]
        + PrintType(arms[0], indent, cfg, WriteArms(arms[1..], marks[1..], indent, cfg, rest))))
  }

  predicate AreChoiceMarks(marks: seq<Token>) {
    forall i :: 0 <= i < |marks| ==> marks[i] == Slash || marks[i] == DoubleSlash
  }

  lemma {:induction false} WrittenArmsRead(
      first: TypeExpression, arms: seq<TypeExpression>, marks: seq<Token>, indent: nat, cfg: FormatConfig, rest: Input)
    requires FaithfulArms([first] + arms) && EndsType(rest)
    requires |marks| == |arms| && AreChoiceMarks(marks)
    ensures var more := WriteArms(arms, marks, indent, cfg, rest);
            var read := ParsePrimary(PrintType(first, indent, cfg, more));
            && read.Ok? && read.value.0 == first
            && (arms == [] ==> read.value.1 == Skip(rest))
            && (arms != [] ==>
                  IsChoiceMark(Peek(read.value.1)) && ParseArms(read.value.1[1..]) == Ok((arms, Skip(rest))))
    decreases |arms|
  {
    hide ParsePrimary, Skip, IsControl, Faithful, PrintType, OpenEnded, EndsType;
    var more := WriteArms(arms, marks, indent, cfg, rest);
    ArmParts(first, arms);
    TypeEndsPrimary(rest);
    if arms == [] {
      assert more == rest;
      PrimaryRoundTrip(first, indent, cfg, rest);
    } else {
      var tail := WriteArms(arms[1..], marks[1..], indent, cfg, rest);
      var text := PrintType(arms[0], indent, cfg, tail);
      assert [arms[0]] + arms[1..] == arms;
      MarkEndsPrimary(marks[0], [SPACE] + text);
      PrimaryRoundTrip(first, indent, cfg, more);
      WrittenArmsRead(arms[0], arms[1..], marks[1..], indent, cfg, rest);
      TypeOpens(arms[0], indent, cfg, tail);
      OpensIsNoTrivia();
      SkipOne(SPACE, text);
      SkipNothing(text);
      assert ([marks[0]] + ([SPACE] + text))[1..] == [SPACE] + text;
      if arms[1..] == [] {
        assert arms == [arms[0]];
      }
      assert ParseArms([SPACE] + text) == Ok((arms, Skip(rest)));
    }
  }

  lemma ArmParts(first: TypeExpression, arms: seq<TypeExpression>)
    requires FaithfulArms([first] + arms)
    ensures Faithful(first) && !first.Choice? && FaithfulArms(arms) && (arms != [] ==> !OpenEnded(first))
    ensures arms != [] ==> Faithful(arms[0])
  {
    hide Faithful, OpenEnded;
    assert ([first] + arms)[1..] == arms;
  }

  lemma TypeEndsPrimary(rest: Input)
    requires EndsType(rest)
    ensures EndsPrimary(rest) && !IsChoiceMark(Peek(Skip(rest)))
  {
  }

  lemma MarkEndsPrimary(mark: Token, rest: Input)
    requires mark == Slash || mark == DoubleSlash
    ensures EndsPrimary([SPACE] + ([mark] + rest)) && Skip([SPACE] + ([mark] + rest)) == [mark] + rest
  {
    hide Skip;
    SkipOne(SPACE, [mark] + rest);
    SkipOne(mark, rest);
  }

  /** `//` separates the arms of a choice as `/` does. */
  lemma {:induction false} EitherMarkSeparates(
      arms: seq<TypeExpression>, marks: seq<Token>, indent: nat, cfg: FormatConfig, rest: Input)
    requires |arms| >= 2 && FaithfulArms(arms) && EndsType(rest)
    requires |marks| == |arms| - 1 && AreChoiceMarks(marks)
    ensures ParseType(PrintType(arms[0], indent, cfg, WriteArms(arms[1..], marks, indent, cfg, rest)))
         == Ok((Choice(arms), Skip(rest)))
  {
    hide ParsePrimary, Skip, FaithfulArms, PrintType, EndsType, WriteArms, Faithful;
    var more := WriteArms(arms[1..], marks, indent, cfg, rest);
    assert [arms[0]] + arms[1..] == arms;
    WrittenArmsRead(arms[0], arms[1..], marks, indent, cfg, rest);
    ArmParts(arms[0], arms[1..]);
    TypeOpens(arms[0], indent, cfg, more);
  }

  /** A lone size may stand in parentheses, bits may be a text, and a negative number is taken for the
      unsigned one with its bits. */
  lemma {:induction false} OperandSpellings(i: i64, s: string, rest: Input)
    ensures ParseControl([SizeControl] + ([SPACE] + ([LeftParen] + ([Token.Integer(i)] + ([RightParen] + rest)))))
         == Ok((Size(ExactSize(if i < 0 then 0x1_0000_0000_0000_0000 + i else i)), rest))
    ensures ParseControl([BitsControl] + ([SPACE] + ([TextString(s)] + rest))) == Ok((Bits(s), rest))
  {
    hide Skip, ParseLiteral, ParseType, ParseWordControl, ParseSizeInParens, Consume;
    var close := [RightParen] + rest;
    var inner := [Token.Integer(i)] + close;
    SkipOne(SizeControl, [SPACE] + ([LeftParen] + inner));
    SkipOne(SPACE, [LeftParen] + inner);
    SkipOne(LeftParen, inner);
    LoneSize(i, rest);
    SkipOne(BitsControl, [SPACE] + ([TextString(s)] + rest));
    SkipOne(SPACE, [TextString(s)] + rest);
    TextBits(s, rest);
  }

  lemma LoneSize(i: i64, rest: Input)
    ensures var inner := [Token.Integer(i)] + ([RightParen] + rest);
            Skip(inner) == inner
            && SizeAndParen(inner) == Ok((ExactSize(if i < 0 then 0x1_0000_0000_0000_0000 + i else i), rest))
  {
    hide Skip;
    SkipOne(Token.Integer(i), [RightParen] + rest);
    SkipOne(RightParen, rest);
  }

  lemma TextBits(s: string, rest: Input)
    ensures var text := [TextString(s)] + rest;
            Skip(text) == text && ParseWordControl(BitsControl, text) == Ok((Bits(s), rest))
  {
    assert ([TextString(s)] + rest)[1..] == rest;
  }

  /** An array or tuple in front of a colon is a type-shaped key. */
  lemma {:induction false} BracketedKey(
      key: TypeExpression, value: TypeExpression, indent: nat, cfg: FormatConfig, rest: Input)
    requires Faithful(key) && (key.Array? || key.Tuple?) && Faithful(value) && EndsEntry(rest)
    ensures ParseEntry(PrintType(key, indent, cfg, [Colon] + ([SPACE] + PrintType(value, indent, cfg, rest))))
         == Ok((GroupEntry(Some(TypeKey(key)), value, None, [], []), Skip(rest)))
  {
    hide PrintType, ParseType, Skip, Faithful, EndsType, ColonAhead, KeyAhead, TypeParser.ParseKey;
    var val := PrintType(value, indent, cfg, rest);
    var colon := [Colon] + ([SPACE] + val);
    var text := PrintType(key, indent, cfg, colon);
    SkipOne(Colon, [SPACE] + val);
    SkipOne(SPACE, val);
    TypeOpens(value, indent, cfg, rest);
    OpensIsNoTrivia();
    SkipNothing(val);
    BracketedOpens(key, indent, cfg, colon);
    SkipNothing(text);
    NoneHere(text);
    ColonEndsType([SPACE] + val);
    TypeReadsBack(key, indent, cfg, colon);
    BracketKeyRead(text, key, [SPACE] + val);
    TypeReadsBack(value, indent, cfg, rest);
    SkipNothing(Skip(rest));
    NoneHere(Skip(rest));
    var none: seq<Annotation> := [];
    assert none + none == none;
  }

  lemma ColonEndsType(rest: Input)
    ensures EndsType([Colon] + rest)
  {
    hide Skip;
    SkipOne(Colon, rest);
  }

  lemma BracketedOpens(key: TypeExpression, indent: nat, cfg: FormatConfig, rest: Input)
    requires (key.Array? || key.Tuple?) && Peek(rest) == Colon
    ensures Peek(PrintType(key, indent, cfg, rest)) == LeftBracket && KeyAhead(PrintType(key, indent, cfg, rest))
  {
    hide PrintType, PrintMembers, BehindBracket, Stop, Next;
    var inner := if key.Array? then PrintType(key.element, indent, cfg, [RightBracket] + rest)
                 else PrintMembers(key.group.entries, indent, cfg, [RightBracket] + rest);
    assert PrintType(key, indent, cfg, rest) == [LeftBracket] + inner by { BracketText(key, indent, cfg, rest); }
    if key.Array? {
      PassType(Bracket(1), key.element, indent, cfg, [RightBracket] + rest);
    } else {
      PassMembers(Bracket(1), key.group.entries, indent, cfg, [RightBracket] + rest);
    }
    BehindOneBracket(inner, rest);
  }

  lemma BracketText(key: TypeExpression, indent: nat, cfg: FormatConfig, rest: Input)
    requires key.Array? || key.Tuple?
    ensures PrintType(key, indent, cfg, rest)
         == [LeftBracket] + if key.Array? then PrintType(key.element, indent, cfg, [RightBracket] + rest)
                            else PrintMembers(key.group.entries, indent, cfg, [RightBracket] + rest)
  {
    hide PrintMembers;
  }

  lemma {:induction false} BracketKeyRead(text: Input, key: TypeExpression, behind: Input)
    requires Peek(text) == LeftBracket && KeyAhead(text) && ParseType(text) == Ok((key, [Colon] + behind))
    ensures ParseOptionalKey(text) == Ok(((Some(TypeKey(key)), None), behind))
  {
    hide ParseType, KeyAhead, Skip;
    SkipOne(Colon, behind);
  }

  // ---- occurrences --------------------------------------------------------------------------------------

  /** An occurrence without a lower bound starts at zero. */
  function Explicit(occurrence: Occurrence): Occurrence {
    match occurrence
    case Between(None, None) => Occurrence.ZeroOrMore
    case Between(None, Some(max)) => Between(Some(0), Some(max))
    case _ => occurrence
  }

  predicate InRange(occurrence: Occurrence) {
    match occurrence
    case Exact(n) => Unsigned(n).Integer?
    case Between(min, max) =>
      (min.Some? ==> Unsigned(min.value).Integer?) && (max.Some? ==> Unsigned(max.value).Integer?)
    case _ => true
  }

  /** Every occurrence as it is printed behind a group key is one the parser reads in front of an
      array member, and reads back as itself. */
  lemma {:induction false} OccurrenceRoundTrip(occurrence: Occurrence, rest: Input)
    requires InRange(occurrence) && !Peek(rest).Integer? && Peek(rest) != Token.ZeroOrMore
    ensures var text := PrintOccurrence(Some(occurrence), rest);
            IsOccurrence(Peek(text)) && ReadOccurrence(text) == (Explicit(occurrence), rest)
  {
    match occurrence {
      case Between(min, max) => BoundsRoundTrip(min, max, rest);
      case _ =>
    }
  }

  lemma {:induction false} BoundsRoundTrip(min: Option<u64>, max: Option<u64>, rest: Input)
    requires InRange(Between(min, max)) && !Peek(rest).Integer? && Peek(rest) != Token.ZeroOrMore
    ensures var text := PrintOccurrence(Some(Between(min, max)), rest);
            IsOccurrence(Peek(text)) && ReadOccurrence(text) == (Explicit(Between(min, max)), rest)
  {
    hide ReadOccurrence;
    if max.Some? {
      Starred(min, [Token.Integer(max.value)] + rest);
      BoundedStar(min, max.value, rest);
    } else {
      assert [] + rest == rest;
      Starred(min, rest);
      OpenStar(min, rest);
    }
  }

  function Star(min: Option<u64>, tail: Input): Input {
    if min.Some? then [Unsigned(min.value)] + ([Token.ZeroOrMore] + tail) else [Token.ZeroOrMore] + tail
  }

  lemma Starred(min: Option<u64>, tail: Input)
    ensures (if min.Some? then [Unsigned(min.value)] else []) + ([Token.ZeroOrMore] + tail) == Star(min, tail)
  {
    hide Unsigned;
  }

  lemma {:induction false} BoundedStar(min: Option<u64>, max: u64, rest: Input)
    requires (min.Some? ==> Unsigned(min.value).Integer?) && Unsigned(max).Integer?
    ensures var text := Star(min, [Token.Integer(max)] + rest);
            IsOccurrence(Peek(text))
            && ReadOccurrence(text) == (Between(Some(if min.Some? then min.value else 0), Some(max)), rest)
  {
    var tail := [Token.Integer(max)] + rest;
    var starred := [Token.ZeroOrMore] + tail;
    assert tail[1..] == rest && starred[1..] == tail && starred[2..] == rest;
    if min.Some? {
      var text := [Token.Integer(min.value)] + starred;
      assert text[1..] == starred && text[2..] == tail && text[3..] == rest;
    }
  }

  lemma {:induction false} OpenStar(min: Option<u64>, rest: Input)
    requires (min.Some? ==> Unsigned(min.value).Integer?) && !Peek(rest).Integer?
    ensures var text := Star(min, rest);
            IsOccurrence(Peek(text))
            && ReadOccurrence(text) == (if min.Some? then Between(min, None) else Occurrence.ZeroOrMore, rest)
  {
    var starred := [Token.ZeroOrMore] + rest;
    assert starred[1..] == rest;
    if min.Some? {
      var text := [Token.Integer(min.value)] + starred;
      assert text[1..] == starred && text[2..] == rest;
    }
  }

  // ---- ranges -----------------------------------------------------------------------------------------------

  predicate IsNumber(lit: LiteralValue) {
    lit.Integer? || lit.Float?
  }

  predicate IsNumeral(t: Token) {
    t.Integer? || t.Float?
  }

  /** A number, given what the bits of a float stand for. */
  function Number(lit: LiteralValue, float: nat -> real): real
    requires IsNumber(lit)
  {
    if lit.Integer? then lit.i as real else float(lit.bits)
  }

  /** Which numbers satisfy bounds on numbers. */
  predicate Meets(x: real, ops: seq<ControlOperator>, float: nat -> real) {
    forall op | op in ops && op.WithLiteral? && IsNumber(op.value) ::
      match op.op
      case GreaterEqual => x >= Number(op.value, float)
      case LessEqual => x <= Number(op.value, float)
      case LessThan => x < Number(op.value, float)
      case _ => true
  }

  function Bound(bound: Option<LiteralValue>, rest: Input): Input {
    if bound.Some? then PrintLiteral(bound.value, rest) else rest
  }

  predicate AreBounds(start: Option<LiteralValue>, end: Option<LiteralValue>) {
    (start.Some? || end.Some?) && (start.Some? ==> IsNumber(start.value)) && (end.Some? ==> IsNumber(end.value))
  }

  /** `a..b`, `a..` and `..b` are the numbers from `a` to `b` inclusive; `...` leaves `b` out. They are
      integers unless a bound is a float. */
  lemma {:induction false} RangesMean(
      start: Option<LiteralValue>, end: Option<LiteralValue>, exclusive: bool, rest: Input)
      returns (t: TypeExpression)
    requires AreBounds(start, end)
    requires end.None? ==> !IsNumeral(Peek(Skip(rest)))
    ensures var mark := if exclusive then Token.RangeInclusive else Token.Range;
            ParseType(Bound(start, [mark] + Bound(end, rest))) == Ok((t, if end.Some? then rest else Skip(rest)))
    ensures var floats := (start.Some? && start.value.Float?) || (end.Some? && end.value.Float?);
            t.Constrained? && t.base == TypeExpression.Builtin(if floats then "float" else "int")
    ensures forall x, float :: Meets(x, t.constraints, float) <==>
              (start.Some? ==> Number(start.value, float) <= x)
              && (end.Some? ==> if exclusive then x < Number(end.value, float) else x <= Number(end.value, float))
  {
    hide ParsePrimary, Meets, Skip, RangeType, TypeParser.ParseRange, Number;
    var mark := if exclusive then Token.RangeInclusive else Token.Range;
    var tail := [mark] + Bound(end, rest);
    RangeRead(start, end, exclusive, rest);
    if start.Some? {
      LoneNumber(start.value, tail);
    }
    t := RangeType(start, end, exclusive);
    RangeBounds(start, end, exclusive);
  }

  lemma {:induction false} LoneNumber(lit: LiteralValue, tail: Input)
    requires IsNumber(lit) && !IsTrivia(Peek(tail)) && !IsControl(Peek(tail))
    ensures ParsePrimary(PrintLiteral(lit, tail)) == Ok((Literal(lit), tail))
    ensures Peek(PrintLiteral(lit, tail)).Integer? || Peek(PrintLiteral(lit, tail)).Float?
  {
    hide Skip, KeyAhead, ParseType, ParseControls, ParseArray, ParseMap, ParseGroup, MapAhead, ParseDotted, StripPrefix;
    var text := PrintLiteral(lit, tail);
    assert text[1..] == tail;
    assert ParseBase(text) == Ok((Literal(lit), tail));
    SkipNothing(tail);
    NoControls(tail);
  }

  lemma {:induction false} RangeRead(
      start: Option<LiteralValue>, end: Option<LiteralValue>, exclusive: bool, rest: Input)
    requires AreBounds(start, end)
    requires end.None? ==> !IsNumeral(Peek(Skip(rest)))
    ensures var mark := if exclusive then Token.RangeInclusive else Token.Range;
            TypeParser.ParseRange(start, [mark] + Bound(end, rest))
              == Ok((RangeType(start, end, exclusive), if end.Some? then rest else Skip(rest)))
  {
    hide Skip, RangeType;
    var behind := Bound(end, rest);
    SkipOne(if exclusive then Token.RangeInclusive else Token.Range, behind);
    if end.Some? {
      SkipNothing(behind);
      assert behind[1..] == rest;
    }
  }

  lemma {:induction false} RangeBounds(start: Option<LiteralValue>, end: Option<LiteralValue>, exclusive: bool)
    requires AreBounds(start, end)
    ensures var t := RangeType(start, end, exclusive);
            var floats := (start.Some? && start.value.Float?) || (end.Some? && end.value.Float?);
            && t.Constrained? && t.base == TypeExpression.Builtin(if floats then "float" else "int")
            && forall x, float :: Meets(x, t.constraints, float) <==>
                 (start.Some? ==> Number(start.value, float) <= x)
                 && (end.Some? ==> if exclusive then x < Number(end.value, float) else x <= Number(end.value, float))
  {
    hide Number;
    var ops := RangeType(start, end, exclusive).constraints;
    if start.Some? {
      assert ops[0] in ops;
    }
    if end.Some? {
      assert ops[|ops| - 1] in ops;
    }
  }

  function IntegerBound(bound: Option<i64>): Option<LiteralValue> {
    if bound.Some? then Some(LiteralValue.Integer(bound.value)) else None
  }

  /** A range in the tree is printed with `..` whether its end belongs to it or not, and reads back as
      a number type with bounds, the end included. */
  lemma {:induction false} RangeComesBack(
      start: Option<i64>, end: Option<i64>, inclusive: bool, indent: nat, cfg: FormatConfig, rest: Input)
    requires end.None? ==> !IsNumeral(Peek(Skip(rest)))
    ensures var r := ParseType(PrintType(TypeExpression.Range(start, end, inclusive), indent, cfg, rest));
            if start.None? && end.None? then r.Err?
            else
              && r.Ok? && r.value.0 == RangeType(IntegerBound(start), IntegerBound(end), false)
              && r.value.1 == if end.Some? then rest else Skip(rest)
  {
    hide ParsePrimary, Skip, RangeType, TypeParser.ParseRange, Number, Meets;
    RangeText(start, end, inclusive, indent, cfg, rest);
    var text := PrintType(TypeExpression.Range(start, end, inclusive), indent, cfg, rest);
    if start.None? && end.None? {
      EmptyRange(rest);
    } else {
      var tail := [Token.Range] + Bound(IntegerBound(end), rest);
      RangeRead(IntegerBound(start), IntegerBound(end), false, rest);
      if start.Some? {
        LoneNumber(LiteralValue.Integer(start.value), tail);
      }
    }
  }

  lemma RangeText(start: Option<i64>, end: Option<i64>, inclusive: bool, indent: nat, cfg: FormatConfig, rest: Input)
    ensures PrintType(TypeExpression.Range(start, end, inclusive), indent, cfg, rest)
         == Bound(IntegerBound(start), [Token.Range] + Bound(IntegerBound(end), rest))
  {
  }

  lemma EmptyRange(rest: Input)
    requires !IsNumeral(Peek(Skip(rest)))
    ensures TypeParser.ParseRange(None, [Token.Range] + rest).Err?
  {
    hide Skip;
    SkipOne(Token.Range, rest);
  }
}
