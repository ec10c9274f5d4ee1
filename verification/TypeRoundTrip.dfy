/** Parsing what was printed: on the faithful fragment the parser gives back the type expression
    and stops at whatever follows it. */
module TypeRoundTrip {
  import opened Basics
  import opened Bytes
  import opened Ast
  import opened Tokens
  import opened AnnotationParser
  import opened AnnotationPrinter
  import opened ConditionRoundTrip
  import opened AnnotationRoundTrip
  import opened TypeParser
  import opened TypePrinter
  import opened TypeAppend
  import opened TypeScan

  // ---- what may follow ------------------------------------------------------------------------------------

  /** Nothing here continues a base type with its operators. */
  predicate EndsPrimary(rest: Input) {
    Peek(rest) != Dot && !IsControl(Peek(Skip(rest)))
  }

  /** Nothing here continues a type expression. */
  predicate EndsType(rest: Input) {
    EndsPrimary(rest) && !IsChoiceMark(Peek(Skip(rest))) && !IsRangeMark(Peek(Skip(rest)))
  }

  /** Nothing here makes what stands before it a key, or marks it optional. */
  predicate EndsValue(rest: Input) {
    EndsType(rest) && !ColonAhead(rest, true) && Peek(Skip(rest)) != Token.Optional
  }

  /** Nothing here belongs to the entry before it. */
  predicate EndsEntry(rest: Input) {
    EndsValue(rest) && !Peek(Skip(rest)).At?
  }

  lemma DelimiterEnds(d: Token, rest: Input)
    requires IsDelimiter(d)
    ensures EndsEntry([d] + rest) && Skip([d] + rest) == [d] + rest && ([d] + rest)[1..] == rest
    ensures EndsEntry([Newline] + ([d] + rest)) && Skip([Newline] + ([d] + rest)) == [d] + rest
  {
    assert ([Newline] + ([d] + rest))[1..] == [d] + rest;
  }

  lemma SkipSpaces(n: nat, rest: Input)
    ensures Skip(Spaces(n, rest)) == Skip(rest)
  {
    hide Skip;
    if n > 0 {
      SkipOne(Whitespace(seq(n, _ => ' ')), rest);
    }
  }

  // ---- how printed text starts ------------------------------------------------------------------------------

  lemma NameOpens(name: string, rest: Input)
    requires IsDottedName(name)
    ensures Peek(PrintName(name, rest)).Identifier?
  {
  }

  lemma LiteralOpens(lit: LiteralValue, rest: Input)
    requires IsLiteralType(lit)
    ensures Opens(Peek(PrintLiteral(lit, rest))) && (Peek(PrintLiteral(lit, rest)).Integer? <==> lit.Integer?)
  {
  }

  lemma {:induction false} TypeOpens(t: TypeExpression, indent: nat, cfg: FormatConfig, rest: Input)
    requires Faithful(t)
    ensures Opens(Peek(PrintType(t, indent, cfg, rest)))
    ensures Peek(PrintType(t, indent, cfg, rest)).Integer? <==> IntegerFirst(t)
    decreases t
  {
    hide PrintName, IsDottedName, PrintLiteral, PrintMembers, PrintEntries, PrintControls, PrintMoreArms,
      FaithfulMember, FaithfulEntry, FaithfulControl, FaithfulControls, IsLiteralType;
    match t {
      case Builtin(name) =>
        NoDotInBuiltins(name);
        WholeName(name, rest);
      case Reference(name) => NameOpens(name, rest);
      case Choice(arms) => TypeOpens(arms[0], indent, cfg, PrintMoreArms(arms[1..], indent, cfg, rest));
      case Literal(lit) => LiteralOpens(lit, rest);
      case Constrained(base, ops) => TypeOpens(base, indent, cfg, PrintControls(ops, cfg, rest));
      case _ =>
    }
  }

  // ---- lookaheads -----------------------------------------------------------------------------------------

  lemma {:induction false} ArrowOnlyAdds(ts: Input)
    requires !ColonAhead(ts, true)
    ensures !ColonAhead(ts, false)
    decreases |ts|
  {
    if ts != [] && (ts[0].Whitespace? || ts[0] == Newline || ts[0] == Token.Optional) {
      ArrowOnlyAdds(ts[1..]);
    }
  }

  /** What goes on to a second arm or an operator is no key. */
  lemma SpacedIsNoKey(t: Token, rest: Input)
    requires t == Slash || IsControl(t)
    ensures !ColonAhead([SPACE] + ([t] + rest), true)
    ensures Skip([SPACE] + ([t] + rest)) == [t] + rest
  {
    SkipOne(SPACE, [t] + rest);
    SkipOne(t, rest);
  }

  lemma ControlsStart(ops: seq<ControlOperator>, cfg: FormatConfig, rest: Input)
    requires ops != []
    ensures PrintControls(ops, cfg, rest) == [SPACE] + PrintControl(ops[0], cfg, PrintControls(ops[1..], cfg, rest))
    ensures var text := PrintControl(ops[0], cfg, PrintControls(ops[1..], cfg, rest));
            IsControl(Peek(text)) && text == [Peek(text)] + text[1..]
  {
    hide PrintType, PrintLiteral, PrintSize, PrintName;
  }

  /** An unkeyed value is not mistaken for a key. */
  lemma {:induction false} NoKeyAhead(t: TypeExpression, indent: nat, cfg: FormatConfig, rest: Input)
    requires Faithful(t) && !ColonAhead(rest, true)
    ensures !KeyAhead(PrintType(t, indent, cfg, rest))
    decreases t
  {
    hide PrintName, IsDottedName, PrintMembers, PrintEntries, PrintControls, PrintControl, PrintMoreArms,
      FaithfulMember, FaithfulEntry, FaithfulControl, FaithfulControls, ColonAhead, BehindBracket, Stop, Next;
    var text := PrintType(t, indent, cfg, rest);
    match t {
      case Builtin(name) =>
        NoDotInBuiltins(name);
        WholeName(name, rest);
        SkipOne(Word(name), rest);
        ArrowOnlyAdds(rest);
      case Reference(name) => NoKeyInName(name, rest);
      case Array(element, _) =>
        PassType(Bracket(1), element, indent, cfg, [RightBracket] + rest);
        BehindOneBracket(PrintType(element, indent, cfg, [RightBracket] + rest), rest);
      case Tuple(g) =>
        PassMembers(Bracket(1), g.entries, indent, cfg, [RightBracket] + rest);
        BehindOneBracket(PrintMembers(g.entries, indent, cfg, [RightBracket] + rest), rest);
      case Choice(arms) =>
        var more := PrintMoreArms(arms[1..], indent, cfg, rest);
        MoreArmsStart(arms[1..], indent, cfg, rest);
        SpacedIsNoKey(Slash, more[2..]);
        NoKeyAhead(arms[0], indent, cfg, more);
      case Constrained(base, ops) =>
        ControlsStart(ops, cfg, rest);
        var control := PrintControl(ops[0], cfg, PrintControls(ops[1..], cfg, rest));
        SpacedIsNoKey(Peek(control), control[1..]);
        NoKeyAhead(base, indent, cfg, PrintControls(ops, cfg, rest));
      case Literal(lit) =>
        if lit.Integer? || lit.Text? {
          SkipOne(Peek(text), rest);
        }
      case _ =>
    }
  }

  lemma MoreArmsStart(arms: seq<TypeExpression>, indent: nat, cfg: FormatConfig, rest: Input)
    requires arms != []
    ensures var more := PrintMoreArms(arms, indent, cfg, rest);
            |more| >= 2 && more == [SPACE] + ([Slash] + more[2..])
            && more[2..] == [SPACE] + PrintType(arms[0], indent, cfg, PrintMoreArms(arms[1..], indent, cfg, rest))
  {
    hide PrintType;
  }

  lemma NoKeyInName(name: string, rest: Input)
    requires IsDottedName(name) && !ColonAhead(rest, true)
    ensures !KeyAhead(PrintName(name, rest))
  {
    hide FirstDot, Word;
    var k := FirstDot(name);
    SkipOne(Word(name[..k]), PrintParts(name[k..], rest));
  }

  lemma BehindOneBracket(text: Input, rest: Input)
    requires Passes(Bracket(1), text, [RightBracket] + rest)
    ensures BehindBracket(([LeftBracket] + text)[1..], 1) == Some(rest)
  {
    assert ([LeftBracket] + text)[1..] == text;
    assert ([RightBracket] + rest)[1..] == rest;
    BracketStops(1, text);
    BracketStops(1, [RightBracket] + rest);
  }

  /** A member that does not start with an integer, or is only that, shows no occurrence. */
  lemma {:induction false} NoOccurrenceAhead(t: TypeExpression, indent: nat, cfg: FormatConfig, d: Token, rest: Input)
    requires Faithful(t) && (t.Literal? || !IntegerFirst(t)) && (d == Comma || d == RightBracket)
    ensures !OccurrenceAhead(PrintType(t, indent, cfg, [d] + rest))
  {
    hide PrintType, IntegerFirst, Faithful;
    TypeOpens(t, indent, cfg, [d] + rest);
    if t.Literal? {
      LiteralMember(t.lit, indent, cfg, d, rest);
    }
  }

  lemma LiteralMember(lit: LiteralValue, indent: nat, cfg: FormatConfig, d: Token, rest: Input)
    requires Faithful(Literal(lit)) && (d == Comma || d == RightBracket)
    ensures !OccurrenceAhead(PrintType(Literal(lit), indent, cfg, [d] + rest))
  {
    if lit.Integer? {
      SkipOne(Token.Integer(lit.i), [d] + rest);
    }
  }

  lemma MapLooksLikeMap(key: TypeExpression, value: TypeExpression, indent: nat, cfg: FormatConfig, rest: Input)
    ensures MapAhead(PrintType(Map(key, value, None), indent, cfg, rest))
  {
    hide Stop;
    var val := PrintType(value, indent, cfg, [RightBrace] + rest);
    var text := PrintType(key, indent, cfg, [SPACE] + ([Arrow] + ([SPACE] + val)));
    assert PrintType(Map(key, value, None), indent, cfg, rest) == [LeftBrace] + text by {
      hide *;
      MapText(key, value, indent, cfg, rest);
    }
    hide PrintType, ScanBrace;
    PassType(Brace(0, 0, 1), key, indent, cfg, [SPACE] + ([Arrow] + ([SPACE] + val)));
    Plainly(Brace(0, 0, 1), SPACE, [Arrow] + ([SPACE] + val));
    StopsAt(Brace(0, 0, 1), Arrow, [SPACE] + val);
    BraceStops(0, 0, 1, text);
    ScanOpen(text);
    ScanMark(Arrow, [SPACE] + val);
  }

  lemma MapText(key: TypeExpression, value: TypeExpression, indent: nat, cfg: FormatConfig, rest: Input)
    ensures PrintType(Map(key, value, None), indent, cfg, rest)
         == [LeftBrace] + PrintType(key, indent, cfg,
              [SPACE] + ([Arrow] + ([SPACE] + PrintType(value, indent, cfg, [RightBrace] + rest))))
  {
  }

  lemma StopsAt(s: Scan, t: Token, rest: Input)
    requires Next(s, t) == None
    ensures Stop(s, [t] + rest) == (s, [t] + rest)
  {
  }

  lemma ScanOpen(text: Input)
    ensures MapAhead([LeftBrace] + text) == ScanBrace(text, 0, 0, 1)
  {
    assert ([LeftBrace] + text)[1..] == text;
  }

  lemma ScanMark(t: Token, rest: Input)
    requires t == Arrow || t == Comma || t == RightBrace
    ensures ScanBrace([t] + rest, 0, 0, 1) == (t == Arrow)
  {
  }

  /** A printed group closes, or shows a comma, before any `=>` of its own. */
  lemma GroupLooksLikeGroup(g: GroupExpression, indent: nat, cfg: FormatConfig, rest: Input)
    ensures !MapAhead(PrintGroup(g, indent, cfg, rest))
  {
    hide Stop, ScanBrace, MapAhead, PrintEntry, PrintEntries, Spaces;
    var s := Brace(0, 0, 1);
    if g.entries == [] {
      ScanOpen([RightBrace] + rest);
      ScanMark(RightBrace, rest);
    } else {
      var inner, es := indent + cfg.indentSize, g.entries;
      var close := Spaces(indent, [RightBrace] + rest);
      var text := PrintEntries(es, inner, cfg, close);
      ScanOpen([Newline] + text);
      BraceStops(0, 0, 1, [Newline] + text);
      Plainly(s, Newline, text);
      EntriesUnfold(es, inner, cfg, close);
      var more := PrintEntries(es[1..], inner, cfg, close);
      var comma := |es| > 1 || cfg.trailingCommas;
      var behind := PrintComma(comma, [Newline] + more);
      PassSpaces(s, inner, PrintEntry(es[0], inner, cfg, behind));
      PassEntry(s, es[0], inner, cfg, behind);
      if comma {
        StopsAt(s, Comma, [Newline] + more);
        ScanMark(Comma, [Newline] + more);
      } else {
        NoEntries(es[1..], inner, cfg, close);
        Plainly(s, Newline, more);
        PassSpaces(s, indent, [RightBrace] + rest);
        StopsAt(s, RightBrace, rest);
        ScanMark(RightBrace, rest);
      }
    }
  }

  lemma EntriesUnfold(es: seq<GroupEntry>, indent: nat, cfg: FormatConfig, rest: Input)
    requires es != []
    ensures PrintEntries(es, indent, cfg, rest)
         == Spaces(indent, PrintEntry(es[0], indent, cfg,
              PrintComma(|es| > 1 || cfg.trailingCommas, [Newline] + PrintEntries(es[1..], indent, cfg, rest))))
  {
  }

  lemma NoEntries(es: seq<GroupEntry>, indent: nat, cfg: FormatConfig, rest: Input)
    requires |es| == 0
    ensures PrintEntries(es, indent, cfg, rest) == rest
  {
  }

  // ---- literals and control operators --------------------------------------------------------------------

  lemma SizeRoundTrip(size: SizeConstraint, rest: Input)
    requires FaithfulSize(size)
    ensures ParseSize(PrintSize(size, rest)) == Ok((size, rest)) && !IsTrivia(Peek(PrintSize(size, rest)))
  {
    hide ParseSizeInParens, PrintSize, Skip;
    if size.ExactSize? {
      ExactSizeRoundTrip(size.n, rest);
    } else {
      SizeInParens(size, rest);
      var inner := PrintSize(size, rest)[1..];
      SkipOne(LeftParen, inner);
      SkipOne(RightParen, rest);
    }
  }

  lemma ExactSizeRoundTrip(n: u64, rest: Input)
    requires Unsigned(n).Integer?
    ensures var text := PrintSize(ExactSize(n), rest);
            Peek(text).Integer? && ParseSize(text) == Ok((ExactSize(n), rest))
  {
    hide ParseSizeInParens, Skip, ParseSize;
    IntegerAsSize(n, rest);
  }

  lemma IntegerAsSize(i: i64, rest: Input)
    ensures ParseSize([Token.Integer(i)] + rest) == Ok((ExactSize(AsU64(i)), rest))
  {
    hide SizeAndParen, Skip, AsU64;
    assert ([Token.Integer(i)] + rest)[1..] == rest;
  }

  lemma SizeInParens(size: SizeConstraint, rest: Input)
    requires FaithfulSize(size) && !size.ExactSize?
    ensures var text := PrintSize(size, rest);
            && text == [LeftParen] + text[1..] && Skip(text[1..]) == text[1..]
            && ParseSizeInParens(text[1..]) == Ok((size, [RightParen] + rest))
  {
    hide Skip, ParseSize, ParseSizeInParens, Unsigned;
    var close := [RightParen] + rest;
    SkipOne(RightParen, rest);
    match size {
      case SizeRange(min, max) => BothBounds(min, max, close);
      case MinSize(min) => LowerBound(min, close);
      case MaxSize(max) => UpperBound(max, close);
    }
  }

  lemma BothBounds(min: u64, max: u64, behind: Input)
    requires Unsigned(min).Integer? && Unsigned(max).Integer?
    ensures var text := [Unsigned(min)] + ([Token.Range] + ([Unsigned(max)] + behind));
            Skip(text) == text && ParseSizeInParens(text) == Ok((SizeRange(min, max), behind))
  {
    hide Skip, ReadUpperBound;
    RangeInParens(min, [Token.Integer(max)] + behind);
    UpperBoundRead(min, max, behind);
  }

  lemma UpperBoundRead(min: u64, max: u64, behind: Input)
    requires Unsigned(max).Integer?
    ensures ReadUpperBound(min, [Token.Range] + ([Unsigned(max)] + behind)) == (SizeRange(min, max), behind)
  {
    hide Skip;
    SkipOne(Token.Range, [Unsigned(max)] + behind);
    SkipOne(Unsigned(max), behind);
  }

  lemma LowerBound(min: u64, behind: Input)
    requires Unsigned(min).Integer? && Peek(behind) == RightParen && Skip(behind) == behind
    ensures var text := [Unsigned(min)] + ([Token.Range] + behind);
            Skip(text) == text && ParseSizeInParens(text) == Ok((MinSize(min), behind))
  {
    hide Skip;
    RangeInParens(min, behind);
  }

  lemma UpperBound(max: u64, behind: Input)
    requires Unsigned(max).Integer?
    ensures var text := [Token.Range] + ([Unsigned(max)] + behind);
            Skip(text) == text && ParseSizeInParens(text) == Ok((MaxSize(max), behind))
  {
    hide Skip;
    SkipOne(Token.Integer(max), behind);
    SkipOne(Token.Range, [Token.Integer(max)] + behind);
  }

  lemma RangeInParens(min: u64, behind: Input)
    requires Unsigned(min).Integer?
    ensures var text := [Token.Integer(min)] + ([Token.Range] + behind);
            && text[1..] == [Token.Range] + behind && text[1..][1..] == behind
            && Skip(text) == text && Skip(text[1..]) == text[1..]
  {
    hide Skip;
    SkipOne(Token.Range, behind);
    SkipOne(Token.Integer(min), [Token.Range] + behind);
  }

  lemma {:induction false} ControlRoundTrip(op: ControlOperator, cfg: FormatConfig, rest: Input)
    requires FaithfulControl(op) && (TakesType(op) ==> EndsType(rest))
    ensures ParseControl(PrintControl(op, cfg, rest)) == Ok((op, if TakesType(op) then Skip(rest) else rest))
    decreases op, 3
  {
    hide Skip, ParseControl, PrintLiteral, PrintSize, PrintName, PrintType, FaithfulLiteral, FaithfulSize, Faithful,
      EndsType;
    match op {
      case WithLiteral(lop, value) => LiteralControlRoundTrip(lop, value, rest);
      case Plain(plain) => PlainRoundTrip(plain, rest);
      case Regex(pattern) => RegexRoundTrip(pattern, rest);
      case Size(size) => SizeControlRoundTrip(size, rest);
      case Bits(expression) => BitsRoundTrip(expression, rest);
      case And(operand) =>
        TypeReadsBack(operand, 0, cfg, rest);
        TypeOpens(operand, 0, cfg, rest);
        TypeControlRoundTrip(op, operand, cfg, rest);
      case Within(operand) =>
        TypeReadsBack(operand, 0, cfg, rest);
        TypeOpens(operand, 0, cfg, rest);
        TypeControlRoundTrip(op, operand, cfg, rest);
    }
  }

  lemma PlainRoundTrip(plain: PlainOp, rest: Input)
    ensures ParseControl([PlainControl(plain)] + rest) == Ok((Plain(plain), rest))
  {
    hide Skip, ParseType, ParseLiteral, ParseSize, ParseWordControl;
    assert ([PlainControl(plain)] + rest)[1..] == rest;
  }

  lemma LiteralControlRoundTrip(op: LiteralOp, value: LiteralValue, rest: Input)
    requires FaithfulLiteral(value)
    ensures ParseControl([LiteralControl(op)] + ([SPACE] + PrintLiteral(value, rest)))
         == Ok((WithLiteral(op, value), rest))
  {
    hide Skip, ParseLiteral, PrintLiteral, ParseSize, ParseType, ParseWordControl, FaithfulLiteral, Opens;
    var text := PrintLiteral(value, rest);
    LiteralRoundTrip(value, rest);
    OpensIsNoTrivia();
    SkipOne(LiteralControl(op), [SPACE] + text);
    SkipOne(SPACE, text);
    SkipNothing(text);
  }

  lemma RegexRoundTrip(pattern: string, rest: Input)
    requires IsPlainText(pattern)
    ensures ParseControl([RegexControl] + ([SPACE] + ([Quoted(pattern)] + rest))) == Ok((Regex(pattern), rest))
  {
    hide Skip, ParseLiteral, ParseSize, ParseType, Unescaped;
    SkipOne(RegexControl, [SPACE] + ([TextString(pattern)] + rest));
    SkipOne(SPACE, [TextString(pattern)] + rest);
    SkipOne(TextString(pattern), rest);
  }

  lemma SizeControlRoundTrip(size: SizeConstraint, rest: Input)
    requires FaithfulSize(size)
    ensures ParseControl([SizeControl] + ([SPACE] + PrintSize(size, rest))) == Ok((Size(size), rest))
  {
    hide Skip, ParseLiteral, ParseSize, ParseType, ParseWordControl, PrintSize, FaithfulSize;
    var text := PrintSize(size, rest);
    SizeRoundTrip(size, rest);
    SkipOne(SizeControl, [SPACE] + text);
    SkipOne(SPACE, text);
    SkipNothing(text);
  }

  lemma BitsRoundTrip(expression: string, rest: Input)
    requires IsName(expression)
    ensures ParseControl([BitsControl] + ([SPACE] + PrintName(expression, rest))) == Ok((Bits(expression), rest))
  {
    hide Skip, ParseLiteral, ParseSize, ParseType, Word, PrintName;
    NamePart(expression);
    WholeName(expression, rest);
    SkipOne(BitsControl, [SPACE] + ([Identifier(expression)] + rest));
    SkipOne(SPACE, [Identifier(expression)] + rest);
    SkipOne(Identifier(expression), rest);
  }

  lemma TypeControlRoundTrip(op: ControlOperator, operand: TypeExpression, cfg: FormatConfig, rest: Input)
    requires (op == And(operand) || op == Within(operand)) && ReadsBack(operand, 0, cfg, rest)
    requires Opens(Peek(PrintType(operand, 0, cfg, rest)))
    ensures ParseControl(PrintControl(op, cfg, rest)) == Ok((op, Skip(rest)))
  {
    hide Skip, ParseLiteral, ParseSize, ParseType, ParseWordControl, PrintType, Opens;
    var text := PrintType(operand, 0, cfg, rest);
    OpensIsNoTrivia();
    SkipOne(if op.And? then AndControl else WithinControl, [SPACE] + text);
    SkipOne(SPACE, text);
    SkipNothing(text);
  }

  lemma {:induction false} ControlsRoundTrip(ops: seq<ControlOperator>, cfg: FormatConfig, rest: Input)
    requires FaithfulControls(ops) && EndsPrimary(rest)
    requires ops != [] && TakesType(ops[|ops| - 1]) ==> EndsType(rest)
    ensures ParseControls(Skip(PrintControls(ops, cfg, rest))) == Ok((ops, Skip(rest)))
    decreases ops, 3
  {
    hide Skip, ParseControl, PrintControl, FaithfulControl, IsControl, TakesType;
    SkipNothing(Skip(rest));
    if ops != [] {
      var more := PrintControls(ops[1..], cfg, rest);
      var text := PrintControl(ops[0], cfg, more);
      ControlRoundTrip(ops[0], cfg, more);
      ControlsStart(ops, cfg, rest);
      SkipOne(SPACE, text);
      assert !IsTrivia(Peek(text)) by { ControlIsNoTrivia(Peek(text)); }
      SkipNothing(text);
      ControlsRoundTrip(ops[1..], cfg, rest);
      SkipNothing(Skip(more));
      assert ops == [ops[0]] + ops[1..];
    }
  }

  lemma ControlIsNoTrivia(t: Token)
    requires IsControl(t)
    ensures !IsTrivia(t)
  {
  }

  // ---- names -------------------------------------------------------------------------------------------------

  lemma {:induction false} PartsRoundTrip(done: string, parts: string, rest: Input)
    requires (parts != "" ==> parts[0] == '.') && AreParts(parts) && Peek(rest) != Dot
    ensures ParseDotted(done, PrintParts(parts, rest)) == Ok((done + parts, rest))
    decreases |parts|
  {
    hide Word, ParseDotted, IsName, SpellsOperator, FirstPart, MoreParts;
    if parts == "" {
      assert done + parts == done;
      DottedEnds(done, rest);
    } else {
      var part, more := FirstPart(parts), MoreParts(parts);
      var behind := PrintParts(more, rest);
      NamePart(part);
      PartsRoundTrip(done + "." + part, more, rest);
      DottedGoesOn(done, [Word(part)] + behind);
      assert ([Word(part)] + behind)[1..] == behind;
      assert done + parts == done + "." + part + more;
    }
  }

  lemma DottedEnds(name: string, rest: Input)
    requires Peek(rest) != Dot
    ensures ParseDotted(name, rest) == Ok((name, rest))
  {
  }

  lemma DottedGoesOn(name: string, tail: Input)
    requires Peek(tail).Identifier?
    ensures ParseDotted(name, [Dot] + tail) == ParseDotted(name + "." + Peek(tail).name, tail[1..])
  {
    assert ([Dot] + tail)[1..] == tail && ([Dot] + tail)[2..] == tail[1..];
  }

  // ---- one entry, given its value --------------------------------------------------------------------------

  /** The value parses back with this behind it. */
  predicate ReadsBack(t: TypeExpression, indent: nat, cfg: FormatConfig, rest: Input) {
    ParseType(PrintType(t, indent, cfg, rest)) == Ok((t, Skip(rest)))
  }

  function Mark(optional: bool): Option<Occurrence> {
    if optional then Some(Occurrence.Optional) else None
  }

  lemma KeyWord(name: string, optional: bool, value: Input)
    requires IsKeyName(name) && !IsTrivia(Peek(value))
    ensures '.' !in name
    ensures var text := [Word(name)] + PrintOccurrence(Mark(optional), [Colon] + ([SPACE] + value));
            && KeyAhead(text) && (Peek(text).Identifier? || Peek(text).Builtin?)
            && ParseKey(text) == Ok(((Bare(name), Mark(optional)), [SPACE] + value))
    ensures Skip([SPACE] + value) == value
  {
    hide Skip, Word, ParseBareKey, ColonAhead, PrintOccurrence;
    var behind := PrintOccurrence(Mark(optional), [Colon] + ([SPACE] + value));
    KeyMark(name, optional, [SPACE] + value);
    SkipOne(SPACE, value);
    SkipNothing(value);
    KeyToken(name);
    SkipOne(Word(name), behind);
  }

  lemma KeyMark(name: string, optional: bool, value: Input)
    ensures var behind := PrintOccurrence(Mark(optional), [Colon] + value);
            && ColonAhead(behind, true) && ColonAhead(behind, false) && Skip(behind) == behind
            && ParseBareKey(name, behind) == Ok(((Bare(name), Mark(optional)), value))
  {
    hide Skip;
    SkipOne(Colon, value);
    SkipOne(Token.Optional, [Colon] + value);
    assert ColonAhead([Colon] + value, true) && ColonAhead([Colon] + value, false);
  }

  lemma {:induction false} MemberRoundTrip(e: GroupEntry, indent: nat, cfg: FormatConfig, d: Token, rest: Input)
    requires FaithfulMember(e) && (d == Comma || d == RightBracket) && ReadsBack(e.valueType, indent, cfg, [d] + rest)
    ensures ParseMember(PrintMember(e, indent, cfg, [d] + rest)) == Ok((e, [d] + rest))
    ensures Opens(Peek(PrintMember(e, indent, cfg, [d] + rest)))
  {
    hide PrintType, ParseType, Faithful, IntegerFirst, KeyAhead, OccurrenceAhead, Skip, ParseKey, PrintName, Word;
    var value := PrintType(e.valueType, indent, cfg, [d] + rest);
    DelimiterEnds(d, rest);
    TypeOpens(e.valueType, indent, cfg, [d] + rest);
    SkipNothing(value);
    match e.key {
      case None =>
        NoOccurrenceAhead(e.valueType, indent, cfg, d, rest);
        NoKeyAhead(e.valueType, indent, cfg, [d] + rest);
      case Some(Bare(name)) =>
        KeyWord(name, false, value);
        WholeName(name, [Colon] + ([SPACE] + value));
        var text := [Word(name)] + ([Colon] + ([SPACE] + value));
        SkipNothing(text);
        WordShowsNoOccurrence(text);
    }
  }

  lemma WordShowsNoOccurrence(text: Input)
    requires Peek(text).Identifier? || Peek(text).Builtin?
    ensures !OccurrenceAhead(text)
  {
  }

  lemma LiteralKeyword(lit: LiteralValue, value: Input)
    requires IsLiteralType(lit) && !lit.ByteString? && !IsTrivia(Peek(value))
    ensures var text := PrintLiteral(lit, [Colon] + ([SPACE] + value));
            && Opens(Peek(text)) && KeyAhead(text)
            && ParseKey(text) == Ok(((LiteralKey(lit), None), [SPACE] + value))
    ensures Skip([SPACE] + value) == value
  {
    hide Skip;
    SkipOne(SPACE, value);
    SkipNothing(value);
    SkipOne(Colon, [SPACE] + value);
    SkipOne(if lit.Text? then TextString(lit.s) else Token.Integer(lit.i), [Colon] + ([SPACE] + value));
    assert ColonAhead([Colon] + ([SPACE] + value), true);
  }

  lemma KeyText(e: GroupEntry, indent: nat, cfg: FormatConfig, rest: Input)
    ensures var value := PrintType(e.valueType, indent, cfg, PrintAnnotations(e.metadata, rest));
            var colon := [Colon] + ([SPACE] + value);
            match e.key
            case None => PrintEntry(e, indent, cfg, rest) == value
            case Some(Bare(name)) => PrintEntry(e, indent, cfg, rest) == PrintWordKey(name, e.occurrence, colon)
            case Some(LiteralKey(lit)) => PrintEntry(e, indent, cfg, rest) == PrintLiteralKey(lit, e.occurrence, colon)
            case Some(TypeKey(t)) =>
              PrintEntry(e, indent, cfg, rest)
                == [LeftParen] + PrintType(t, indent, cfg, [RightParen] + PrintOccurrence(e.occurrence, colon))
  {
    hide PrintType, PrintWordKey, PrintLiteralKey, PrintOccurrence, PrintAnnotations;
  }

  /** The key part of an entry comes back, and the value is next. */
  lemma {:induction false} EntryKey(e: GroupEntry, indent: nat, cfg: FormatConfig, rest: Input)
    requires FaithfulEntry(e.(metadata := [])) && EndsValue(PrintAnnotations(e.metadata, rest))
    ensures var text, value :=
              PrintEntry(e, indent, cfg, rest), PrintType(e.valueType, indent, cfg, PrintAnnotations(e.metadata, rest));
            && Opens(Peek(text)) && Skip(text) == text && Peek(text) != Token.Optional
            && ParseOptionalKey(text).Ok?
            && ParseOptionalKey(text).value.0 == (e.key, e.occurrence)
            && Skip(ParseOptionalKey(text).value.1) == value
  {
    hide PrintType, Faithful, KeyAhead, Skip, ParseKey, PrintName, Word, EndsType, PrintLiteral, PrintAnnotations,
      PrintWordKey, PrintLiteralKey;
    var behind := PrintAnnotations(e.metadata, rest);
    var text, value := PrintEntry(e, indent, cfg, rest), PrintType(e.valueType, indent, cfg, behind);
    TypeOpens(e.valueType, indent, cfg, behind);
    SkipNothing(value);
    KeyText(e, indent, cfg, rest);
    match e.key {
      case None => NoKeyAhead(e.valueType, indent, cfg, behind);
      case Some(Bare(name)) =>
        KeyWord(name, e.occurrence.Some?, value);
        UncountedWord(name, e.occurrence, [Colon] + ([SPACE] + value));
        SkipNothing(text);
      case Some(LiteralKey(lit)) =>
        LiteralKeyword(lit, value);
        UncountedLiteral(lit, None, [Colon] + ([SPACE] + value));
        SkipNothing(text);
    }
  }

  /** An occurrence that starts with no number leaves the key before it as it is. */
  lemma UncountedWord(name: string, occurrence: Option<Occurrence>, rest: Input)
    requires '.' !in name && Count(occurrence) == ""
    ensures PrintWordKey(name, occurrence, rest) == [Word(name)] + PrintOccurrence(occurrence, rest)
  {
    hide Word, PrintName, Count, PrintOccurrence;
    UncountedSame(occurrence);
    assert name + "" == name;
    WholeName(name, PrintOccurrence(occurrence, rest));
  }

  lemma UncountedLiteral(lit: LiteralValue, occurrence: Option<Occurrence>, rest: Input)
    requires IsLiteralType(lit) && Count(occurrence) == ""
    ensures PrintLiteralKey(lit, occurrence, rest) == PrintLiteral(lit, PrintOccurrence(occurrence, rest))
  {
    hide PrintName, Count, PrintOccurrence, Uncounted;
    UncountedSame(occurrence);
  }

  lemma UncountedSame(occurrence: Option<Occurrence>)
    requires Count(occurrence) == ""
    ensures Uncounted(occurrence) == occurrence
  {
    match occurrence {
      case Some(Exact(n)) => DecimalIsNoBlank(n);
      case Some(Between(Some(min), _)) => DecimalIsNoBlank(min);
      case _ =>
    }
  }

  lemma DecimalIsNoBlank(n: nat)
    ensures Decimal(n) != ""
  {
  }

  /** A printed entry is read with its annotations as they are read; a faithful one comes back. */
  lemma {:induction false} EntryRoundTrip(e: GroupEntry, indent: nat, cfg: FormatConfig, rest: Input)
    requires ReadableEntry(e) && EndsEntry(rest)
    requires ReadsBack(e.valueType, indent, cfg, PrintAnnotations(e.metadata, rest))
    ensures ParseEntry(PrintEntry(e, indent, cfg, rest)) == Ok((ReadEntry(e), Skip(rest)))
    ensures Opens(Peek(PrintEntry(e, indent, cfg, rest)))
  {
    hide PrintType, PrintEntry, ParseType, ParseOptionalKey, Skip, Faithful, EndsType, ColonAhead, PrintAnnotations,
      LexesAnnotation, ReadableAnnotation, ReadAnnotations, ParseAnnotations;
    var text := PrintEntry(e, indent, cfg, rest);
    AnnotationsEndValue(e.metadata, rest);
    EntryKey(e, indent, cfg, rest);
    NoAnnotations(text);
    AnnotationsRoundTrip(e.metadata, rest);
    SkipNothing(Skip(PrintAnnotations(e.metadata, rest)));
    assert [] + ReadAnnotations(e.metadata) == ReadAnnotations(e.metadata);
  }

  lemma NoAnnotations(ts: Input)
    requires Opens(Peek(ts))
    ensures ParseAnnotations(ts) == Ok(([], ts))
  {
  }

  lemma AnnotationsEndValue(metadata: seq<Annotation>, rest: Input)
    requires EndsEntry(rest)
    ensures EndsValue(PrintAnnotations(metadata, rest))
  {
    hide Skip, PrintAnnotation;
    if metadata != [] {
      var text := PrintAnnotation(metadata[0], PrintAnnotations(metadata[1..], rest));
      AnnotationStarts(metadata[0], PrintAnnotations(metadata[1..], rest));
      AnnotationEndsValue(Peek(text), text[1..]);
    }
  }

  lemma AnnotationStarts(a: Annotation, rest: Input)
    ensures var text := PrintAnnotation(a, rest);
            (Peek(text).At? || Peek(text).Other?) && text == [Peek(text)] + text[1..]
  {
    hide PrintLiteral, PrintName, PrintOperand, PrintCondition, PrintParameters, Unescaped;
  }

  lemma AnnotationEndsValue(at: Token, rest: Input)
    requires at.At? || at.Other?
    ensures EndsValue([SPACE] + ([at] + rest))
  {
    hide Skip;
    var text := [at] + rest;
    SkipOne(SPACE, text);
    SkipOne(at, rest);
    assert !ColonAhead(text, true);
  }

  /** Printed annotations are read in order, each with its own tokens only. */
  lemma {:induction false} AnnotationsRoundTrip(metadata: seq<Annotation>, rest: Input)
    requires (forall a | a in metadata :: LexesAnnotation(a) && ReadableAnnotation(a)) && !Peek(Skip(rest)).At?
    ensures ParseAnnotations(Skip(PrintAnnotations(metadata, rest))) == Ok((ReadAnnotations(metadata), Skip(rest)))
    decreases |metadata|
  {
    hide Skip, PrintAnnotation, ParseAnnotation, LexesAnnotation, ReadableAnnotation, ReadAnnotation;
    if metadata != [] {
      var more := PrintAnnotations(metadata[1..], rest);
      var text := PrintAnnotation(metadata[0], more);
      AnnotationReads(metadata[0], more);
      SkipOne(SPACE, text);
      SkipOne(Peek(text), text[1..]);
      AnnotationsRoundTrip(metadata[1..], rest);
    }
  }

  lemma {:induction false} AnnotationsComeBack(metadata: seq<Annotation>)
    requires forall a | a in metadata :: LexesAnnotation(a)
    ensures (forall a | a in metadata :: FaithfulAnnotation(a))
       <==> (forall a | a in metadata :: ReadableAnnotation(a)) && ReadAnnotations(metadata) == metadata
    decreases |metadata|
  {
    hide FaithfulAnnotation, LexesAnnotation, ReadableAnnotation, ReadAnnotation;
    if metadata != [] {
      FaithfulExactly(metadata[0]);
      AnnotationsComeBack(metadata[1..]);
      assert metadata == [metadata[0]] + metadata[1..];
      assert ReadAnnotations(metadata)[1..] == ReadAnnotations(metadata[1..]);
    }
  }

  /** A faithful entry is read as it is. */
  lemma FaithfulIsReadable(e: GroupEntry)
    requires FaithfulEntry(e)
    ensures ReadableEntry(e) && ReadEntry(e) == e
  {
    hide Faithful, FaithfulAnnotation, LexesAnnotation, ReadableAnnotation, ReadAnnotation, IsKeyName, IsLiteralType;
    forall a | a in e.metadata ensures LexesAnnotation(a) {
      FaithfulLexes(a);
    }
    AnnotationsComeBack(e.metadata);
  }

  lemma {:induction false} FaithfulAreReadable(es: seq<GroupEntry>)
    requires forall e | e in es :: FaithfulEntry(e)
    ensures (forall e | e in es :: ReadableEntry(e)) && ReadEntries(es) == es
    decreases |es|
  {
    hide FaithfulEntry, ReadableEntry, ReadEntry;
    if es != [] {
      FaithfulIsReadable(es[0]);
      FaithfulAreReadable(es[1..]);
      assert es == [es[0]] + es[1..];
    }
  }

  // ---- whole type expressions ------------------------------------------------------------------------------

  lemma {:induction false} TypeReadsBack(t: TypeExpression, indent: nat, cfg: FormatConfig, rest: Input)
    requires Faithful(t) && EndsType(rest)
    ensures ReadsBack(t, indent, cfg, rest)
    decreases t, 2
  {
    hide PrintMoreArms, ParsePrimary, ParseArms, ParseRange, Skip, IsControl, Faithful, FaithfulArms, PrintType,
      OpenEnded;
    TypeOpens(t, indent, cfg, rest);
    if t.Choice? {
      ChoiceParts(t, indent, cfg, rest);
      var more := PrintMoreArms(t.arms[1..], indent, cfg, rest);
      MoreArmsStart(t.arms[1..], indent, cfg, rest);
      SpacedIsNoKey(Slash, more[2..]);
      SlashIsNoControl();
      PrimaryRoundTrip(t.arms[0], indent, cfg, more);
      ArmsRoundTrip(t.arms[1..], indent, cfg, rest);
      assert ([Slash] + more[2..])[1..] == more[2..];
      assert t.arms == [t.arms[0]] + t.arms[1..];
    } else {
      PrimaryRoundTrip(t, indent, cfg, rest);
    }
  }

  lemma SlashIsNoControl()
    ensures !IsControl(Slash)
  {
  }

  lemma ChoiceParts(t: TypeExpression, indent: nat, cfg: FormatConfig, rest: Input)
    requires Faithful(t) && t.Choice?
    ensures |t.arms| >= 2 && FaithfulArms(t.arms[1..])
    ensures Faithful(t.arms[0]) && !t.arms[0].Choice? && !OpenEnded(t.arms[0])
    ensures PrintType(t, indent, cfg, rest)
         == PrintType(t.arms[0], indent, cfg, PrintMoreArms(t.arms[1..], indent, cfg, rest))
  {
    hide PrintType;
    ChoiceText(t, indent, cfg, rest);
  }

  lemma ChoiceText(t: TypeExpression, indent: nat, cfg: FormatConfig, rest: Input)
    requires t.Choice? && t.arms != []
    ensures PrintType(t, indent, cfg, rest)
         == PrintType(t.arms[0], indent, cfg, PrintMoreArms(t.arms[1..], indent, cfg, rest))
  {
    hide PrintMoreArms;
  }

  lemma {:induction false} ArmsRoundTrip(arms: seq<TypeExpression>, indent: nat, cfg: FormatConfig, rest: Input)
    requires arms != [] && FaithfulArms(arms) && EndsType(rest)
    ensures ParseArms([SPACE] + PrintType(arms[0], indent, cfg, PrintMoreArms(arms[1..], indent, cfg, rest)))
         == Ok((arms, Skip(rest)))
    decreases arms, 3
  {
    hide PrintMoreArms, ParsePrimary, Skip, IsControl, Faithful, PrintType, OpenEnded;
    var more := PrintMoreArms(arms[1..], indent, cfg, rest);
    var text := PrintType(arms[0], indent, cfg, more);
    TypeOpens(arms[0], indent, cfg, more);
    SkipOne(SPACE, text);
    SkipNothing(text);
    if arms[1..] == [] {
      NoMoreArms(arms[1..], indent, cfg, rest);
      PrimaryRoundTrip(arms[0], indent, cfg, rest);
      assert arms == [arms[0]];
    } else {
      MoreArmsStart(arms[1..], indent, cfg, rest);
      SpacedIsNoKey(Slash, more[2..]);
      SlashIsNoControl();
      PrimaryRoundTrip(arms[0], indent, cfg, more);
      ArmsRoundTrip(arms[1..], indent, cfg, rest);
      assert ([Slash] + more[2..])[1..] == more[2..];
      assert arms == [arms[0]] + arms[1..];
    }
  }

  lemma NoMoreArms(arms: seq<TypeExpression>, indent: nat, cfg: FormatConfig, rest: Input)
    requires |arms| == 0
    ensures PrintMoreArms(arms, indent, cfg, rest) == rest
  {
  }

  lemma {:induction false} PrimaryRoundTrip(t: TypeExpression, indent: nat, cfg: FormatConfig, rest: Input)
    requires Faithful(t) && !t.Choice? && EndsPrimary(rest) && (OpenEnded(t) ==> EndsType(rest))
    ensures ParsePrimary(PrintType(t, indent, cfg, rest)) == Ok((t, Skip(rest)))
    decreases t, 1
  {
    hide PrintType, Faithful, FaithfulControls, ParseBase, ParseControls, PrintControls, Skip, IsControl, KeyAhead,
      TakesType;
    TypeOpens(t, indent, cfg, rest);
    if t.Constrained? {
      ConstrainedParts(t, indent, cfg, rest);
      ControlsStart(t.constraints, cfg, rest);
      BaseRoundTrip(t.base, indent, cfg, PrintControls(t.constraints, cfg, rest));
      ControlsRoundTrip(t.constraints, cfg, rest);
    } else {
      BaseRoundTrip(t, indent, cfg, rest);
      NoControls(rest);
    }
  }

  lemma ConstrainedParts(t: TypeExpression, indent: nat, cfg: FormatConfig, rest: Input)
    requires Faithful(t) && t.Constrained?
    ensures Faithful(t.base) && !t.base.Choice? && !t.base.Constrained?
    ensures t.constraints != [] && FaithfulControls(t.constraints)
    ensures PrintType(t, indent, cfg, rest) == PrintType(t.base, indent, cfg, PrintControls(t.constraints, cfg, rest))
  {
  }

  lemma NoControls(rest: Input)
    requires !IsControl(Peek(Skip(rest)))
    ensures ParseControls(Skip(rest)) == Ok(([], Skip(rest)))
  {
  }

  lemma {:induction false} BaseRoundTrip(t: TypeExpression, indent: nat, cfg: FormatConfig, rest: Input)
    requires Faithful(t) && !t.Choice? && !t.Constrained? && Peek(rest) != Dot
    ensures ParseBase(PrintType(t, indent, cfg, rest)) == Ok((t, rest))
    decreases t, 0
  {
    hide PrintName, IsDottedName, PrintMembers, PrintGroup, PrintMoreArms, PrintArms, FaithfulMember, FaithfulEntry,
      IntegerFirst, FaithfulControl, ParseArray, ParseMap, ParseGroup, ParseDotted, MapAhead, Skip, StripPrefix, Word;
    match t {
      case Array(element, _) =>
        DelimiterEnds(RightBracket, rest);
        TypeReadsBack(element, indent, cfg, [RightBracket] + rest);
        ArrayRoundTrip(element, indent, cfg, rest);
      case Tuple(g) =>
        MembersRoundTrip(g.entries, indent, cfg, rest);
        TupleRoundTrip(g, indent, cfg, rest);
      case Map(key, value, _) =>
        var val := PrintType(value, indent, cfg, [RightBrace] + rest);
        DelimiterEnds(RightBrace, rest);
        ArrowEnds(val);
        TypeReadsBack(value, indent, cfg, [RightBrace] + rest);
        TypeReadsBack(key, indent, cfg, [SPACE] + ([Arrow] + ([SPACE] + val)));
        MapRoundTrip(key, value, indent, cfg, rest);
        MapLooksLikeMap(key, value, indent, cfg, rest);
      case Group(g) =>
        GroupLooksLikeGroup(g, indent, cfg, rest);
        GroupOpens(g, indent, cfg, rest);
        FaithfulAreReadable(g.entries);
        GroupRoundTrip(g, indent, cfg, rest);
      case _ => LeafRoundTrip(t, indent, cfg, rest);
    }
  }

  lemma {:induction false} LeafRoundTrip(t: TypeExpression, indent: nat, cfg: FormatConfig, rest: Input)
    requires Faithful(t) && (t.Builtin? || t.Reference? || t.Socket? || t.Plug? || t.Literal?) && Peek(rest) != Dot
    ensures ParseBase(PrintType(t, indent, cfg, rest)) == Ok((t, rest))
  {
    hide PrintName, IsDottedName, ParseBase, StripPrefix, Word, IsWordText, IsLiteralType;
    match t {
      case Builtin(name) =>
        NoDotInBuiltins(name);
        WholeName(name, rest);
        OneToken(Token.Builtin(name), rest);
      case Reference(name) => ReferenceRoundTrip(name, rest);
      case Socket(name) =>
        OneToken(Token.Socket("$" + name), rest);
        Prefixed("$", name);
      case Plug(name) =>
        OneToken(Token.Plug("$$" + name), rest);
        Prefixed("$$", name);
      case Literal(lit) => LiteralBase(lit, rest);
    }
  }

  lemma {:induction false} ReferenceRoundTrip(name: string, rest: Input)
    requires IsDottedName(name) && Peek(rest) != Dot
    ensures ParseBase(PrintName(name, rest)) == Ok((Reference(name), rest))
  {
    hide Word, FirstDot, AreParts, ParseDotted, ParseArray, ParseMap, ParseGroup, MapAhead;
    var k := FirstDot(name);
    NamePart(name[..k]);
    PartsRoundTrip(name[..k], name[k..], rest);
    SkipOne(Word(name[..k]), PrintParts(name[k..], rest));
    assert name[..k] + name[k..] == name;
  }

  lemma Prefixed(prefix: string, name: string)
    ensures StripPrefix(prefix + name, prefix) == name
  {
  }

  lemma OneToken(t: Token, rest: Input)
    requires t.Builtin? || t.Socket? || t.Plug?
    ensures ParseBase([t] + rest)
         == Ok((if t.Builtin? then TypeExpression.Builtin(t.name)
                else if t.Socket? then TypeExpression.Socket(StripPrefix(t.lexeme, "$"))
                else TypeExpression.Plug(StripPrefix(t.lexeme, "$$")), rest))
  {
    hide ParseArray, ParseMap, ParseGroup, MapAhead, ParseDotted, StripPrefix;
    assert ([t] + rest)[1..] == rest;
  }

  lemma LiteralBase(lit: LiteralValue, rest: Input)
    requires IsLiteralType(lit)
    ensures ParseBase(PrintLiteral(lit, rest)) == Ok((Literal(lit), rest))
  {
    hide ParseArray, ParseMap, ParseGroup, MapAhead, ParseDotted, StripPrefix;
    var text := PrintLiteral(lit, rest);
    assert text[1..] == rest;
  }

  lemma GroupOpens(g: GroupExpression, indent: nat, cfg: FormatConfig, rest: Input)
    ensures Peek(PrintGroup(g, indent, cfg, rest)) == LeftBrace
  {
  }

  lemma ArrowEnds(val: Input)
    ensures EndsType([SPACE] + ([Arrow] + ([SPACE] + val)))
    ensures Skip([SPACE] + ([Arrow] + ([SPACE] + val))) == [Arrow] + ([SPACE] + val)
  {
    hide Skip;
    SkipOne(SPACE, [Arrow] + ([SPACE] + val));
    SkipOne(Arrow, [SPACE] + val);
  }

  lemma ArrayRoundTrip(element: TypeExpression, indent: nat, cfg: FormatConfig, rest: Input)
    requires Faithful(element) && (element.Literal? || !IntegerFirst(element))
    requires ReadsBack(element, indent, cfg, [RightBracket] + rest)
    ensures ParseArray([LeftBracket] + PrintType(element, indent, cfg, [RightBracket] + rest))
         == Ok((Array(element, None), rest))
  {
    hide PrintType, ParseType, Faithful, IntegerFirst, ParseMember, Skip;
    var e := GroupEntry(None, element, None, [], []);
    var text := PrintType(element, indent, cfg, [RightBracket] + rest);
    SkipOne(LeftBracket, text);
    DelimiterEnds(RightBracket, rest);
    MemberRoundTrip(e, indent, cfg, RightBracket, rest);
    SkipNothing(text);
  }

  lemma TupleRoundTrip(g: GroupExpression, indent: nat, cfg: FormatConfig, rest: Input)
    requires !(|g.entries| == 1 && g.entries[0].key.None?)
    requires var text := PrintMembers(g.entries, indent, cfg, [RightBracket] + rest);
             Skip(text) == text && ParseMembers(text) == Ok((g.entries, [RightBracket] + rest))
    ensures ParseArray([LeftBracket] + PrintMembers(g.entries, indent, cfg, [RightBracket] + rest))
         == Ok((Tuple(g), rest))
  {
    hide PrintMembers, ParseMembers, Skip;
    SkipOne(LeftBracket, PrintMembers(g.entries, indent, cfg, [RightBracket] + rest));
    SkipOne(RightBracket, rest);
  }

  lemma {:induction false} MembersRoundTrip(es: seq<GroupEntry>, indent: nat, cfg: FormatConfig, rest: Input)
    requires forall e | e in es :: FaithfulMember(e)
    ensures var text := PrintMembers(es, indent, cfg, [RightBracket] + rest);
            Skip(text) == text && ParseMembers(text) == Ok((es, [RightBracket] + rest))
    decreases es, 3
  {
    hide PrintMember, ParseMember, FaithfulMember, Skip, EndsEntry, ReadsBack;
    var close := [RightBracket] + rest;
    DelimiterEnds(RightBracket, rest);
    if es != [] {
      var text := PrintMembers(es[1..], indent, cfg, close);
      var d, tail := if es[1..] == [] then RightBracket else Comma, if es[1..] == [] then rest else [SPACE] + text;
      assert PrintMoreMembers(es[1..], indent, cfg, close) == [d] + tail;
      MemberValueReadsBack(es[0], indent, cfg, d, tail);
      MemberRoundTrip(es[0], indent, cfg, d, tail);
      SkipNothing(PrintMember(es[0], indent, cfg, [d] + tail));
      DelimiterEnds(d, tail);
      if es[1..] == [] {
        assert es == [es[0]];
      } else {
        MembersRoundTrip(es[1..], indent, cfg, rest);
        SkipOne(SPACE, text);
        assert es == [es[0]] + es[1..];
      }
    }
  }

  lemma {:induction false} MemberValueReadsBack(e: GroupEntry, indent: nat, cfg: FormatConfig, d: Token, rest: Input)
    requires FaithfulMember(e) && (d == Comma || d == RightBracket)
    ensures ReadsBack(e.valueType, indent, cfg, [d] + rest)
    decreases e, 3
  {
    hide ReadsBack, Faithful, EndsType;
    DelimiterEnds(d, rest);
    TypeReadsBack(e.valueType, indent, cfg, [d] + rest);
  }

  lemma MapRoundTrip(key: TypeExpression, value: TypeExpression, indent: nat, cfg: FormatConfig, rest: Input)
    requires Faithful(key) && Faithful(value) && !IntegerFirst(key)
    requires ReadsBack(value, indent, cfg, [RightBrace] + rest)
    requires ReadsBack(key, indent, cfg,
               [SPACE] + ([Arrow] + ([SPACE] + PrintType(value, indent, cfg, [RightBrace] + rest))))
    ensures ParseMap([LeftBrace] + PrintType(key, indent, cfg,
              [SPACE] + ([Arrow] + ([SPACE] + PrintType(value, indent, cfg, [RightBrace] + rest)))))
         == Ok((Map(key, value, None), rest))
  {
    hide PrintType, ParseType, Faithful, IntegerFirst, Skip;
    var val := PrintType(value, indent, cfg, [RightBrace] + rest);
    var behindKey := [SPACE] + ([Arrow] + ([SPACE] + val));
    var text := PrintType(key, indent, cfg, behindKey);
    TypeOpens(key, indent, cfg, behindKey);
    TypeOpens(value, indent, cfg, [RightBrace] + rest);
    SkipOne(LeftBrace, text);
    SkipNothing(text);
    ArrowEnds(val);
    SkipOne(Arrow, [SPACE] + val);
    SkipOne(SPACE, val);
    SkipNothing(val);
    DelimiterEnds(RightBrace, rest);
  }

  lemma {:induction false} GroupRoundTrip(g: GroupExpression, indent: nat, cfg: FormatConfig, rest: Input)
    requires forall e | e in g.entries :: ReadableEntry(e)
    ensures ParseGroup(PrintGroup(g, indent, cfg, rest)) == Ok((Group(GroupExpression(ReadEntries(g.entries))), rest))
    decreases g, 4
  {
    hide PrintEntries, ParseMoreEntries, Spaces, Skip, ReadableEntry, ReadEntry;
    var close := Spaces(indent, [RightBrace] + rest);
    var inner := indent + cfg.indentSize;
    DelimiterEnds(RightBrace, rest);
    EntriesRoundTrip(g.entries, inner, indent, cfg, RightBrace, rest);
    if g.entries == [] {
      NoEntries(g.entries, inner, cfg, close);
      SkipSpaces(indent, [RightBrace] + rest);
      SkipOne(LeftBrace, [RightBrace] + rest);
    } else {
      var entries := PrintEntries(g.entries, inner, cfg, close);
      SkipOne(LeftBrace, [Newline] + entries);
      SkipOne(Newline, entries);
    }
  }

  lemma {:induction false} EntriesRoundTrip(
      es: seq<GroupEntry>, indent: nat, outer: nat, cfg: FormatConfig, close: Token, rest: Input)
    requires (forall e | e in es :: ReadableEntry(e)) && (close == RightBrace || close == RightParen)
    ensures ParseMoreEntries(Skip(PrintEntries(es, indent, cfg, Spaces(outer, [close] + rest))), close)
         == Ok((ReadEntries(es), [close] + rest))
    decreases es, 3
  {
    hide PrintEntry, PrintEntries, ParseEntry, ParseMoreEntries, ReadableEntry, ReadEntry, Skip, EndsEntry, ReadsBack,
      Spaces, Opens, PrintAnnotations, PrintComma;
    var end := Spaces(outer, [close] + rest);
    if es == [] {
      NoEntries(es, indent, cfg, end);
      SkipSpaces(outer, [close] + rest);
      SkipOne(close, rest);
      EntriesStop(close, rest);
    } else {
      EntriesUnfold(es, indent, cfg, end);
      var comma := |es| > 1 || cfg.trailingCommas;
      var behind := PrintComma(comma, [Newline] + PrintEntries(es[1..], indent, cfg, end));
      var text := PrintEntry(es[0], indent, cfg, behind);
      BehindEntry(es, indent, outer, cfg, close, rest);
      EntryValueReadsBack(es[0], indent, cfg, behind);
      EntryRoundTrip(es[0], indent, cfg, behind);
      SkipSpaces(indent, text);
      OpensSkips(text);
      OneEntry(text, ReadEntry(es[0]), Skip(behind), close);
      if comma {
        EntriesRoundTrip(es[1..], indent, outer, cfg, close, rest);
      } else {
        assert ReadEntries(es) == [ReadEntry(es[0])];
      }
    }
  }

  /** Behind an entry comes its comma and then the next one, or the closing mark. */
  lemma BehindEntry(es: seq<GroupEntry>, indent: nat, outer: nat, cfg: FormatConfig, close: Token, rest: Input)
    requires es != [] && (close == RightBrace || close == RightParen)
    ensures var comma := |es| > 1 || cfg.trailingCommas;
            var more := PrintEntries(es[1..], indent, cfg, Spaces(outer, [close] + rest));
            var behind := PrintComma(comma, [Newline] + more);
            && EndsEntry(behind) && Skip(Skip(behind)) == Skip(behind)
            && (if comma then Peek(Skip(behind)) == Comma && Skip(Skip(behind)[1..]) == Skip(more)
                else Skip(behind) == [close] + rest)
  {
    hide PrintEntries, Skip, EndsEntry, Spaces;
    var end := Spaces(outer, [close] + rest);
    var more := PrintEntries(es[1..], indent, cfg, end);
    if |es| > 1 || cfg.trailingCommas {
      SkipOne(Newline, more);
      DelimiterEnds(Comma, [Newline] + more);
    } else {
      NoEntries(es[1..], indent, cfg, end);
      LineEnds(outer, close, rest);
      SkipOne(close, rest);
    }
  }

  lemma EntriesStop(close: Token, rest: Input)
    requires close == RightBrace || close == RightParen
    ensures ParseMoreEntries([close] + rest, close) == Ok(([], [close] + rest))
  {
  }

  /** One entry read, the loop goes on behind a comma and ends at the closing mark. */
  lemma {:induction false} OneEntry(text: Input, e: GroupEntry, behind: Input, close: Token)
    requires (close == RightBrace || close == RightParen) && Opens(Peek(text))
    requires ParseEntry(text) == Ok((e, behind)) && Skip(behind) == behind
    ensures Peek(behind) == close ==> ParseMoreEntries(text, close) == Ok(([e], behind))
    ensures Peek(behind) == Comma && ParseMoreEntries(Skip(behind[1..]), close).Ok? ==>
              var (more, left) := ParseMoreEntries(Skip(behind[1..]), close).value;
              ParseMoreEntries(text, close) == Ok(([e] + more, left))
    ensures Peek(behind) == Comma && ParseMoreEntries(Skip(behind[1..]), close).Err?
         ==> ParseMoreEntries(text, close).Err?
  {
    hide ParseEntry, Skip;
  }

  /** A last entry without a comma ends at the line's end. */
  lemma LineEnds(outer: nat, close: Token, rest: Input)
    requires close == RightBrace || close == RightParen
    ensures EndsEntry([Newline] + Spaces(outer, [close] + rest))
    ensures Skip([Newline] + Spaces(outer, [close] + rest)) == [close] + rest
  {
    var end := Spaces(outer, [close] + rest);
    SkipOne(Newline, end);
    SkipSpaces(outer, [close] + rest);
    SkipOne(close, rest);
    assert !ColonAhead([close] + rest, true);
    if outer > 0 {
      SkipOne(Whitespace(seq(outer, _ => ' ')), [close] + rest);
    }
    assert !ColonAhead(end, true);
  }

  lemma {:induction false} EntryValueReadsBack(e: GroupEntry, indent: nat, cfg: FormatConfig, rest: Input)
    requires ReadableEntry(e) && EndsEntry(rest)
    ensures ReadsBack(e.valueType, indent, cfg, PrintAnnotations(e.metadata, rest))
    decreases e, 3
  {
    hide ReadsBack, Faithful, EndsType, PrintAnnotations, LexesAnnotation, ReadableAnnotation;
    AnnotationsEndValue(e.metadata, rest);
    TypeReadsBack(e.valueType, indent, cfg, PrintAnnotations(e.metadata, rest));
  }

  // ---- main results ------------------------------------------------------------------------------------------

  /** The tokens of a printed type, with nothing behind them. */
  function Printed(t: TypeExpression, indent: nat, cfg: FormatConfig): Input {
    PrintType(t, indent, cfg, [])
  }

  /** Printing then parsing gives the type expression back and leaves the delimiter behind it, and
      all that follows, unread. */
  lemma {:induction false} PrintedParsesBack(
      t: TypeExpression, indent: nat, cfg: FormatConfig, delimiter: Token, rest: Input)
    requires Faithful(t) && !IsTrivia(delimiter)
    requires delimiter != Dot && !IsControl(delimiter) && !IsChoiceMark(delimiter) && !IsRangeMark(delimiter)
    ensures ParseType(Printed(t, indent, cfg) + ([delimiter] + rest)) == Ok((t, [delimiter] + rest))
  {
    hide PrintType, Faithful, ParseType, Skip, IsControl;
    SkipOne(delimiter, rest);
    TypeAppends(t, indent, cfg, [], [delimiter] + rest);
    assert [] + ([delimiter] + rest) == [delimiter] + rest;
    TypeReadsBack(t, indent, cfg, [delimiter] + rest);
  }
}
