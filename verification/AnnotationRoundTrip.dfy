/** Parsing what was printed, for field annotations: which printed ones are read, as what, and which
    come back as themselves. */
module AnnotationRoundTrip {
  import opened Bytes
  import opened Ast
  import opened Tokens
  import opened AnnotationParser
  import opened AnnotationPrinter
  import opened ConditionRoundTrip

  // ---- annotations -----------------------------------------------------------------------------------------

  lemma CustomLexes(name: string)
    requires IsCustomName(name)
    ensures AtWord(name) == At(AtCustom(name))
  {
  }

  lemma ParenSkips(at: Token, inner: Input)
    requires at.At?
    ensures var text := InParens(at, inner);
            && text[0] == at && Skip(text[1..]) == [LeftParen] + inner && text[1..] == [LeftParen] + inner
            && ([LeftParen] + inner)[1..] == inner
  {
    hide Skip;
    SkipOne(LeftParen, inner);
  }

  lemma CloseReads<T>(item: T, rest: Input)
    ensures CloseParen(item, [RightParen] + rest) == Ok((item, rest))
  {
    hide Skip;
    SkipOne(RightParen, rest);
  }

  /** What a condition gets stuck at is no closing parenthesis. */
  lemma StuckInParens<T>(item: T, ts: Input)
    requires StopsHere(Peek(ts))
    ensures CloseParen(item, ts).Err?
  {
    hide Skip;
    SkipNothing(ts);
  }

  lemma SimplestIsRead(c: Condition)
    ensures ReadAnnotation(DependsOnExpr(c)) == Simplest(ReadCondition(c))
  {
    hide ReadCondition;
  }

  /** A condition in the parentheses of `@depends-on`. */
  lemma {:induction false} ConditionInParens(c: Condition, rest: Input)
    requires LexesCondition(c)
    ensures var r := ParseAnnotation(InParens(At(AtDependsOn), PrintCondition(c, [RightParen] + rest)));
            if ReadableCondition(c) then r == Ok((Simplest(ReadCondition(c)), rest)) else r.Err?
  {
    hide ReadableCondition, ReadCondition, PrintCondition, ParseCondition, Skip, CloseParen, StopsHere, InParens;
    var text := PrintCondition(c, [RightParen] + rest);
    ParenSkips(At(AtDependsOn), text);
    ConditionReads(c, rest);
    if ReadableCondition(c) {
      CloseReads(Simplest(ReadCondition(c)), rest);
    } else if ParseCondition(Skip(text)).Ok? {
      var (item, left) := ParseCondition(Skip(text)).value;
      StuckInParens(Simplest(item), left);
    }
  }

  lemma {:induction false} DependsOnReads(field: string, value: Option<LiteralValue>, rest: Input)
    requires IsPathText(field) && LexesOperand(value)
    ensures var r := ParseAnnotation(PrintAnnotation(DependsOn(field, value), rest));
            if IsFieldPath(field) then r == Ok((DependsOn(field, None), PrintOperand(Some(Eq), value, rest)))
            else r.Err?
  {
    hide IsPathText, IsFieldPath, PrintName, InParens, PrintOperand, ParseAnnotation, PrintCondition;
    var c := Compare(field, None, None);
    var behind := PrintOperand(Some(Eq), value, rest);
    ConditionInParens(c, behind);
    LoneField(field, [RightParen] + behind);
    LoneTerms(c);
  }

  lemma LoneField(field: string, rest: Input)
    ensures PrintCondition(Compare(field, None, None), rest) == PrintName(field, rest)
  {
    hide PrintName;
  }

  lemma LoneTerms(c: Condition)
    requires c.Compare? && c == Compare(c.field, None, None)
    ensures ReadCondition(c) == c && (ReadableCondition(c) <==> IsFieldPath(c.field))
  {
    hide IsFieldPath;
    assert AreReadable([c]) <==> ReadableAtom(c);
  }

  lemma {:induction false} DescriptionReads(text: string, rest: Input)
    requires Unescaped(text).Some?
    ensures ParseAnnotation(PrintAnnotation(Description(text), rest)) == Ok((Description(Unescaped(text).value), rest))
  {
    hide Skip, CloseParen, InParens, Unescaped;
    var behind := [RightParen] + rest;
    ParenSkips(At(AtDescription), [Quoted(text)] + behind);
    SkipOne(Quoted(text), behind);
    CloseReads(Description(Unescaped(text).value), rest);
  }

  lemma {:induction false} BoundReads(bound: SizeBound, n: u64, rest: Input)
    ensures var r := ParseAnnotation(PrintAnnotation(Bounded(bound, n), rest));
            if Unsigned(n).Integer? then r == Ok((Bounded(bound, n), rest)) else r.Err?
  {
    hide Skip, CloseParen, InParens;
    var behind := [RightParen] + rest;
    ParenSkips(At(AtSizeBound(bound)), [Unsigned(n)] + behind);
    SkipOne(Unsigned(n), behind);
    CloseReads(Bounded(bound, n), rest);
  }

  lemma {:induction false} LimitReads(limit: ValueLimit, value: LiteralValue, rest: Input)
    requires LexesLiteral(value)
    ensures ParseAnnotation(PrintAnnotation(Limited(limit, value), rest))
         == Ok((Limited(limit, ReadLiteral(value)), rest))
  {
    hide Skip, CloseParen, InParens, ParseLiteral, PrintLiteral, ReadLiteral, LexesLiteral, Opens;
    var text := PrintLiteral(value, [RightParen] + rest);
    ParenSkips(At(AtValueLimit(limit)), text);
    LiteralReads(value, [RightParen] + rest);
    OpensSkips(text);
    CloseReads(Limited(limit, ReadLiteral(value)), rest);
  }

  // ---- custom annotations ------------------------------------------------------------------------------------

  lemma NoName(t: Token, behind: Input)
    ensures !t.Identifier? ==> !NamedAhead([t] + behind)
    ensures behind == [] || !(behind[0].Whitespace? || behind[0] == Newline || behind[0] == Comparison(Eq)) ==>
              !NamedAhead([t] + behind)
  {
    assert ([t] + behind)[1..] == behind;
  }

  lemma AssignIsAhead(name: string, text: Input)
    ensures var assign := [Comparison(Eq)] + ([SPACE] + text);
            NamedAhead([Identifier(name)] + ([SPACE] + assign))
  {
    var assign := [Comparison(Eq)] + ([SPACE] + text);
    assert ([Identifier(name)] + ([SPACE] + assign))[1..] == [SPACE] + assign && ([SPACE] + assign)[1..] == assign;
    assert AssignAhead(assign);
    assert AssignAhead([SPACE] + assign);
  }

  /** A name, `=` and a literal are a named parameter. */
  lemma NamedByParts(text: Input, tail: Input, value: LiteralValue, rest: Input)
    requires NamedAhead(text) && Skip(text[1..]) == [Comparison(Eq)] + tail
    requires ParseLiteral(Skip(tail)) == Ok((value, rest))
    ensures ParseParameter(text) == Ok((Parameter(Some(text[0].name), value), rest))
  {
    hide Skip, ParseLiteral, AssignAhead;
    assert ([Comparison(Eq)] + tail)[1..] == tail;
  }

  lemma {:induction false} NamedReads(name: string, value: LiteralValue, rest: Input)
    requires IsName(name) && LexesLiteral(value)
    ensures var text := PrintParameter(Parameter(Some(name), value), rest);
            && Opens(Peek(text)) && ParseParameter(text) == Ok((Parameter(Some(name), ReadLiteral(value)), rest))
  {
    hide Skip, ParseLiteral, PrintLiteral, ReadLiteral, LexesLiteral, PrintName, Word, NamedAhead, ParseParameter;
    var text := PrintLiteral(value, rest);
    var assign := [Comparison(Eq)] + ([SPACE] + text);
    NamePart(name);
    WholeName(name, [SPACE] + assign);
    LiteralReads(value, rest);
    OpensSkips(text);
    AssignIsAhead(name, text);
    SkipOne(Identifier(name), [SPACE] + assign);
    SkipOne(SPACE, assign);
    SkipOne(Comparison(Eq), [SPACE] + text);
    SkipOne(SPACE, text);
    NamedByParts([Identifier(name)] + ([SPACE] + assign), [SPACE] + text, ReadLiteral(value), rest);
  }

  lemma {:induction false} UnnamedReads(value: LiteralValue, rest: Input)
    requires LexesLiteral(value)
    ensures var text := PrintParameter(Parameter(None, value), rest);
            && Opens(Peek(text)) && ParseParameter(text) == Ok((Parameter(None, ReadLiteral(value)), rest))
  {
    hide Skip, ParseLiteral, PrintLiteral, ReadLiteral, LexesLiteral;
    LiteralReads(value, rest);
    LiteralIsNoName(value, rest);
  }

  lemma LiteralIsNoName(value: LiteralValue, rest: Input)
    ensures !Peek(PrintLiteral(value, rest)).Identifier?
  {
    hide Unescaped;
  }

  /** What is read of a parameter, if anything, stops at neither a comma nor a parenthesis. */
  predicate ParameterFails(text: Input) {
    && Peek(text) != RightParen && Peek(text) != Eof
    && var r := ParseParameter(text); r.Ok? ==> Peek(Skip(r.value.1)) !in {Comma, RightParen}
  }

  lemma {:induction false} BadNameFails(name: string, value: LiteralValue, rest: Input)
    requires !IsName(name)
    ensures ParameterFails(Skip(PrintParameter(Parameter(Some(name), value), rest)))
  {
    hide Skip, PrintLiteral, Word, FirstDot, PrintParts, ParseLiteral;
    var assign := [Comparison(Eq)] + ([SPACE] + PrintLiteral(value, rest));
    var k := FirstDot(name);
    var first, behind := Word(name[..k]), PrintParts(name[k..], [SPACE] + assign);
    WordIsNoTrivia(name[..k]);
    SkipOne(first, behind);
    SkipOne(SPACE, assign);
    SkipOne(Comparison(Eq), [SPACE] + PrintLiteral(value, rest));
    BehindName(name[k..], [SPACE] + assign);
    if name[k..] == "" {
      assert name[..k] == name;
      assert PrintParts("", [SPACE] + assign) == [SPACE] + assign by { NoParts([SPACE] + assign); }
    }
    NoName(first, behind);
    LoneWord(first, behind);
  }

  lemma NoParts(rest: Input)
    ensures PrintParts("", rest) == rest
  {
  }

  lemma BehindName(parts: string, rest: Input)
    requires parts != "" ==> parts[0] == '.'
    ensures parts != "" ==>
              && var text := PrintParts(parts, rest);
                 text != [] && Skip(text) == text && text[0] !in {Comma, RightParen, Newline, Comparison(Eq)}
                 && !text[0].Whitespace?
  {
    hide Word, FirstPart, MoreParts, SpellsOperator, Operator, Skip;
    if parts != "" {
      if SpellsOperator(FirstPart(parts)) {
        OperatorIsPlainMark(FirstPart(parts));
      }
      SkipNothing(PrintParts(parts, rest));
    }
  }

  lemma OperatorIsPlainMark(word: string)
    requires SpellsOperator(word)
    ensures Operator(word) !in {Comma, RightParen, Newline, Comparison(Eq)} && !IsTrivia(Operator(word))
  {
  }

  lemma LoneWord(t: Token, behind: Input)
    requires t.Identifier? || t.Builtin? || t.Other?
    ensures var r := ParseLiteral([t] + behind); r.Ok? ==> r.value.1 == behind
  {
    hide ParseElements, Skip;
    assert ([t] + behind)[1..] == behind;
  }

  lemma {:induction false} ParameterReads(p: Parameter, rest: Input)
    requires LexesParameter(p)
    ensures var text := PrintParameter(p, rest);
            if ReadableParameter(p) then
              && Skip(text) == text && Peek(text) != RightParen && Peek(text) != Eof
              && ParseParameter(text) == Ok((Parameter(p.name, ReadLiteral(p.value)), rest))
            else ParameterFails(Skip(text))
  {
    hide ReadLiteral, ParseParameter, PrintParameter, IsName, Opens, ParameterFails, Skip;
    if p.name.None? {
      UnnamedReads(p.value, rest);
      OpensSkips(PrintParameter(p, rest));
    } else if IsName(p.name.value) {
      NamedReads(p.name.value, p.value, rest);
      OpensSkips(PrintParameter(p, rest));
    } else {
      BadNameFails(p.name.value, p.value, rest);
    }
  }

  lemma {:induction false} ParametersRead(ps: seq<Parameter>, rest: Input)
    requires forall p | p in ps :: LexesParameter(p)
    ensures var close := [RightParen] + rest;
            var text := PrintParameters(ps, close);
            if forall p | p in ps :: ReadableParameter(p) then
              Skip(text) == text && ParseParameters(text) == Ok((ReadParameters(ps), close))
            else ParseParameters(Skip(text)).Err?
    decreases |ps|
  {
    hide ReadLiteral, ParseParameter, PrintParameter, ReadableParameter, LexesParameter, ParameterFails, Skip,
      ParseParameters;
    var close := [RightParen] + rest;
    SkipOne(RightParen, rest);
    if ps == [] {
      NoParameters(close);
    } else {
      var more := PrintMoreParameters(ps[1..], close);
      var text := PrintParameter(ps[0], more);
      ParameterReads(ps[0], more);
      if !ReadableParameter(ps[0]) {
        FailedParameter(Skip(text));
      } else {
        var first := Parameter(ps[0].name, ReadLiteral(ps[0].value));
        if ps[1..] == [] {
          assert ps == [ps[0]] && ReadParameters(ps) == [first];
          assert more == close;
        } else {
          var tail := PrintParameters(ps[1..], close);
          assert more == [Comma] + ([SPACE] + tail);
          SkipOne(Comma, [SPACE] + tail);
          SkipOne(SPACE, tail);
          ParametersRead(ps[1..], rest);
        }
        OneParameter(text, first, more);
      }
    }
  }

  lemma NoParameters(ts: Input)
    requires Peek(ts) == RightParen
    ensures ParseParameters(ts) == Ok(([], ts))
  {
  }

  lemma FailedParameter(ts: Input)
    requires ParameterFails(ts)
    ensures ParseParameters(ts).Err?
  {
    hide ParseParameter, Skip;
  }

  /** One parameter read, the list goes on behind a comma and ends at the closing parenthesis. */
  lemma OneParameter(text: Input, p: Parameter, behind: Input)
    requires Peek(text) != RightParen && Peek(text) != Eof && ParseParameter(text) == Ok((p, behind))
    requires Skip(behind) == behind && Peek(behind) in {Comma, RightParen}
    ensures Peek(behind) == RightParen ==> ParseParameters(text) == Ok(([p], behind))
    ensures Peek(behind) == Comma ==>
              var r := ParseParameters(Skip(behind[1..]));
              if r.Err? then ParseParameters(text).Err?
              else ParseParameters(text) == Ok(([p] + r.value.0, r.value.1))
  {
    hide ParseParameter, Skip;
  }

  lemma {:induction false} CustomReads(name: string, ps: seq<Parameter>, rest: Input)
    requires IsCustomName(name) && forall p | p in ps :: LexesParameter(p)
    ensures var r := ParseAnnotation(InParens(AtWord(name), PrintParameters(ps, [RightParen] + rest)));
            if forall p | p in ps :: ReadableParameter(p) then r == Ok((Custom(name, ReadParameters(ps)), rest))
            else r.Err?
  {
    hide Skip, InParens, ParseParameters, PrintParameters, ReadParameters, AtWord, IsCustomName, ReadableParameter,
      LexesParameter;
    var text := PrintParameters(ps, [RightParen] + rest);
    CustomLexes(name);
    ParenSkips(AtWord(name), text);
    ParametersRead(ps, rest);
    SkipOne(RightParen, rest);
  }

  /** A literal where a parameter could stand. */
  lemma RestrictedText(value: LiteralValue, rest: Input)
    ensures PrintParameters([Parameter(None, value)], rest) == PrintLiteral(value, rest)
  {
    hide PrintLiteral;
    assert PrintMoreParameters([Parameter(None, value)][1..], rest) == rest;
  }

  // ---- main results --------------------------------------------------------------------------------------------

  /** What is read of an annotation, if anything, leaves an operator behind. */
  predicate AnnotationFails(text: Input)
    requires Peek(text).At?
  {
    var r := ParseAnnotation(text);
    r.Ok? ==> Skip(r.value.1) != r.value.1 && Peek(Skip(r.value.1)).Comparison?
  }

  /** A printed annotation whose parts lex is read as `ReadAnnotation` says, with nothing behind it read, or
      it is refused. */
  lemma {:induction false} AnnotationReads(a: Annotation, rest: Input)
    requires LexesAnnotation(a)
    ensures var text := PrintAnnotation(a, rest);
            && Peek(text).At? && text == [Peek(text)] + text[1..]
            && if ReadableAnnotation(a) then ParseAnnotation(text) == Ok((ReadAnnotation(a), rest))
               else AnnotationFails(text) && ParseAnnotation(text) != Ok((a, rest))
  {
    hide InParens, PrintName, PrintLiteral, PrintCondition, PrintParameters, ParseAnnotation, IsFieldPath, IsPathText,
      LexesLiteral, ReadLiteral, IsCustomName, ReadableCondition, ReadCondition, Unescaped, AtWord, LexesCondition,
      ReadParameters, LexesParameter, ReadableParameter, PrintOperand;
    match a {
      case Shown(visibility) => ShownReads(visibility, rest);
      case DependsOn(field, value) =>
        StartsWithAt(At(AtDependsOn), PrintName(field, [RightParen] + PrintOperand(Some(Eq), value, rest)));
        DependsOnReads(field, value, rest);
        OperandStays(value, rest);
      case DependsOnExpr(c) =>
        StartsWithAt(At(AtDependsOn), PrintCondition(c, [RightParen] + rest));
        SimplestIsRead(c);
        ConditionInParens(c, rest);
      case Bounded(bound, n) =>
        StartsWithAt(At(AtSizeBound(bound)), [Unsigned(n)] + ([RightParen] + rest));
        BoundReads(bound, n, rest);
      case Limited(limit, value) =>
        StartsWithAt(At(AtValueLimit(limit)), PrintLiteral(value, [RightParen] + rest));
        LimitReads(limit, value, rest);
      case Restricted(name, value) =>
        CustomLexes(name);
        StartsWithAt(AtWord(name), PrintLiteral(value, [RightParen] + rest));
        RestrictedReads(name, value, rest);
      case Description(text) =>
        StartsWithAt(At(AtDescription), [Quoted(text)] + ([RightParen] + rest));
        DescriptionReads(text, rest);
      case Custom(name, parameters) =>
        CustomLexes(name);
        StartsWithAt(AtWord(name), PrintParameters(parameters, [RightParen] + rest));
        CustomReads(name, parameters, rest);
    }
  }

  lemma StartsWithAt(at: Token, inner: Input)
    requires at.At?
    ensures var text := InParens(at, inner); Peek(text) == at && text == [Peek(text)] + text[1..]
  {
  }

  lemma ShownReads(visibility: Visibility, rest: Input)
    ensures ParseAnnotation([At(AtVisibility(visibility))] + rest) == Ok((Shown(visibility), rest))
  {
    hide ParseDependsOn, ParseDescription, ParseSizeBound, ParseValueLimit, ParseCustom, Skip;
    assert ([At(AtVisibility(visibility))] + rest)[1..] == rest;
  }

  lemma OperandStays(value: Option<LiteralValue>, rest: Input)
    ensures var behind := PrintOperand(Some(Eq), value, rest);
            if value.None? then behind == rest else Skip(behind) != behind && Peek(Skip(behind)).Comparison?
  {
    hide Skip, PrintLiteral;
    if value.Some? {
      var text := [Comparison(Eq)] + ([SPACE] + PrintLiteral(value.value, rest));
      SkipOne(SPACE, text);
      SkipOne(Comparison(Eq), [SPACE] + PrintLiteral(value.value, rest));
      assert |text| < |[SPACE] + text|;
    }
  }

  lemma {:induction false} RestrictedReads(name: string, value: LiteralValue, rest: Input)
    requires IsCustomName(name) && LexesLiteral(value)
    ensures ParseAnnotation(PrintAnnotation(Restricted(name, value), rest))
         == Ok((Custom(name, [Parameter(None, ReadLiteral(value))]), rest))
  {
    hide InParens, PrintLiteral, ParseAnnotation, LexesLiteral, ReadLiteral, IsCustomName, AtWord, PrintParameters;
    var ps := [Parameter(None, value)];
    RestrictedText(value, [RightParen] + rest);
    CustomReads(name, ps, rest);
    assert ps[1..] == [] && ReadParameters(ps) == [Parameter(None, ReadLiteral(value))];
  }

  lemma {:induction false} ParametersComeBack(ps: seq<Parameter>)
    requires forall p | p in ps :: LexesParameter(p)
    ensures (forall p | p in ps :: FaithfulParameter(p))
       <==> (forall p | p in ps :: ReadableParameter(p)) && ReadParameters(ps) == ps
    decreases |ps|
  {
    hide ReadLiteral, LexesLiteral, FaithfulLiteral, IsName;
    if ps != [] {
      assert LexesParameter(ps[0]);
      LiteralComesBack(ps[0].value);
      ParametersComeBack(ps[1..]);
      assert ps == [ps[0]] + ps[1..];
      assert ReadParameters(ps)[1..] == ReadParameters(ps[1..]);
      assert FaithfulParameter(ps[0]) <==> ReadableParameter(ps[0]) && ReadParameters(ps)[0] == ps[0];
    }
  }

  lemma {:induction false} FaithfulExactly(a: Annotation)
    requires LexesAnnotation(a)
    ensures FaithfulAnnotation(a) <==> ReadableAnnotation(a) && ReadAnnotation(a) == a
  {
    hide IsFieldPath, IsPathText, LexesLiteral, ReadLiteral, FaithfulLiteral, IsCustomName, ReadableCondition,
      ReadCondition, FaithfulCondition, LexesCondition, FaithfulParameter, ReadableParameter, LexesParameter,
      ReadParameters, Unescaped;
    match a {
      case DependsOnExpr(c) => ConditionComesBack(c);
      case Limited(_, value) => LiteralComesBack(value);
      case Custom(_, ps) => ParametersComeBack(ps);
      case _ =>
    }
  }

  /** An annotation whose parts lex comes back from its printed text exactly when it is faithful. */
  lemma {:induction false} AnnotationComesBack(a: Annotation, rest: Input)
    requires LexesAnnotation(a)
    ensures Peek(PrintAnnotation(a, rest)).At?
    ensures ParseAnnotation(PrintAnnotation(a, rest)) == Ok((a, rest)) <==> FaithfulAnnotation(a)
  {
    hide ParseAnnotation, PrintAnnotation, LexesAnnotation, FaithfulAnnotation, ReadAnnotation, ReadableAnnotation,
      Skip, AnnotationFails;
    AnnotationReads(a, rest);
    FaithfulExactly(a);
  }

  /** `@description` with a quote in its text, `a"b` for one: what stands behind the quote is no closing
      parenthesis, so the annotation is refused. */
  lemma QuoteEndsDescription(text: string, behind: Input)
    requires Peek(Skip(behind)) != RightParen
    ensures ParseAnnotation(InParens(At(AtDescription), [TextString(text)] + behind)).Err?
  {
    hide Skip, InParens;
    ParenSkips(At(AtDescription), [TextString(text)] + behind);
    SkipOne(TextString(text), behind);
  }

  /** A description that was written with an escape is printed without it. */
  lemma EscapeIsLost(rest: Input)
    ensures ParseAnnotation(PrintAnnotation(Description("a\\nb"), rest)) == Ok((Description("a\nb"), rest))
    ensures !FaithfulAnnotation(Description("a\\nb")) && Unescaped("a\"b") == None
  {
    hide ParseAnnotation, PrintAnnotation;
    var s := "a\\nb";
    assert "b"[1..] == "" && ['b'] + "" == "b" && Unescaped("b") == Some("b");
    var t := s[1..];
    assert |t| == 3 && t[0] == '\\' && t[2..] == "b" && Escape(t[1]) == "\n";
    assert Unescaped(t) == Some("\n" + "b") && "\n" + "b" == "\nb";
    assert Unescaped(s) == Some(['a'] + "\nb") && ['a'] + "\nb" == "a\nb";
    DescriptionReads(s, rest);
    assert "a\"b"[1..] == "\"b";
    assert Unescaped("\"b") == None;
  }

  /** What is faithful lexes. */
  lemma FaithfulLexes(a: Annotation)
    requires FaithfulAnnotation(a)
    ensures LexesAnnotation(a)
  {
    hide IsFieldPath, IsPathText, LexesLiteral, FaithfulLiteral, IsCustomName, FaithfulCondition, LexesCondition,
      Unescaped, FaithfulParameter, LexesParameter;
    match a {
      case DependsOn(field, _) => FieldPathLexes(field);
      case DependsOnExpr(c) => FaithfulConditionLexes(c);
      case Limited(_, value) => LiteralComesBack(value);
      case Custom(_, ps) =>
        forall p | p in ps ensures LexesParameter(p) {
          FaithfulParameterLexes(p);
        }
      case _ =>
    }
  }

  lemma FaithfulParameterLexes(p: Parameter)
    requires FaithfulParameter(p)
    ensures LexesParameter(p)
  {
    hide LexesLiteral, FaithfulLiteral;
    LiteralComesBack(p.value);
    if p.name.Some? {
      NameLexes(p.name.value);
    }
  }

  lemma NameLexes(name: string)
    requires IsName(name)
    ensures IsPathText(name)
  {
  }
}
