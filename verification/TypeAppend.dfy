/** The printing functions put their tokens in front of whatever follows: printing in front of
    `a + b` is printing in front of `a`, with `b` behind. */
module TypeAppend {
  import opened Bytes
  import opened Ast
  import opened Tokens
  import opened AnnotationPrinter
  import opened TypePrinter

  lemma One(t: Token, a: Input, b: Input)
    ensures ([t] + a) + b == [t] + (a + b)
  {
  }

  lemma NameAppends(name: string, a: Input, b: Input)
    ensures PrintName(name, a + b) == PrintName(name, a) + b
  {
    hide Word, PrintParts;
    var k := FirstDot(name);
    PartsAppend(name[k..], a, b);
    One(Word(name[..k]), PrintParts(name[k..], a), b);
  }

  lemma {:induction false} PartsAppend(parts: string, a: Input, b: Input)
    requires parts != "" ==> parts[0] == '.'
    ensures PrintParts(parts, a + b) == PrintParts(parts, a) + b
    decreases |parts|
  {
    hide Word, SpellsOperator, Operator, FirstPart, MoreParts;
    if parts != "" {
      var part, behind := FirstPart(parts), PrintParts(MoreParts(parts), a);
      PartsAppend(MoreParts(parts), a, b);
      if SpellsOperator(part) {
        One(Operator(part), behind, b);
      } else {
        One(Word(part), behind, b);
        One(Dot, [Word(part)] + behind, b);
      }
    }
  }

  lemma SpacesAppend(n: nat, a: Input, b: Input)
    ensures Spaces(n, a + b) == Spaces(n, a) + b
  {
    One(Whitespace(seq(n, _ => ' ')), a, b);
  }

  lemma {:induction false} LiteralAppends(lit: LiteralValue, a: Input, b: Input)
    ensures PrintLiteral(lit, a + b) == PrintLiteral(lit, a) + b
    decreases lit, 0
  {
    hide PrintElements;
    match lit {
      case Integer(i) => One(Token.Integer(i), a, b);
      case Float(bits) => One(Token.Float(bits), a, b);
      case Text(t) => One(Quoted(t), a, b);
      case ByteString(bytes) => One(Token.ByteString(bytes), a, b);
      case Bool(flag) => One(Token.Builtin(if flag then "true" else "false"), a, b);
      case Null => One(Token.Builtin("null"), a, b);
      case List(elements) =>
        ElementsAppend(elements, [RightBracket] + a, b);
        One(RightBracket, a, b);
        One(LeftBracket, PrintElements(elements, [RightBracket] + a), b);
    }
  }

  lemma {:induction false} ElementsAppend(elements: seq<LiteralValue>, a: Input, b: Input)
    ensures PrintElements(elements, a + b) == PrintElements(elements, a) + b
    ensures PrintMoreElements(elements, a + b) == PrintMoreElements(elements, a) + b
    decreases elements, 1
  {
    hide PrintLiteral;
    if elements != [] {
      var more := PrintMoreElements(elements[1..], a);
      ElementsAppend(elements[1..], a, b);
      LiteralAppends(elements[0], more, b);
      One(SPACE, PrintLiteral(elements[0], more), b);
      One(Comma, [SPACE] + PrintLiteral(elements[0], more), b);
    }
  }

  lemma SizeAppends(size: SizeConstraint, a: Input, b: Input)
    ensures PrintSize(size, a + b) == PrintSize(size, a) + b
  {
    hide Unsigned;
    var close := [RightParen] + a;
    One(RightParen, a, b);
    match size {
      case ExactSize(n) => One(Unsigned(n), a, b);
      case SizeRange(min, max) =>
        One(Unsigned(max), close, b);
        One(Token.Range, [Unsigned(max)] + close, b);
        One(Unsigned(min), [Token.Range] + ([Unsigned(max)] + close), b);
        One(LeftParen, [Unsigned(min)] + ([Token.Range] + ([Unsigned(max)] + close)), b);
      case MinSize(min) =>
        One(Token.Range, close, b);
        One(Unsigned(min), [Token.Range] + close, b);
        One(LeftParen, [Unsigned(min)] + ([Token.Range] + close), b);
      case MaxSize(max) =>
        One(Unsigned(max), close, b);
        One(Token.Range, [Unsigned(max)] + close, b);
        One(LeftParen, [Token.Range] + ([Unsigned(max)] + close), b);
    }
  }

  lemma {:induction false} ControlAppends(op: ControlOperator, cfg: FormatConfig, a: Input, b: Input)
    ensures PrintControl(op, cfg, a + b) == PrintControl(op, cfg, a) + b
    decreases op, 1
  {
    hide PrintLiteral, PrintSize, PrintName, PrintType;
    match op {
      case WithLiteral(lop, value) =>
        LiteralAppends(value, a, b);
        One(SPACE, PrintLiteral(value, a), b);
        One(LiteralControl(lop), [SPACE] + PrintLiteral(value, a), b);
      case Plain(plain) => One(PlainControl(plain), a, b);
      case Regex(pattern) =>
        One(Quoted(pattern), a, b);
        One(SPACE, [Quoted(pattern)] + a, b);
        One(RegexControl, [SPACE] + ([Quoted(pattern)] + a), b);
      case Size(size) =>
        SizeAppends(size, a, b);
        One(SPACE, PrintSize(size, a), b);
        One(SizeControl, [SPACE] + PrintSize(size, a), b);
      case Bits(expression) =>
        NameAppends(expression, a, b);
        One(SPACE, PrintName(expression, a), b);
        One(BitsControl, [SPACE] + PrintName(expression, a), b);
      case And(operand) =>
        TypeAppends(operand, 0, cfg, a, b);
        One(SPACE, PrintType(operand, 0, cfg, a), b);
        One(AndControl, [SPACE] + PrintType(operand, 0, cfg, a), b);
      case Within(operand) =>
        TypeAppends(operand, 0, cfg, a, b);
        One(SPACE, PrintType(operand, 0, cfg, a), b);
        One(WithinControl, [SPACE] + PrintType(operand, 0, cfg, a), b);
    }
  }

  lemma {:induction false} ControlsAppend(ops: seq<ControlOperator>, cfg: FormatConfig, a: Input, b: Input)
    ensures PrintControls(ops, cfg, a + b) == PrintControls(ops, cfg, a) + b
    decreases ops, 2
  {
    hide PrintControl;
    if ops != [] {
      ControlsAppend(ops[1..], cfg, a, b);
      ControlAppends(ops[0], cfg, PrintControls(ops[1..], cfg, a), b);
      One(SPACE, PrintControl(ops[0], cfg, PrintControls(ops[1..], cfg, a)), b);
    }
  }

  lemma OperandAppends(op: Option<CompareOp>, value: Option<LiteralValue>, a: Input, b: Input)
    ensures PrintOperand(op, value, a + b) == PrintOperand(op, value, a) + b
  {
    hide PrintLiteral;
    if op.Some? && value.Some? {
      var text := PrintLiteral(value.value, a);
      LiteralAppends(value.value, a, b);
      One(SPACE, text, b);
      One(Comparison(op.value), [SPACE] + text, b);
      One(SPACE, [Comparison(op.value)] + ([SPACE] + text), b);
    }
  }

  lemma {:induction false} ConditionAppends(c: Condition, a: Input, b: Input)
    ensures PrintCondition(c, a + b) == PrintCondition(c, a) + b
    decreases c, 0
  {
    hide PrintName, PrintOperand, PrintTerms;
    match c {
      case Compare(field, op, value) =>
        OperandAppends(op, value, a, b);
        NameAppends(field, PrintOperand(op, value, a), b);
      case All(terms) => TermsAppend(terms, Ampersand, a, b);
      case Any(terms) => TermsAppend(terms, Pipe, a, b);
    }
  }

  lemma {:induction false} TermsAppend(terms: seq<Condition>, mark: Token, a: Input, b: Input)
    ensures PrintTerms(terms, mark, a + b) == PrintTerms(terms, mark, a) + b
    ensures PrintMoreTerms(terms, mark, a + b) == PrintMoreTerms(terms, mark, a) + b
    decreases terms, 1
  {
    hide PrintCondition;
    if terms != [] {
      var more := PrintMoreTerms(terms[1..], mark, a);
      var term := PrintCondition(terms[0], more);
      TermsAppend(terms[1..], mark, a, b);
      ConditionAppends(terms[0], more, b);
      One(SPACE, term, b);
      One(mark, [SPACE] + term, b);
      One(SPACE, [mark] + ([SPACE] + term), b);
    }
  }

  lemma ParameterAppends(p: Parameter, a: Input, b: Input)
    ensures PrintParameter(p, a + b) == PrintParameter(p, a) + b
  {
    hide PrintLiteral, PrintName;
    var value := PrintLiteral(p.value, a);
    LiteralAppends(p.value, a, b);
    if p.name.Some? {
      One(SPACE, value, b);
      One(Comparison(Eq), [SPACE] + value, b);
      One(SPACE, [Comparison(Eq)] + ([SPACE] + value), b);
      NameAppends(p.name.value, [SPACE] + ([Comparison(Eq)] + ([SPACE] + value)), b);
    }
  }

  lemma {:induction false} ParametersAppend(ps: seq<Parameter>, a: Input, b: Input)
    ensures PrintParameters(ps, a + b) == PrintParameters(ps, a) + b
    ensures PrintMoreParameters(ps, a + b) == PrintMoreParameters(ps, a) + b
    decreases |ps|
  {
    hide PrintParameter;
    if ps != [] {
      var more := PrintMoreParameters(ps[1..], a);
      ParametersAppend(ps[1..], a, b);
      ParameterAppends(ps[0], more, b);
      One(SPACE, PrintParameter(ps[0], more), b);
      One(Comma, [SPACE] + PrintParameter(ps[0], more), b);
    }
  }

  lemma InParensAppends(at: Token, inner: Input, b: Input)
    ensures InParens(at, inner + b) == InParens(at, inner) + b
  {
    One(LeftParen, inner, b);
    One(at, [LeftParen] + inner, b);
  }

  lemma AnnotationAppends(m: Annotation, a: Input, b: Input)
    ensures PrintAnnotation(m, a + b) == PrintAnnotation(m, a) + b
  {
    hide PrintLiteral, PrintName, PrintOperand, PrintCondition, PrintParameters, InParens, AtWord, Unsigned, Quoted;
    var close := [RightParen] + a;
    One(RightParen, a, b);
    match m {
      case Shown(visibility) => One(At(AtVisibility(visibility)), a, b);
      case DependsOn(field, value) =>
        var behind := PrintOperand(Some(Eq), value, a);
        OperandAppends(Some(Eq), value, a, b);
        One(RightParen, behind, b);
        NameAppends(field, [RightParen] + behind, b);
        InParensAppends(At(AtDependsOn), PrintName(field, [RightParen] + behind), b);
      case DependsOnExpr(condition) =>
        ConditionAppends(condition, close, b);
        InParensAppends(At(AtDependsOn), PrintCondition(condition, close), b);
      case Bounded(bound, n) =>
        One(Unsigned(n), close, b);
        InParensAppends(At(AtSizeBound(bound)), [Unsigned(n)] + close, b);
      case Limited(limit, value) =>
        LiteralAppends(value, close, b);
        InParensAppends(At(AtValueLimit(limit)), PrintLiteral(value, close), b);
      case Restricted(name, value) =>
        LiteralAppends(value, close, b);
        InParensAppends(AtWord(name), PrintLiteral(value, close), b);
      case Description(text) =>
        One(Quoted(text), close, b);
        InParensAppends(At(AtDescription), [Quoted(text)] + close, b);
      case Custom(name, parameters) =>
        ParametersAppend(parameters, close, b);
        InParensAppends(AtWord(name), PrintParameters(parameters, close), b);
    }
  }

  lemma {:induction false} AnnotationsAppend(metadata: seq<Annotation>, a: Input, b: Input)
    ensures PrintAnnotations(metadata, a + b) == PrintAnnotations(metadata, a) + b
    decreases |metadata|
  {
    hide PrintAnnotation;
    if metadata != [] {
      var more := PrintAnnotations(metadata[1..], a);
      AnnotationsAppend(metadata[1..], a, b);
      AnnotationAppends(metadata[0], more, b);
      One(SPACE, PrintAnnotation(metadata[0], more), b);
    }
  }

  lemma {:induction false} TypeAppends(t: TypeExpression, indent: nat, cfg: FormatConfig, a: Input, b: Input)
    ensures PrintType(t, indent, cfg, a + b) == PrintType(t, indent, cfg, a) + b
    decreases t, 0
  {
    hide PrintName, PrintMembers, PrintGroup, PrintArms, PrintLiteral, PrintControls;
    match t {
      case Builtin(name) => NameAppends(name, a, b);
      case Reference(name) => NameAppends(name, a, b);
      case Array(element, _) =>
        TypeAppends(element, indent, cfg, [RightBracket] + a, b);
        One(RightBracket, a, b);
        One(LeftBracket, PrintType(element, indent, cfg, [RightBracket] + a), b);
      case Tuple(g) =>
        MembersAppend(g.entries, indent, cfg, [RightBracket] + a, b);
        One(RightBracket, a, b);
        One(LeftBracket, PrintMembers(g.entries, indent, cfg, [RightBracket] + a), b);
      case Map(key, value, _) =>
        var val := PrintType(value, indent, cfg, [RightBrace] + a);
        One(RightBrace, a, b);
        TypeAppends(value, indent, cfg, [RightBrace] + a, b);
        One(SPACE, val, b);
        One(Arrow, [SPACE] + val, b);
        One(SPACE, [Arrow] + ([SPACE] + val), b);
        TypeAppends(key, indent, cfg, [SPACE] + ([Arrow] + ([SPACE] + val)), b);
        One(LeftBrace, PrintType(key, indent, cfg, [SPACE] + ([Arrow] + ([SPACE] + val))), b);
      case Group(g) => GroupAppends(g, indent, cfg, a, b);
      case Choice(arms) => ArmsAppend(arms, indent, cfg, a, b);
      case Range(start, end, _) => RangeAppends(start, end, a, b);
      case Socket(name) => One(SocketToken(name), a, b);
      case Plug(name) => One(PlugToken(name), a, b);
      case Literal(lit) => LiteralAppends(lit, a, b);
      case Constrained(base, ops) =>
        ControlsAppend(ops, cfg, a, b);
        TypeAppends(base, indent, cfg, PrintControls(ops, cfg, a), b);
    }
  }

  lemma RangeAppends(start: Option<i64>, end: Option<i64>, a: Input, b: Input)
    ensures PrintRange(start, end, a + b) == PrintRange(start, end, a) + b
  {
    var tail := (if end.Some? then [Token.Integer(end.value)] else []);
    assert tail + (a + b) == (tail + a) + b;
    One(Token.Range, tail + a, b);
  }

  lemma {:induction false} ArmsAppend(arms: seq<TypeExpression>, indent: nat, cfg: FormatConfig, a: Input, b: Input)
    ensures PrintArms(arms, indent, cfg, a + b) == PrintArms(arms, indent, cfg, a) + b
    ensures PrintMoreArms(arms, indent, cfg, a + b) == PrintMoreArms(arms, indent, cfg, a) + b
    decreases arms, 1
  {
    hide PrintType;
    if arms != [] {
      var more := PrintMoreArms(arms[1..], indent, cfg, a);
      var arm := PrintType(arms[0], indent, cfg, more);
      ArmsAppend(arms[1..], indent, cfg, a, b);
      TypeAppends(arms[0], indent, cfg, more, b);
      One(SPACE, arm, b);
      One(Slash, [SPACE] + arm, b);
      One(SPACE, [Slash] + ([SPACE] + arm), b);
    }
  }

  lemma {:induction false} MembersAppend(es: seq<GroupEntry>, indent: nat, cfg: FormatConfig, a: Input, b: Input)
    ensures PrintMembers(es, indent, cfg, a + b) == PrintMembers(es, indent, cfg, a) + b
    ensures PrintMoreMembers(es, indent, cfg, a + b) == PrintMoreMembers(es, indent, cfg, a) + b
    decreases es, 1
  {
    hide PrintMember;
    if es != [] {
      var more := PrintMoreMembers(es[1..], indent, cfg, a);
      var member := PrintMember(es[0], indent, cfg, more);
      MembersAppend(es[1..], indent, cfg, a, b);
      MemberAppends(es[0], indent, cfg, more, b);
      One(SPACE, member, b);
      One(Comma, [SPACE] + member, b);
    }
  }

  lemma {:induction false} MemberAppends(e: GroupEntry, indent: nat, cfg: FormatConfig, a: Input, b: Input)
    ensures PrintMember(e, indent, cfg, a + b) == PrintMember(e, indent, cfg, a) + b
    decreases e, 0
  {
    hide PrintType, PrintName;
    var value := PrintType(e.valueType, indent, cfg, a);
    TypeAppends(e.valueType, indent, cfg, a, b);
    match e.key {
      case Some(Bare(name)) =>
        ColonAppends(value, b);
        NameAppends(name, [Colon] + ([SPACE] + value), b);
      case _ =>
    }
  }

  lemma ColonAppends(value: Input, b: Input)
    ensures [Colon] + ([SPACE] + (value + b)) == ([Colon] + ([SPACE] + value)) + b
  {
  }

  lemma {:induction false} GroupAppends(g: GroupExpression, indent: nat, cfg: FormatConfig, a: Input, b: Input)
    ensures PrintGroup(g, indent, cfg, a + b) == PrintGroup(g, indent, cfg, a) + b
    decreases g, 1
  {
    hide PrintEntries, Spaces;
    One(RightBrace, a, b);
    if g.entries == [] {
      One(LeftBrace, [RightBrace] + a, b);
    } else {
      var close, inner := Spaces(indent, [RightBrace] + a), indent + cfg.indentSize;
      var entries := PrintEntries(g.entries, inner, cfg, close);
      SpacesAppend(indent, [RightBrace] + a, b);
      EntriesAppend(g.entries, inner, cfg, close, b);
      One(Newline, entries, b);
      One(LeftBrace, [Newline] + entries, b);
    }
  }

  lemma {:induction false} EntriesAppend(es: seq<GroupEntry>, indent: nat, cfg: FormatConfig, a: Input, b: Input)
    ensures PrintEntries(es, indent, cfg, a + b) == PrintEntries(es, indent, cfg, a) + b
    decreases es, 1
  {
    hide PrintEntry, Spaces;
    if es != [] {
      var more := PrintEntries(es[1..], indent, cfg, a);
      var behind := PrintComma(|es| > 1 || cfg.trailingCommas, [Newline] + more);
      EntriesAppend(es[1..], indent, cfg, a, b);
      One(Newline, more, b);
      One(Comma, [Newline] + more, b);
      EntryAppends(es[0], indent, cfg, behind, b);
      SpacesAppend(indent, PrintEntry(es[0], indent, cfg, behind), b);
    }
  }

  lemma OccurrenceAppends(occurrence: Option<Occurrence>, a: Input, b: Input)
    ensures PrintOccurrence(occurrence, a + b) == PrintOccurrence(occurrence, a) + b
  {
    hide Unsigned;
  }

  lemma {:induction false} EntryAppends(e: GroupEntry, indent: nat, cfg: FormatConfig, a: Input, b: Input)
    ensures PrintEntry(e, indent, cfg, a + b) == PrintEntry(e, indent, cfg, a) + b
    decreases e, 0
  {
    hide PrintType, PrintKey, PrintAnnotations;
    var annotations := PrintAnnotations(e.metadata, a);
    var value := PrintType(e.valueType, indent, cfg, annotations);
    AnnotationsAppend(e.metadata, a, b);
    TypeAppends(e.valueType, indent, cfg, annotations, b);
    ColonAppends(value, b);
    if e.key.Some? {
      KeyAppends(e.key.value, e.occurrence, indent, cfg, [Colon] + ([SPACE] + value), b);
    }
  }

  lemma {:induction false} KeyAppends(
      key: GroupKey, occurrence: Option<Occurrence>, indent: nat, cfg: FormatConfig, a: Input, b: Input)
    ensures PrintKey(key, occurrence, indent, cfg, a + b) == PrintKey(key, occurrence, indent, cfg, a) + b
    decreases key, 0
  {
    hide PrintType, PrintWordKey, PrintLiteralKey, PrintOccurrence;
    match key {
      case Bare(name) => WordKeyAppends(name, occurrence, a, b);
      case LiteralKey(lit) => LiteralKeyAppends(lit, occurrence, a, b);
      case TypeKey(t) =>
        var tail := PrintOccurrence(occurrence, a);
        OccurrenceAppends(occurrence, a, b);
        One(RightParen, tail, b);
        TypeAppends(t, indent, cfg, [RightParen] + tail, b);
        One(LeftParen, PrintType(t, indent, cfg, [RightParen] + tail), b);
    }
  }

  lemma WordKeyAppends(name: string, occurrence: Option<Occurrence>, a: Input, b: Input)
    ensures PrintWordKey(name, occurrence, a + b) == PrintWordKey(name, occurrence, a) + b
  {
    hide PrintName, PrintOccurrence, Count, Uncounted;
    OccurrenceAppends(Uncounted(occurrence), a, b);
    NameAppends(name + Count(occurrence), PrintOccurrence(Uncounted(occurrence), a), b);
  }

  lemma LiteralKeyAppends(lit: LiteralValue, occurrence: Option<Occurrence>, a: Input, b: Input)
    ensures PrintLiteralKey(lit, occurrence, a + b) == PrintLiteralKey(lit, occurrence, a) + b
  {
    hide PrintWordKey, PrintLiteral, PrintOccurrence, Count, Uncounted, LongerInteger;
    if SpelledLikeName(lit).Some? {
      WordKeyAppends(SpelledLikeName(lit).value, occurrence, a, b);
    } else if lit.Integer? {
      OccurrenceAppends(Uncounted(occurrence), a, b);
      One(LongerInteger(lit.i, Count(occurrence)), PrintOccurrence(Uncounted(occurrence), a), b);
    } else {
      OccurrenceAppends(occurrence, a, b);
      LiteralAppends(lit, PrintOccurrence(occurrence, a), b);
    }
  }
}
