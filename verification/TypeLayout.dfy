/** How printed text is laid out: every entry of a group stands on a line of its own, one step further in
    than the brace that opens the group, and the closing brace as far in as the line that opened it. */
module TypeLayout {
  import opened Basics
  import opened Bytes
  import opened Ast
  import opened Tokens
  import opened AnnotationPrinter
  import opened TypePrinter
  import TypeAppend
  import TypeRoundTrip

  // ---- reading the margins -------------------------------------------------------------------------------

  /** Where lines should start, and how much a group moves that. */
  datatype Lines = Lines(level: int, step: nat)

  /** The white space at the front. */
  function Margin(ts: Input): nat {
    if ts != [] && ts[0].Whitespace? then |ts[0].text| else 0
  }

  function BehindMargin(ts: Input): (rest: Input)
    ensures |rest| <= |ts|
  {
    if ts != [] && ts[0].Whitespace? then ts[1..] else ts
  }

  /** Every line starts where it should: one step further in behind a brace that ends its line, and back
      with a brace that starts its own. */
  predicate LaidOut(ts: Input, l: Lines)
    decreases |ts|
  {
    if ts == [] then true
    else if ts[0] == LeftBrace then LaidOut(ts[1..], if Peek(ts[1..])
        == Newline then l.(level := l.level + l.step) else l)
    else if ts[0] != Newline then LaidOut(ts[1..], l)
    else
      var rest := BehindMargin(ts[1..]);
      if Peek(rest) == RightBrace then
        Margin(ts[1..]) == l.level - l.step && LaidOut(rest[1..], l.(level := l.level - l.step))
      else Margin(ts[1..]) == l.level && LaidOut(rest, l)
  }

  predicate Same(text: Input, rest: Input, l: Lines) {
    LaidOut(text, l) == LaidOut(rest, l)
  }

  lemma Stays(t: Token, rest: Input, l: Lines)
    requires t != Newline && t != LeftBrace
    ensures Same([t] + rest, rest, l)
  {
    assert ([t] + rest)[1..] == rest;
  }

  // ---- text on one line ------------------------------------------------------------------------------------

  lemma NameSame(name: string, rest: Input, l: Lines)
    ensures Same(PrintName(name, rest), rest, l)
  {
    hide LaidOut, Word, PrintParts;
    var k := FirstDot(name);
    WordIsPlain(name[..k]);
    Stays(Word(name[..k]), PrintParts(name[k..], rest), l);
    PartsSame(name[k..], rest, l);
  }

  lemma WordIsPlain(w: string)
    ensures Word(w) !in {Newline, LeftBrace, RightBrace}
  {
  }

  lemma {:induction false} PartsSame(parts: string, rest: Input, l: Lines)
    requires parts != "" ==> parts[0] == '.'
    ensures Same(PrintParts(parts, rest), rest, l)
    decreases |parts|
  {
    hide LaidOut, Word, SpellsOperator, Operator, FirstPart, MoreParts;
    if parts != "" {
      var part, behind := FirstPart(parts), PrintParts(MoreParts(parts), rest);
      PartsSame(MoreParts(parts), rest, l);
      if SpellsOperator(part) {
        OperatorIsPlain(part);
        Stays(Operator(part), behind, l);
      } else {
        WordIsPlain(part);
        Stays(Dot, [Word(part)] + behind, l);
        Stays(Word(part), behind, l);
      }
    }
  }

  lemma OperatorIsPlain(part: string)
    requires SpellsOperator(part)
    ensures Operator(part) !in {Newline, LeftBrace, RightBrace}
  {
  }

  lemma {:induction false} LiteralSame(lit: LiteralValue, rest: Input, l: Lines)
    ensures Same(PrintLiteral(lit, rest), rest, l)
    decreases lit, 0
  {
    hide LaidOut, PrintElements, Unescaped;
    match lit {
      case Integer(i) => Stays(Token.Integer(i), rest, l);
      case Float(bits) => Stays(Token.Float(bits), rest, l);
      case Text(t) => Stays(Quoted(t), rest, l);
      case ByteString(b) => Stays(Token.ByteString(b), rest, l);
      case Bool(flag) => Stays(Token.Builtin(if flag then "true" else "false"), rest, l);
      case Null => Stays(Token.Builtin("null"), rest, l);
      case List(elements) =>
        Stays(LeftBracket, PrintElements(elements, [RightBracket] + rest), l);
        ElementsSame(elements, [RightBracket] + rest, l);
        Stays(RightBracket, rest, l);
    }
  }

  lemma {:induction false} ElementsSame(elements: seq<LiteralValue>, rest: Input, l: Lines)
    ensures Same(PrintElements(elements, rest), rest, l) && Same(PrintMoreElements(elements, rest), rest, l)
    decreases elements, 1
  {
    hide LaidOut, PrintLiteral;
    if elements != [] {
      var more := PrintMoreElements(elements[1..], rest);
      var text := PrintLiteral(elements[0], more);
      ElementsSame(elements[1..], rest, l);
      LiteralSame(elements[0], more, l);
      Stays(Comma, [SPACE] + text, l);
      Stays(SPACE, text, l);
    }
  }

  lemma OperandSame(op: Option<CompareOp>, value: Option<LiteralValue>, rest: Input, l: Lines)
    ensures Same(PrintOperand(op, value, rest), rest, l)
  {
    hide LaidOut, PrintLiteral;
    if op.Some? && value.Some? {
      var text := PrintLiteral(value.value, rest);
      Stays(SPACE, [Comparison(op.value)] + ([SPACE] + text), l);
      Stays(Comparison(op.value), [SPACE] + text, l);
      Stays(SPACE, text, l);
      LiteralSame(value.value, rest, l);
    }
  }

  lemma {:induction false} ConditionSame(c: Condition, rest: Input, l: Lines)
    ensures Same(PrintCondition(c, rest), rest, l)
    decreases c, 0
  {
    hide LaidOut, PrintName, PrintOperand, PrintTerms;
    match c {
      case Compare(field, op, value) =>
        NameSame(field, PrintOperand(op, value, rest), l);
        OperandSame(op, value, rest, l);
      case All(terms) => TermsSame(terms, Ampersand, rest, l);
      case Any(terms) => TermsSame(terms, Pipe, rest, l);
    }
  }

  lemma {:induction false} TermsSame(terms: seq<Condition>, mark: Token, rest: Input, l: Lines)
    requires mark == Ampersand || mark == Pipe
    ensures Same(PrintTerms(terms, mark, rest), rest, l) && Same(PrintMoreTerms(terms, mark, rest), rest, l)
    decreases terms, 1
  {
    hide LaidOut, PrintCondition;
    if terms != [] {
      var more := PrintMoreTerms(terms[1..], mark, rest);
      var text := PrintCondition(terms[0], more);
      TermsSame(terms[1..], mark, rest, l);
      ConditionSame(terms[0], more, l);
      Stays(SPACE, [mark] + ([SPACE] + text), l);
      Stays(mark, [SPACE] + text, l);
      Stays(SPACE, text, l);
    }
  }

  lemma ParameterSame(p: Parameter, rest: Input, l: Lines)
    ensures Same(PrintParameter(p, rest), rest, l)
  {
    hide LaidOut, PrintLiteral, PrintName;
    var text := PrintLiteral(p.value, rest);
    LiteralSame(p.value, rest, l);
    if p.name.Some? {
      NameSame(p.name.value, [SPACE] + ([Comparison(Eq)] + ([SPACE] + text)), l);
      Stays(SPACE, [Comparison(Eq)] + ([SPACE] + text), l);
      Stays(Comparison(Eq), [SPACE] + text, l);
      Stays(SPACE, text, l);
    }
  }

  lemma {:induction false} ParametersSame(ps: seq<Parameter>, rest: Input, l: Lines)
    ensures Same(PrintParameters(ps, rest), rest, l) && Same(PrintMoreParameters(ps, rest), rest, l)
    decreases |ps|
  {
    hide LaidOut, PrintParameter;
    if ps != [] {
      var more := PrintMoreParameters(ps[1..], rest);
      var text := PrintParameter(ps[0], more);
      ParametersSame(ps[1..], rest, l);
      ParameterSame(ps[0], more, l);
      Stays(Comma, [SPACE] + text, l);
      Stays(SPACE, text, l);
    }
  }

  lemma InParensSame(at: Token, inner: Input, l: Lines)
    requires at.At? || at.Other?
    ensures Same(InParens(at, inner), inner, l)
  {
    hide LaidOut;
    Stays(at, [LeftParen] + inner, l);
    Stays(LeftParen, inner, l);
  }

  lemma AnnotationSame(a: Annotation, rest: Input, l: Lines)
    ensures Same(PrintAnnotation(a, rest), rest, l)
  {
    hide LaidOut, PrintLiteral, PrintName, PrintOperand, PrintCondition, PrintParameters, InParens, Unescaped;
    var close := [RightParen] + rest;
    Stays(RightParen, rest, l);
    match a {
      case Shown(visibility) => Stays(At(AtVisibility(visibility)), rest, l);
      case DependsOn(field, value) =>
        var behind := PrintOperand(Some(Eq), value, rest);
        OperandSame(Some(Eq), value, rest, l);
        Stays(RightParen, behind, l);
        NameSame(field, [RightParen] + behind, l);
        InParensSame(At(AtDependsOn), PrintName(field, [RightParen] + behind), l);
      case DependsOnExpr(condition) =>
        ConditionSame(condition, close, l);
        InParensSame(At(AtDependsOn), PrintCondition(condition, close), l);
      case Bounded(bound, n) =>
        Stays(Unsigned(n), close, l);
        InParensSame(At(AtSizeBound(bound)), [Unsigned(n)] + close, l);
      case Limited(limit, value) =>
        LiteralSame(value, close, l);
        InParensSame(At(AtValueLimit(limit)), PrintLiteral(value, close), l);
      case Restricted(name, value) =>
        LiteralSame(value, close, l);
        InParensSame(AtWord(name), PrintLiteral(value, close), l);
      case Description(text) =>
        Stays(Quoted(text), close, l);
        InParensSame(At(AtDescription), [Quoted(text)] + close, l);
      case Custom(name, parameters) =>
        ParametersSame(parameters, close, l);
        InParensSame(AtWord(name), PrintParameters(parameters, close), l);
    }
  }

  lemma {:induction false} AnnotationsSame(metadata: seq<Annotation>, rest: Input, l: Lines)
    ensures Same(PrintAnnotations(metadata, rest), rest, l)
    decreases |metadata|
  {
    hide LaidOut, PrintAnnotation;
    if metadata != [] {
      var more := PrintAnnotations(metadata[1..], rest);
      AnnotationsSame(metadata[1..], rest, l);
      AnnotationSame(metadata[0], more, l);
      Stays(SPACE, PrintAnnotation(metadata[0], more), l);
    }
  }

  lemma SizeSame(size: SizeConstraint, rest: Input, l: Lines)
    ensures Same(PrintSize(size, rest), rest, l)
  {
    hide LaidOut;
    var close := [RightParen] + rest;
    Stays(RightParen, rest, l);
    match size {
      case ExactSize(n) => Stays(Unsigned(n), rest, l);
      case SizeRange(min, max) =>
        Stays(Unsigned(max), close, l);
        Stays(Token.Range, [Unsigned(max)] + close, l);
        Stays(Unsigned(min), [Token.Range] + ([Unsigned(max)] + close), l);
        Stays(LeftParen, [Unsigned(min)] + ([Token.Range] + ([Unsigned(max)] + close)), l);
      case MinSize(min) =>
        Stays(Token.Range, close, l);
        Stays(Unsigned(min), [Token.Range] + close, l);
        Stays(LeftParen, [Unsigned(min)] + ([Token.Range] + close), l);
      case MaxSize(max) =>
        Stays(Unsigned(max), close, l);
        Stays(Token.Range, [Unsigned(max)] + close, l);
        Stays(LeftParen, [Token.Range] + ([Unsigned(max)] + close), l);
    }
  }

  lemma OptionalSame(t: Option<Token>, rest: Input, l: Lines)
    requires t.Some? ==> t.value != Newline && t.value != LeftBrace
    ensures Same((if t.Some? then [t.value] else []) + rest, rest, l)
  {
    hide LaidOut;
    if t.Some? {
      Stays(t.value, rest, l);
    } else {
      assert [] + rest == rest;
    }
  }

  lemma OccurrenceSame(occurrence: Option<Occurrence>, rest: Input, l: Lines)
    ensures Same(PrintOccurrence(occurrence, rest), rest, l)
  {
    hide LaidOut;
    match occurrence {
      case None =>
      case Some(Optional) => Stays(Token.Optional, rest, l);
      case Some(ZeroOrMore) => Stays(Token.ZeroOrMore, rest, l);
      case Some(OneOrMore) => Stays(Token.OneOrMore, rest, l);
      case Some(Exact(n)) => Stays(Unsigned(n), rest, l);
      case Some(Between(min, max)) =>
        var high := if max.Some? then Some(Unsigned(max.value)) else None;
        var low := if min.Some? then Some(Unsigned(min.value)) else None;
        var tail := (if high.Some? then [high.value] else []) + rest;
        OptionalSame(high, rest, l);
        Stays(Token.ZeroOrMore, tail, l);
        OptionalSame(low, [Token.ZeroOrMore] + tail, l);
    }
  }

  lemma KeyMarkSame(lit: LiteralValue, occurrence: Option<Occurrence>, rest: Input, l: Lines)
    ensures Same(PrintLiteralKey(lit, occurrence, rest), rest, l)
  {
    hide LaidOut, PrintName, PrintOccurrence, PrintLiteral, Count, Uncounted, Longer;
    var behind := PrintOccurrence(Uncounted(occurrence), rest);
    OccurrenceSame(Uncounted(occurrence), rest, l);
    OccurrenceSame(occurrence, rest, l);
    if SpelledLikeName(lit).Some? {
      NameSame(SpelledLikeName(lit).value + Count(occurrence), behind, l);
    } else if lit.Integer? {
      Stays(LongerInteger(lit.i, Count(occurrence)), behind, l);
    } else {
      LiteralSame(lit, PrintOccurrence(occurrence, rest), l);
    }
  }

  // ---- how text starts -------------------------------------------------------------------------------------

  /** A closing brace or a new line is not the start of anything printed here. */
  predicate StartsInline(text: Input, rest: Input) {
    Peek(text) == RightBrace || Peek(text) == Newline ==> Peek(text) == Peek(rest)
  }

  lemma LiteralStarts(lit: LiteralValue, rest: Input)
    ensures Peek(PrintLiteral(lit, rest)) !in {RightBrace, Newline}
  {
    hide Unescaped;
  }

  lemma NameStarts(name: string, rest: Input)
    ensures Peek(PrintName(name, rest)) !in {RightBrace, Newline}
  {
    hide Word, PrintParts;
    WordIsPlain(name[..FirstDot(name)]);
  }

  lemma {:induction false} TypeStarts(t: TypeExpression, indent: nat, cfg: FormatConfig, rest: Input)
    ensures StartsInline(PrintType(t, indent, cfg, rest), rest)
    decreases t
  {
    hide PrintName, PrintLiteral, PrintMembers, PrintEntries, PrintControl;
    match t {
      case Builtin(name) => NameStarts(name, rest);
      case Reference(name) => NameStarts(name, rest);
      case Choice(arms) =>
        if arms != [] {
          TypeStarts(arms[0], indent, cfg, PrintMoreArms(arms[1..], indent, cfg, rest));
        }
      case Literal(lit) => LiteralStarts(lit, rest);
      case Constrained(base, ops) => TypeStarts(base, indent, cfg, PrintControls(ops, cfg, rest));
      case _ =>
    }
  }

  lemma AnnotationsStart(metadata: seq<Annotation>, rest: Input)
    ensures StartsInline(PrintAnnotations(metadata, rest), rest)
  {
    hide PrintAnnotation;
  }

  lemma {:induction false} EntryStarts(e: GroupEntry, indent: nat, cfg: FormatConfig, rest: Input)
    ensures StartsInline(PrintEntry(e, indent, cfg, rest), rest)
  {
    hide PrintType, PrintName, PrintLiteral, PrintOccurrence, PrintAnnotations, Count, Uncounted, Longer;
    match e.key {
      case None =>
        TypeStarts(e.valueType, indent, cfg, PrintAnnotations(e.metadata, rest));
        AnnotationsStart(e.metadata, rest);
      case Some(key) =>
        var colon := [Colon] + ([SPACE] + PrintType(e.valueType, indent, cfg, PrintAnnotations(e.metadata, rest)));
        KeyStarts(key, e.occurrence, indent, cfg, colon);
    }
  }

  lemma {:induction false} KeyStarts(
      key: GroupKey, occurrence: Option<Occurrence>, indent: nat, cfg: FormatConfig, rest: Input)
    ensures Peek(PrintKey(key, occurrence, indent, cfg, rest)) !in {RightBrace, Newline}
  {
    hide PrintType, PrintName, PrintLiteral, PrintOccurrence, Count, Uncounted, Longer;
    var behind := PrintOccurrence(Uncounted(occurrence), rest);
    match key {
      case Bare(name) => NameStarts(name + Count(occurrence), behind);
      case LiteralKey(lit) =>
        LiteralStarts(lit, PrintOccurrence(occurrence, rest));
        if SpelledLikeName(lit).Some? {
          NameStarts(SpelledLikeName(lit).value + Count(occurrence), behind);
        }
      case TypeKey(_) =>
    }
  }

  // ---- groups ------------------------------------------------------------------------------------------------

  /** Every group of `t` is printed where the lines around it are. Types behind `.and` and `.within` are
      printed as at the margin, so a group there fits only at the margin. */
  predicate Fits(t: TypeExpression, indent: nat, l: Lines)
    decreases t, 1
  {
    match t
    case Array(element, _) => Fits(element, indent, l)
    case Tuple(g) => forall e | e in g.entries :: FitsMember(e, indent, l)
    case Map(key, value, _) => Fits(key, indent, l) && Fits(value, indent, l)
    case Group(g) => g.entries != [] ==> indent == l.level && FitsEntries(g, indent + l.step, Inner(l))
    case Choice(arms) => forall a | a in arms :: Fits(a, indent, l)
    case Constrained(base, ops) => Fits(base, indent, l) && forall op | op in ops :: FitsControl(op, l)
    case _ => true
  }

  function Inner(l: Lines): Lines {
    l.(level := l.level + l.step)
  }

  predicate FitsMember(e: GroupEntry, indent: nat, l: Lines)
    decreases e, 1
  {
    Fits(e.valueType, indent, l)
  }

  predicate FitsEntries(g: GroupExpression, indent: nat, l: Lines)
    decreases g, 1
  {
    forall e | e in g.entries :: FitsEntry(e, indent, l)
  }

  predicate FitsEntry(e: GroupEntry, indent: nat, l: Lines)
    decreases e, 1
  {
    Fits(e.valueType, indent, l) && (e.key.Some? ==> FitsKey(e.key.value, indent, l))
  }

  predicate FitsKey(key: GroupKey, indent: nat, l: Lines)
    decreases key, 1
  {
    key.TypeKey? ==> Fits(key.typ, indent, l)
  }

  predicate FitsControl(op: ControlOperator, l: Lines)
    decreases op, 1
  {
    match op
    case And(operand) => Fits(operand, 0, l)
    case Within(operand) => Fits(operand, 0, l)
    case _ => true
  }

  /** A brace that does not end its line. */
  lemma BraceSame(text: Input, l: Lines)
    requires Peek(text) != Newline
    ensures Same([LeftBrace] + text, text, l)
  {
    assert ([LeftBrace] + text)[1..] == text;
  }

  lemma BraceOpens(text: Input, l: Lines)
    requires Peek(text) == Newline
    ensures LaidOut([LeftBrace] + text, l) == LaidOut(text, Inner(l))
  {
    assert ([LeftBrace] + text)[1..] == text;
  }

  lemma LineStarts(n: nat, text: Input, l: Lines)
    requires n > 0 && Peek(text) != RightBrace
    ensures LaidOut([Newline] + Spaces(n, text), l) <==> n == l.level && LaidOut(text, l)
  {
    var white := [Whitespace(seq(n, _ => ' '))] + text;
    assert ([Newline] + white)[1..] == white && white[1..] == text;
  }

  lemma LineCloses(n: nat, rest: Input, l: Lines)
    ensures LaidOut([Newline] + Spaces(n, [RightBrace] + rest), Inner(l)) <==> n == l.level && LaidOut(rest, l)
  {
    var brace := [RightBrace] + rest;
    assert brace[1..] == rest && l.(level := Inner(l).level - l.step) == l;
    if n == 0 {
      assert ([Newline] + brace)[1..] == brace;
    } else {
      var white := [Whitespace(seq(n, _ => ' '))] + brace;
      assert ([Newline] + white)[1..] == white && white[1..] == brace;
    }
  }

  lemma {:induction false} TypeFits(t: TypeExpression, indent: nat, cfg: FormatConfig, rest: Input, l: Lines)
    requires cfg.indentSize == l.step > 0
    ensures LaidOut(PrintType(t, indent, cfg, rest), l) <==> Fits(t, indent, l) && LaidOut(rest, l)
    decreases t, 2
  {
    hide LaidOut, PrintName, PrintMembers, PrintGroup, PrintArms, PrintLiteral, PrintControls, PrintRange, FitsMember,
      FitsControl, FitsEntries;
    match t {
      case Builtin(name) => NameSame(name, rest, l);
      case Reference(name) => NameSame(name, rest, l);
      case Array(element, _) =>
        Stays(LeftBracket, PrintType(element, indent, cfg, [RightBracket] + rest), l);
        TypeFits(element, indent, cfg, [RightBracket] + rest, l);
        Stays(RightBracket, rest, l);
      case Tuple(g) =>
        Stays(LeftBracket, PrintMembers(g.entries, indent, cfg, [RightBracket] + rest), l);
        MembersFit(g.entries, indent, cfg, [RightBracket] + rest, l);
        Stays(RightBracket, rest, l);
      case Map(key, value, occurrence) => MapFits(key, value, occurrence, indent, cfg, rest, l);
      case Group(g) => GroupFits(g, indent, cfg, rest, l);
      case Choice(arms) => ArmsFit(arms, indent, cfg, rest, l);
      case Range(start, end, _) => RangeSame(start, end, rest, l);
      case Socket(name) => Stays(SocketToken(name), rest, l);
      case Plug(name) => Stays(PlugToken(name), rest, l);
      case Literal(lit) => LiteralSame(lit, rest, l);
      case Constrained(base, ops) =>
        TypeFits(base, indent, cfg, PrintControls(ops, cfg, rest), l);
        ControlsFit(ops, cfg, rest, l);
    }
  }

  lemma {:induction false} MapFits(
      key: TypeExpression, value: TypeExpression, occurrence: Option<Occurrence>,
      indent: nat, cfg: FormatConfig, rest: Input, l: Lines)
    requires cfg.indentSize == l.step > 0
    ensures LaidOut(PrintType(Map(key, value, occurrence), indent, cfg, rest), l)
       <==> Fits(key, indent, l) && Fits(value, indent, l) && LaidOut(rest, l)
    decreases Map(key, value, occurrence), 1
  {
    hide LaidOut, Fits, PrintType, Spaces;
    MapTokens(key, value, occurrence, indent, cfg, rest);
    var val := PrintType(value, indent, cfg, [RightBrace] + rest);
    var behindKey := [SPACE] + ([Arrow] + ([SPACE] + val));
    TypeStarts(key, indent, cfg, behindKey);
    BraceSame(PrintType(key, indent, cfg, behindKey), l);
    TypeFits(key, indent, cfg, behindKey, l);
    Stays(SPACE, [Arrow] + ([SPACE] + val), l);
    Stays(Arrow, [SPACE] + val, l);
    Stays(SPACE, val, l);
    TypeFits(value, indent, cfg, [RightBrace] + rest, l);
    Stays(RightBrace, rest, l);
  }

  lemma MapTokens(
      key: TypeExpression, value: TypeExpression, occurrence: Option<Occurrence>,
      indent: nat, cfg: FormatConfig, rest: Input)
    ensures PrintType(Map(key, value, occurrence), indent, cfg, rest)
         == [LeftBrace] + PrintType(key, indent, cfg,
              [SPACE] + ([Arrow] + ([SPACE] + PrintType(value, indent, cfg, [RightBrace] + rest))))
  {
  }

  lemma RangeSame(start: Option<i64>, end: Option<i64>, rest: Input, l: Lines)
    ensures Same(PrintRange(start, end, rest), rest, l)
  {
    hide LaidOut;
    var low := if start.Some? then Some(Token.Integer(start.value)) else None;
    var high := if end.Some? then Some(Token.Integer(end.value)) else None;
    var tail := (if high.Some? then [high.value] else []) + rest;
    OptionalSame(high, rest, l);
    Stays(Token.Range, tail, l);
    OptionalSame(low, [Token.Range] + tail, l);
  }

  lemma {:induction false} GroupFits(g: GroupExpression, indent: nat, cfg: FormatConfig, rest: Input, l: Lines)
    requires cfg.indentSize == l.step > 0
    ensures LaidOut(PrintGroup(g, indent, cfg, rest), l)
       <==> (g.entries != [] ==> indent == l.level && FitsEntries(g, indent + l.step, Inner(l))) && LaidOut(rest, l)
    decreases g, 4
  {
    hide LaidOut, PrintEntries, FitsEntry, Spaces;
    if g.entries == [] {
      BraceSame([RightBrace] + rest, l);
      Stays(RightBrace, rest, l);
    } else {
      var close := Spaces(indent, [RightBrace] + rest);
      BraceOpens([Newline] + PrintEntries(g.entries, indent + l.step, cfg, close), l);
      EntriesFit(g.entries, indent + l.step, indent, cfg, rest, l);
    }
  }

  lemma {:induction false} EntriesFit(
      es: seq<GroupEntry>, indent: nat, outer: nat, cfg: FormatConfig, rest: Input, l: Lines)
    requires cfg.indentSize == l.step > 0 && indent > 0
    ensures LaidOut([Newline] + PrintEntries(es, indent, cfg, Spaces(outer, [RightBrace] + rest)), Inner(l))
       <==> && (es != [] ==> indent == l.level + l.step)
            && (forall e | e in es :: FitsEntry(e, indent, Inner(l)))
            && outer == l.level && LaidOut(rest, l)
    decreases es, 3
  {
    hide LaidOut, PrintEntry, FitsEntry, Spaces;
    var close := Spaces(outer, [RightBrace] + rest);
    if es == [] {
      LineCloses(outer, rest, l);
    } else {
      var more := [Newline] + PrintEntries(es[1..], indent, cfg, close);
      var behind := PrintComma(|es| > 1 || cfg.trailingCommas, more);
      var text := PrintEntry(es[0], indent, cfg, behind);
      EntryStarts(es[0], indent, cfg, behind);
      LineStarts(indent, text, Inner(l));
      EntryFits(es[0], indent, cfg, behind, Inner(l));
      Stays(Comma, more, Inner(l));
      EntriesFit(es[1..], indent, outer, cfg, rest, l);
      HeadAndTail(es, e => FitsEntry(e, indent, Inner(l)));
    }
  }

  lemma {:induction false} EntryFits(e: GroupEntry, indent: nat, cfg: FormatConfig, rest: Input, l: Lines)
    requires cfg.indentSize == l.step > 0
    ensures LaidOut(PrintEntry(e, indent, cfg, rest), l) <==> FitsEntry(e, indent, l) && LaidOut(rest, l)
    decreases e, 3
  {
    hide LaidOut, PrintType, PrintKey, PrintAnnotations, Fits, FitsKey;
    var annotations := PrintAnnotations(e.metadata, rest);
    var value := PrintType(e.valueType, indent, cfg, annotations);
    AnnotationsSame(e.metadata, rest, l);
    TypeFits(e.valueType, indent, cfg, annotations, l);
    if e.key.Some? {
      KeyFits(e.key.value, e.occurrence, indent, cfg, [Colon] + ([SPACE] + value), l);
      Stays(Colon, [SPACE] + value, l);
      Stays(SPACE, value, l);
    }
  }

  lemma {:induction false} KeyFits(
      key: GroupKey, occurrence: Option<Occurrence>, indent: nat, cfg: FormatConfig, rest: Input, l: Lines)
    requires cfg.indentSize == l.step > 0
    ensures LaidOut(PrintKey(key, occurrence, indent, cfg, rest), l) <==> FitsKey(key, indent, l) && LaidOut(rest, l)
    decreases key, 3
  {
    hide LaidOut, PrintType, PrintName, PrintLiteralKey, PrintOccurrence, Fits, Count, Uncounted;
    match key {
      case Bare(name) =>
        NameSame(name + Count(occurrence), PrintOccurrence(Uncounted(occurrence), rest), l);
        OccurrenceSame(Uncounted(occurrence), rest, l);
      case LiteralKey(lit) => KeyMarkSame(lit, occurrence, rest, l);
      case TypeKey(t) =>
        var behind := PrintOccurrence(occurrence, rest);
        OccurrenceSame(occurrence, rest, l);
        Stays(LeftParen, PrintType(t, indent, cfg, [RightParen] + behind), l);
        TypeFits(t, indent, cfg, [RightParen] + behind, l);
        Stays(RightParen, behind, l);
    }
  }

  lemma {:induction false} MembersFit(es: seq<GroupEntry>, indent: nat, cfg: FormatConfig, rest: Input, l: Lines)
    requires cfg.indentSize == l.step > 0
    ensures LaidOut(PrintMembers(es, indent, cfg, rest), l)
       <==> (forall e | e in es :: FitsMember(e, indent, l)) && LaidOut(rest, l)
    ensures LaidOut(PrintMoreMembers(es, indent, cfg, rest), l)
       <==> (forall e | e in es :: FitsMember(e, indent, l)) && LaidOut(rest, l)
    decreases es, 3
  {
    hide LaidOut, PrintMember, FitsMember;
    if es != [] {
      var more := PrintMoreMembers(es[1..], indent, cfg, rest);
      var text := PrintMember(es[0], indent, cfg, more);
      MemberFits(es[0], indent, cfg, more, l);
      MembersFit(es[1..], indent, cfg, rest, l);
      Stays(Comma, [SPACE] + text, l);
      Stays(SPACE, text, l);
      HeadAndTail(es, e => FitsMember(e, indent, l));
    }
  }

  lemma {:induction false} MemberFits(e: GroupEntry, indent: nat, cfg: FormatConfig, rest: Input, l: Lines)
    requires cfg.indentSize == l.step > 0
    ensures LaidOut(PrintMember(e, indent, cfg, rest), l) <==> FitsMember(e, indent, l) && LaidOut(rest, l)
    decreases e, 3
  {
    hide LaidOut, PrintType, PrintName, Fits;
    var value := PrintType(e.valueType, indent, cfg, rest);
    TypeFits(e.valueType, indent, cfg, rest, l);
    match e.key {
      case Some(Bare(name)) =>
        NameSame(name, [Colon] + ([SPACE] + value), l);
        Stays(Colon, [SPACE] + value, l);
        Stays(SPACE, value, l);
      case _ =>
    }
  }

  lemma {:induction false} ArmsFit(arms: seq<TypeExpression>, indent: nat, cfg: FormatConfig, rest: Input, l: Lines)
    requires cfg.indentSize == l.step > 0
    ensures LaidOut(PrintArms(arms, indent, cfg, rest), l)
       <==> (forall a | a in arms :: Fits(a, indent, l)) && LaidOut(rest, l)
    ensures LaidOut(PrintMoreArms(arms, indent, cfg, rest), l)
       <==> (forall a | a in arms :: Fits(a, indent, l)) && LaidOut(rest, l)
    decreases arms, 3
  {
    hide LaidOut, PrintType, Fits;
    if arms != [] {
      var more := PrintMoreArms(arms[1..], indent, cfg, rest);
      var text := PrintType(arms[0], indent, cfg, more);
      TypeFits(arms[0], indent, cfg, more, l);
      ArmsFit(arms[1..], indent, cfg, rest, l);
      Stays(SPACE, [Slash] + ([SPACE] + text), l);
      Stays(Slash, [SPACE] + text, l);
      Stays(SPACE, text, l);
      HeadAndTail(arms, a => Fits(a, indent, l));
    }
  }

  lemma {:induction false} ControlsFit(ops: seq<ControlOperator>, cfg: FormatConfig, rest: Input, l: Lines)
    requires cfg.indentSize == l.step > 0
    ensures LaidOut(PrintControls(ops, cfg, rest), l)
       <==> (forall op | op in ops :: FitsControl(op, l)) && LaidOut(rest, l)
    decreases ops, 3
  {
    hide LaidOut, PrintControl, FitsControl;
    if ops != [] {
      var more := PrintControls(ops[1..], cfg, rest);
      var text := PrintControl(ops[0], cfg, more);
      ControlFits(ops[0], cfg, more, l);
      ControlsFit(ops[1..], cfg, rest, l);
      Stays(SPACE, text, l);
      HeadAndTail(ops, op => FitsControl(op, l));
    }
  }

  lemma {:induction false} ControlFits(op: ControlOperator, cfg: FormatConfig, rest: Input, l: Lines)
    requires cfg.indentSize == l.step > 0
    ensures LaidOut(PrintControl(op, cfg, rest), l) <==> FitsControl(op, l) && LaidOut(rest, l)
    decreases op, 3
  {
    hide LaidOut, PrintType, PrintName, PrintLiteral, PrintSize, Fits, Unescaped;
    match op {
      case WithLiteral(lop, value) =>
        Stays(LiteralControl(lop), [SPACE] + PrintLiteral(value, rest), l);
        Stays(SPACE, PrintLiteral(value, rest), l);
        LiteralSame(value, rest, l);
      case Plain(plain) => Stays(PlainControl(plain), rest, l);
      case Regex(pattern) =>
        Stays(RegexControl, [SPACE] + ([Quoted(pattern)] + rest), l);
        Stays(SPACE, [Quoted(pattern)] + rest, l);
        Stays(Quoted(pattern), rest, l);
      case Size(size) =>
        Stays(SizeControl, [SPACE] + PrintSize(size, rest), l);
        Stays(SPACE, PrintSize(size, rest), l);
        SizeSame(size, rest, l);
      case Bits(expression) =>
        Stays(BitsControl, [SPACE] + PrintName(expression, rest), l);
        Stays(SPACE, PrintName(expression, rest), l);
        NameSame(expression, rest, l);
      case And(operand) =>
        Stays(AndControl, [SPACE] + PrintType(operand, 0, cfg, rest), l);
        Stays(SPACE, PrintType(operand, 0, cfg, rest), l);
        TypeFits(operand, 0, cfg, rest, l);
      case Within(operand) =>
        Stays(WithinControl, [SPACE] + PrintType(operand, 0, cfg, rest), l);
        Stays(SPACE, PrintType(operand, 0, cfg, rest), l);
        TypeFits(operand, 0, cfg, rest, l);
    }
  }

  // ---- main results ------------------------------------------------------------------------------------------

  /** Printed text is laid out exactly when each of its groups behind an `.and` or `.within` is printed at the
      margin. */
  lemma {:induction false} LaidOutExactly(t: TypeExpression, indent: nat, cfg: FormatConfig)
    requires cfg.indentSize > 0
    ensures var l := Lines(indent, cfg.indentSize); LaidOut(PrintType(t, indent, cfg, []), l) <==> Fits(t, indent, l)
  {
    hide PrintType, Fits;
    TypeFits(t, indent, cfg, [], Lines(indent, cfg.indentSize));
  }

  /** Without such operators every type is. */
  lemma {:induction false} PlainTypesFit(t: TypeExpression, l: Lines)
    requires HasNoOperand(t) && l.level >= 0
    ensures Fits(t, l.level, l)
    decreases t, 1
  {
    match t {
      case Array(element, _) => PlainTypesFit(element, l);
      case Tuple(g) =>
        forall e | e in g.entries ensures FitsMember(e, l.level, l) {
          PlainEntryFits(e, l);
        }
      case Map(key, value, _) =>
        PlainTypesFit(key, l);
        PlainTypesFit(value, l);
      case Group(g) =>
        forall e | e in g.entries ensures FitsEntry(e, l.level + l.step, Inner(l)) {
          PlainEntryFits(e, Inner(l));
        }
      case Choice(arms) =>
        forall a | a in arms ensures Fits(a, l.level, l) {
          PlainTypesFit(a, l);
        }
      case Constrained(base, ops) => PlainTypesFit(base, l);
      case _ =>
    }
  }

  lemma {:induction false} PlainEntryFits(e: GroupEntry, l: Lines)
    requires EntryHasNoOperand(e) && l.level >= 0
    ensures Fits(e.valueType, l.level, l) && FitsEntry(e, l.level, l)
    decreases e, 1
  {
    hide Fits, HasNoOperand;
    PlainTypesFit(e.valueType, l);
    if e.key.Some? {
      PlainKeyFits(e.key.value, l);
    }
  }

  lemma {:induction false} PlainKeyFits(key: GroupKey, l: Lines)
    requires KeyHasNoOperand(key) && l.level >= 0
    ensures FitsKey(key, l.level, l)
    decreases key, 1
  {
    if key.TypeKey? {
      PlainTypesFit(key.typ, l);
    }
  }

  /** No `.and` or `.within` anywhere in the type. */
  predicate HasNoOperand(t: TypeExpression)
    decreases t, 1
  {
    match t
    case Array(element, _) => HasNoOperand(element)
    case Tuple(g) => forall e | e in g.entries :: EntryHasNoOperand(e)
    case Map(key, value, _) => HasNoOperand(key) && HasNoOperand(value)
    case Group(g) => forall e | e in g.entries :: EntryHasNoOperand(e)
    case Choice(arms) => forall a | a in arms :: HasNoOperand(a)
    case Constrained(base, ops) => HasNoOperand(base) && forall op | op in ops :: !TakesType(op)
    case _ => true
  }

  predicate EntryHasNoOperand(e: GroupEntry)
    decreases e, 1
  {
    HasNoOperand(e.valueType) && (e.key.Some? ==> KeyHasNoOperand(e.key.value))
  }

  predicate KeyHasNoOperand(key: GroupKey)
    decreases key, 1
  {
    key.TypeKey? ==> HasNoOperand(key.typ)
  }

  /** The last entry of a group has a comma behind it exactly when the configuration asks for one, and then its
      line ends. */
  lemma {:induction false} LastEntryEnds(es: seq<GroupEntry>, indent: nat, cfg: FormatConfig, rest: Input)
    returns (front: Input)
    requires es != []
    ensures var end := if cfg.trailingCommas then [Comma] + ([Newline] + rest) else [Newline] + rest;
            PrintEntries(es, indent, cfg, rest) == front + Spaces(indent, PrintEntry(Last(es), indent, cfg, end))
    decreases |es|
  {
    hide PrintEntry, PrintEntries, Spaces;
    TypeRoundTrip.EntriesUnfold(es, indent, cfg, rest);
    if |es| == 1 {
      front := [];
      TypeRoundTrip.NoEntries(es[1..], indent, cfg, rest);
    } else {
      var before := LastEntryEnds(es[1..], indent, cfg, rest);
      var end := if cfg.trailingCommas then [Comma] + ([Newline] + rest) else [Newline] + rest;
      var last := Spaces(indent, PrintEntry(Last(es), indent, cfg, end));
      EntryBefore(es[0], indent, cfg, before, last);
      front := Spaces(indent, PrintEntry(es[0], indent, cfg, [Comma] + ([Newline] + before)));
    }
  }

  lemma EntryBefore(e: GroupEntry, indent: nat, cfg: FormatConfig, a: Input, b: Input)
    ensures Spaces(indent, PrintEntry(e, indent, cfg, [Comma] + ([Newline] + (a + b))))
         == Spaces(indent, PrintEntry(e, indent, cfg, [Comma] + ([Newline] + a))) + b
  {
    hide PrintEntry, Spaces;
    var behind := [Comma] + ([Newline] + a);
    assert [Comma] + ([Newline] + (a + b)) == behind + b;
    TypeAppend.EntryAppends(e, indent, cfg, behind, b);
    TypeAppend.SpacesAppend(indent, PrintEntry(e, indent, cfg, behind), b);
  }

  /** For one: a group with an entry behind `.and`, inside a field that is indented. */
  lemma OperandOffMargin(base: TypeExpression, g: GroupExpression, indent: nat, cfg: FormatConfig)
    requires cfg.indentSize > 0 && indent > 0 && g.entries != []
    ensures var text := PrintType(Constrained(base, [And(Group(g))]), indent, cfg, []);
            !LaidOut(text, Lines(indent, cfg.indentSize))
  {
    hide PrintType, LaidOut;
    var t := Constrained(base, [And(Group(g))]);
    assert And(Group(g)) in t.constraints && !FitsControl(And(Group(g)), Lines(indent, cfg.indentSize));
    LaidOutExactly(t, indent, cfg);
  }
}
