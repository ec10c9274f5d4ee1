/** What the parser's lookaheads see in printed text: every printed type is balanced, so a scan
    passes over it and comes out as deep as it went in. */
module TypeScan {
  import opened Bytes
  import opened Ast
  import opened Tokens
  import opened AnnotationPrinter
  import opened TypeParser
  import opened TypePrinter

  // ---- one machine for both scans ------------------------------------------------------------------------

  datatype Scan = Brace(parens: int, brackets: int, braces: int) | Bracket(depth: nat)

  /** The scan behind one token, or nothing where it makes up its mind. */
  function Next(s: Scan, t: Token): Option<Scan> {
    match s
    case Brace(p, b, br) => (
      var own := p == 0 && b == 0 && br == 1;
      match t
      case LeftBrace => Some(Brace(p, b, br + 1))
      case RightBrace => if br - 1 == 0 then None else Some(Brace(p, b, br - 1))
      case LeftParen => Some(Brace(p + 1, b, br))
      case RightParen => Some(Brace(p - 1, b, br))
      case LeftBracket => Some(Brace(p, b + 1, br))
      case RightBracket => Some(Brace(p, b - 1, br))
      case Arrow => if own then None else Some(s)
      case Comma => if own then None else Some(s)
      case _ => Some(s))
    case Bracket(d) => (
      if d == 0 then None
      else
        match t
        case LeftBracket => Some(Bracket(d + 1))
        case RightBracket => Some(Bracket(d - 1))
        case _ => Some(s))
  }

  /** Where the scan stops, and in which state. */
  function Stop(s: Scan, ts: Input): (Scan, Input)
    decreases |ts|
  {
    if ts == [] then (s, ts)
    else
      match Next(s, ts[0])
      case None => (s, ts)
      case Some(next) => Stop(next, ts[1..])
  }

  lemma {:induction false} BraceStops(p: int, b: int, br: int, ts: Input)
    ensures var (s, rest) := Stop(Brace(p, b, br), ts);
            s.Brace? && ScanBrace(ts, p, b, br) == ScanBrace(rest, s.parens, s.brackets, s.braces)
    decreases |ts|
  {
    if ts != [] && Next(Brace(p, b, br), ts[0]).Some? {
      var s := Next(Brace(p, b, br), ts[0]).value;
      BraceStops(s.parens, s.brackets, s.braces, ts[1..]);
    }
  }

  lemma {:induction false} BracketStops(d: nat, ts: Input)
    ensures var (s, rest) := Stop(Bracket(d), ts); s.Bracket? && BehindBracket(ts, d) == BehindBracket(rest, s.depth)
    decreases |ts|
  {
    if ts != [] && Next(Bracket(d), ts[0]).Some? {
      BracketStops(Next(Bracket(d), ts[0]).value.depth, ts[1..]);
    }
  }

  lemma Step(s: Scan, t: Token, rest: Input)
    requires Next(s, t).Some?
    ensures Stop(s, [t] + rest) == Stop(Next(s, t).value, rest)
  {
    hide Next;
    assert ([t] + rest)[1..] == rest;
  }

  // ---- printed text is balanced ----------------------------------------------------------------------------

  /** Deep enough to pass a balanced text. */
  predicate Deep(s: Scan) {
    match s
    case Brace(p, b, br) => p >= 0 && b >= 0 && br >= 1
    case Bracket(d) => d >= 1
  }

  /** Deep enough to pass commas too. */
  predicate Nested(s: Scan) {
    Deep(s) && (s.Brace? ==> s.parens + s.brackets + s.braces >= 2)
  }

  /** Passing `before` comes to the same as starting at `rest`. */
  predicate Passes(s: Scan, before: Input, rest: Input) {
    Stop(s, before) == Stop(s, rest)
  }

  predicate IsPlain(t: Token) {
    t !in {LeftBrace, RightBrace, LeftParen, RightParen, LeftBracket, RightBracket, Arrow, Comma}
  }

  lemma Plainly(s: Scan, t: Token, rest: Input)
    requires Deep(s) && (IsPlain(t) || (Nested(s) && (t == Comma || t == Arrow)))
    ensures Passes(s, [t] + rest, rest)
  {
    hide Stop;
    Step(s, t, rest);
  }

  function Inside(s: Scan, open: Token): Scan
    requires Deep(s) && (open == LeftBrace || open == LeftParen || open == LeftBracket)
  {
    Next(s, open).value
  }

  function Closing(open: Token): Token {
    if open == LeftBrace then RightBrace else if open == LeftParen then RightParen else RightBracket
  }

  /** A bracketed text passes when what is between the brackets does, one level deeper. */
  lemma Bracketed(s: Scan, open: Token, text: Input, rest: Input)
    requires Deep(s) && (open == LeftBrace || open == LeftParen || open == LeftBracket)
    requires Passes(Inside(s, open), text, [Closing(open)] + rest)
    ensures Passes(s, [open] + text, rest)
  {
    hide Stop;
    Step(s, open, text);
    Step(Inside(s, open), Closing(open), rest);
  }

  lemma InsideIsNested(s: Scan, open: Token)
    requires Deep(s) && (open == LeftBrace || open == LeftParen || open == LeftBracket)
    ensures Nested(Inside(s, open)) && (open == LeftBrace && s.Brace? ==> Inside(s, open).braces >= 2)
  {
  }

  lemma PassName(s: Scan, name: string, rest: Input)
    requires Deep(s)
    ensures Passes(s, PrintName(name, rest), rest)
  {
    hide Stop, Deep, Word, PrintParts;
    var k := FirstDot(name);
    WordIsPlain(name[..k]);
    Plainly(s, Word(name[..k]), PrintParts(name[k..], rest));
    PassParts(s, name[k..], rest);
  }

  lemma {:induction false} PassParts(s: Scan, parts: string, rest: Input)
    requires Deep(s) && (parts != "" ==> parts[0] == '.')
    ensures Passes(s, PrintParts(parts, rest), rest)
    decreases |parts|
  {
    hide Stop, Deep, Word, SpellsOperator, Operator, FirstPart, MoreParts;
    if parts != "" {
      var part, behind := FirstPart(parts), PrintParts(MoreParts(parts), rest);
      PassParts(s, MoreParts(parts), rest);
      if SpellsOperator(part) {
        OperatorIsPlain(part);
        Plainly(s, Operator(part), behind);
      } else {
        WordIsPlain(part);
        Plainly(s, Dot, [Word(part)] + behind);
        Plainly(s, Word(part), behind);
      }
    }
  }

  lemma OperatorIsPlain(part: string)
    requires SpellsOperator(part)
    ensures IsPlain(Operator(part))
  {
  }

  lemma WordIsPlain(w: string)
    ensures IsPlain(Word(w)) && !IsTrivia(Word(w))
  {
  }

  lemma PassSpaces(s: Scan, n: nat, rest: Input)
    requires Deep(s)
    ensures Passes(s, Spaces(n, rest), rest)
  {
    hide Stop, Deep;
    if n > 0 {
      Plainly(s, Whitespace(seq(n, _ => ' ')), rest);
    }
  }

  lemma {:induction false} PassLiteral(s: Scan, lit: LiteralValue, rest: Input)
    requires Deep(s)
    ensures Passes(s, PrintLiteral(lit, rest), rest)
    decreases lit, 0
  {
    hide Stop, Deep, Nested, Inside, PrintElements;
    match lit {
      case Integer(i) => Plainly(s, Token.Integer(i), rest);
      case Float(bits) => Plainly(s, Token.Float(bits), rest);
      case Text(t) => Plainly(s, Quoted(t), rest);
      case ByteString(b) => Plainly(s, Token.ByteString(b), rest);
      case Bool(flag) => Plainly(s, Token.Builtin(if flag then "true" else "false"), rest);
      case Null => Plainly(s, Token.Builtin("null"), rest);
      case List(elements) =>
        InsideIsNested(s, LeftBracket);
        PassElements(Inside(s, LeftBracket), elements, [RightBracket] + rest);
        Bracketed(s, LeftBracket, PrintElements(elements, [RightBracket] + rest), rest);
    }
  }

  lemma {:induction false} PassElements(s: Scan, elements: seq<LiteralValue>, rest: Input)
    requires Nested(s)
    ensures Passes(s, PrintElements(elements, rest), rest)
    decreases elements, 2
  {
    hide Stop, Nested, Deep, PrintLiteral, PrintMoreElements;
    if elements != [] {
      assert Deep(s) by { NestedIsDeep(s); }
      PassLiteral(s, elements[0], PrintMoreElements(elements[1..], rest));
      PassMoreElements(s, elements[1..], rest);
    }
  }

  lemma NestedIsDeep(s: Scan)
    requires Nested(s)
    ensures Deep(s)
  {
  }

  lemma {:induction false} PassMoreElements(s: Scan, elements: seq<LiteralValue>, rest: Input)
    requires Nested(s)
    ensures Passes(s, PrintMoreElements(elements, rest), rest)
    decreases elements, 2
  {
    hide Stop, Nested, Deep, PrintLiteral;
    if elements != [] {
      assert Deep(s) by { NestedIsDeep(s); }
      var more := PrintMoreElements(elements[1..], rest);
      var element := PrintLiteral(elements[0], more);
      Plainly(s, Comma, [SPACE] + element);
      Plainly(s, SPACE, element);
      PassLiteral(s, elements[0], more);
      PassMoreElements(s, elements[1..], rest);
    }
  }

  lemma UnsignedIsPlain(n: u64)
    ensures IsPlain(Unsigned(n))
  {
  }

  lemma PassSize(s: Scan, size: SizeConstraint, rest: Input)
    requires Deep(s)
    ensures Passes(s, PrintSize(size, rest), rest)
  {
    hide Stop, Deep, Nested, Inside, Unsigned;
    InsideIsNested(s, LeftParen);
    var inner := Inside(s, LeftParen);
    NestedIsDeep(inner);
    var close := [RightParen] + rest;
    match size {
      case ExactSize(n) =>
        UnsignedIsPlain(n);
        Plainly(s, Unsigned(n), rest);
      case SizeRange(min, max) =>
        UnsignedIsPlain(min);
        UnsignedIsPlain(max);
        Plainly(inner, Unsigned(min), [Token.Range] + ([Unsigned(max)] + close));
        Plainly(inner, Token.Range, [Unsigned(max)] + close);
        Plainly(inner, Unsigned(max), close);
        Bracketed(s, LeftParen, [Unsigned(min)] + ([Token.Range] + ([Unsigned(max)] + close)), rest);
      case MinSize(min) =>
        UnsignedIsPlain(min);
        Plainly(inner, Unsigned(min), [Token.Range] + close);
        Plainly(inner, Token.Range, close);
        Bracketed(s, LeftParen, [Unsigned(min)] + ([Token.Range] + close), rest);
      case MaxSize(max) =>
        UnsignedIsPlain(max);
        Plainly(inner, Token.Range, [Unsigned(max)] + close);
        Plainly(inner, Unsigned(max), close);
        Bracketed(s, LeftParen, [Token.Range] + ([Unsigned(max)] + close), rest);
    }
  }

  lemma {:induction false} PassControl(s: Scan, op: ControlOperator, cfg: FormatConfig, rest: Input)
    requires Deep(s)
    ensures Passes(s, PrintControl(op, cfg, rest), rest)
    decreases op, 1
  {
    hide Stop, Deep, PrintLiteral, PrintSize, PrintName, PrintType;
    match op {
      case WithLiteral(lop, value) =>
        Plainly(s, LiteralControl(lop), [SPACE] + PrintLiteral(value, rest));
        Plainly(s, SPACE, PrintLiteral(value, rest));
        PassLiteral(s, value, rest);
      case Plain(plain) => Plainly(s, PlainControl(plain), rest);
      case Regex(pattern) =>
        Plainly(s, RegexControl, [SPACE] + ([Quoted(pattern)] + rest));
        Plainly(s, SPACE, [Quoted(pattern)] + rest);
        Plainly(s, Quoted(pattern), rest);
      case Size(size) =>
        Plainly(s, SizeControl, [SPACE] + PrintSize(size, rest));
        Plainly(s, SPACE, PrintSize(size, rest));
        PassSize(s, size, rest);
      case Bits(expression) =>
        Plainly(s, BitsControl, [SPACE] + PrintName(expression, rest));
        Plainly(s, SPACE, PrintName(expression, rest));
        PassName(s, expression, rest);
      case And(operand) =>
        Plainly(s, AndControl, [SPACE] + PrintType(operand, 0, cfg, rest));
        Plainly(s, SPACE, PrintType(operand, 0, cfg, rest));
        PassType(s, operand, 0, cfg, rest);
      case Within(operand) =>
        Plainly(s, WithinControl, [SPACE] + PrintType(operand, 0, cfg, rest));
        Plainly(s, SPACE, PrintType(operand, 0, cfg, rest));
        PassType(s, operand, 0, cfg, rest);
    }
  }

  lemma {:induction false} PassControls(s: Scan, ops: seq<ControlOperator>, cfg: FormatConfig, rest: Input)
    requires Deep(s)
    ensures Passes(s, PrintControls(ops, cfg, rest), rest)
    decreases ops, 2
  {
    hide Stop, Deep, PrintControl;
    if ops != [] {
      var more := PrintControls(ops[1..], cfg, rest);
      Plainly(s, SPACE, PrintControl(ops[0], cfg, more));
      PassControl(s, ops[0], cfg, more);
      PassControls(s, ops[1..], cfg, rest);
    }
  }

  lemma PassOperand(s: Scan, op: Option<CompareOp>, value: Option<LiteralValue>, rest: Input)
    requires Deep(s)
    ensures Passes(s, PrintOperand(op, value, rest), rest)
  {
    hide Stop, Deep, PrintLiteral;
    if op.Some? && value.Some? {
      var text := PrintLiteral(value.value, rest);
      Plainly(s, SPACE, [Comparison(op.value)] + ([SPACE] + text));
      Plainly(s, Comparison(op.value), [SPACE] + text);
      Plainly(s, SPACE, text);
      PassLiteral(s, value.value, rest);
    }
  }

  lemma {:induction false} PassCondition(s: Scan, c: Condition, rest: Input)
    requires Deep(s)
    ensures Passes(s, PrintCondition(c, rest), rest)
    decreases c, 1
  {
    hide Stop, Deep, PrintName, PrintOperand, PrintTerms;
    match c {
      case Compare(field, op, value) =>
        PassName(s, field, PrintOperand(op, value, rest));
        PassOperand(s, op, value, rest);
      case All(terms) => PassTerms(s, terms, Ampersand, rest);
      case Any(terms) => PassTerms(s, terms, Pipe, rest);
    }
  }

  lemma {:induction false} PassTerms(s: Scan, terms: seq<Condition>, mark: Token, rest: Input)
    requires Deep(s) && (mark == Ampersand || mark == Pipe)
    ensures Passes(s, PrintTerms(terms, mark, rest), rest)
    ensures Passes(s, PrintMoreTerms(terms, mark, rest), rest)
    decreases terms, 2
  {
    hide Stop, Deep, PrintCondition;
    if terms != [] {
      var more := PrintMoreTerms(terms[1..], mark, rest);
      var term := PrintCondition(terms[0], more);
      Plainly(s, SPACE, [mark] + ([SPACE] + term));
      Plainly(s, mark, [SPACE] + term);
      Plainly(s, SPACE, term);
      PassCondition(s, terms[0], more);
      PassTerms(s, terms[1..], mark, rest);
    }
  }

  lemma PassParameter(s: Scan, p: Parameter, rest: Input)
    requires Deep(s)
    ensures Passes(s, PrintParameter(p, rest), rest)
  {
    hide Stop, Deep, PrintLiteral, PrintName;
    var value := PrintLiteral(p.value, rest);
    PassLiteral(s, p.value, rest);
    if p.name.Some? {
      var assign := [Comparison(Eq)] + ([SPACE] + value);
      PassName(s, p.name.value, [SPACE] + assign);
      Plainly(s, SPACE, assign);
      Plainly(s, Comparison(Eq), [SPACE] + value);
      Plainly(s, SPACE, value);
    }
  }

  lemma {:induction false} PassParameters(s: Scan, ps: seq<Parameter>, rest: Input)
    requires PassesCommas(s)
    ensures Passes(s, PrintParameters(ps, rest), rest)
    ensures Passes(s, PrintMoreParameters(ps, rest), rest)
    decreases |ps|
  {
    hide Stop, Deep, PrintParameter, PassesCommas;
    if ps != [] {
      assert Deep(s) by { CommasAreDeep(s); }
      var more := PrintMoreParameters(ps[1..], rest);
      var text := PrintParameter(ps[0], more);
      PassComma(s, [SPACE] + text);
      Plainly(s, SPACE, text);
      PassParameter(s, ps[0], more);
      PassParameters(s, ps[1..], rest);
    }
  }

  /** A parenthesis protects commas from the scan of a brace; the scan of a bracket knows none. */
  predicate PassesCommas(s: Scan) {
    Deep(s) && (s.Brace? ==> s.parens > 0)
  }

  lemma CommasAreDeep(s: Scan)
    requires PassesCommas(s)
    ensures Deep(s)
  {
  }

  lemma PassComma(s: Scan, rest: Input)
    requires PassesCommas(s)
    ensures Passes(s, [Comma] + rest, rest)
  {
    hide Stop;
    Step(s, Comma, rest);
  }

  lemma InParensIsDeep(s: Scan)
    requires Deep(s)
    ensures PassesCommas(Inside(s, LeftParen)) && Deep(Inside(s, LeftParen))
  {
  }

  /** Parentheses around a text that passes inside them. */
  lemma PassInParens(s: Scan, at: Token, inner: Input, rest: Input)
    requires Deep(s) && IsPlain(at) && Passes(Inside(s, LeftParen), inner, [RightParen] + rest)
    ensures Passes(s, InParens(at, inner), rest)
  {
    hide Stop, Deep, Inside;
    Plainly(s, at, [LeftParen] + inner);
    Bracketed(s, LeftParen, inner, rest);
  }

  lemma AtWordIsPlain(name: string)
    ensures IsPlain(AtWord(name))
  {
  }

  lemma QuotedIsPlain(text: string)
    ensures IsPlain(Quoted(text))
  {
    hide Unescaped;
  }

  lemma PassAnnotation(s: Scan, a: Annotation, rest: Input)
    requires Deep(s)
    ensures Passes(s, PrintAnnotation(a, rest), rest)
  {
    hide Stop, Deep, Inside, PrintLiteral, PrintName, PrintOperand, PrintCondition, PrintParameters, InParens, AtWord,
      Unsigned, Quoted, PassesCommas;
    InParensIsDeep(s);
    var inner, close := Inside(s, LeftParen), [RightParen] + rest;
    match a {
      case Shown(visibility) => Plainly(s, At(AtVisibility(visibility)), rest);
      case DependsOn(field, value) =>
        var behind := PrintOperand(Some(Eq), value, rest);
        PassName(inner, field, [RightParen] + behind);
        PassInParens(s, At(AtDependsOn), PrintName(field, [RightParen] + behind), behind);
        PassOperand(s, Some(Eq), value, rest);
      case DependsOnExpr(condition) =>
        PassCondition(inner, condition, close);
        PassInParens(s, At(AtDependsOn), PrintCondition(condition, close), rest);
      case Bounded(bound, n) =>
        UnsignedIsPlain(n);
        Plainly(inner, Unsigned(n), close);
        PassInParens(s, At(AtSizeBound(bound)), [Unsigned(n)] + close, rest);
      case Limited(limit, value) =>
        PassLiteral(inner, value, close);
        PassInParens(s, At(AtValueLimit(limit)), PrintLiteral(value, close), rest);
      case Restricted(name, value) =>
        AtWordIsPlain(name);
        PassLiteral(inner, value, close);
        PassInParens(s, AtWord(name), PrintLiteral(value, close), rest);
      case Description(text) =>
        QuotedIsPlain(text);
        Plainly(inner, Quoted(text), close);
        PassInParens(s, At(AtDescription), [Quoted(text)] + close, rest);
      case Custom(name, parameters) =>
        AtWordIsPlain(name);
        PassParameters(inner, parameters, close);
        PassInParens(s, AtWord(name), PrintParameters(parameters, close), rest);
    }
  }

  lemma {:induction false} PassAnnotations(s: Scan, metadata: seq<Annotation>, rest: Input)
    requires Deep(s)
    ensures Passes(s, PrintAnnotations(metadata, rest), rest)
    decreases |metadata|
  {
    hide Stop, Deep, PrintAnnotation;
    if metadata != [] {
      var more := PrintAnnotations(metadata[1..], rest);
      Plainly(s, SPACE, PrintAnnotation(metadata[0], more));
      PassAnnotation(s, metadata[0], more);
      PassAnnotations(s, metadata[1..], rest);
    }
  }

  lemma PassRange(s: Scan, start: Option<i64>, end: Option<i64>, rest: Input)
    requires Deep(s)
    ensures Passes(s, PrintRange(start, end, rest), rest)
  {
    hide Stop, Deep;
    var tail := (if end.Some? then [Token.Integer(end.value)] else []) + rest;
    if end.Some? {
      Plainly(s, Token.Integer(end.value), rest);
    } else {
      assert [] + rest == rest;
    }
    Plainly(s, Token.Range, tail);
    if start.Some? {
      Plainly(s, Token.Integer(start.value), [Token.Range] + tail);
    } else {
      assert [] + ([Token.Range] + tail) == [Token.Range] + tail;
    }
  }

  lemma {:induction false} PassType(s: Scan, t: TypeExpression, indent: nat, cfg: FormatConfig, rest: Input)
    requires Deep(s)
    ensures Passes(s, PrintType(t, indent, cfg, rest), rest)
    decreases t, 0
  {
    hide Stop, Deep, Nested, Inside, PrintName, PrintMembers, PrintGroup, PrintArms, PrintLiteral, PrintControls;
    match t {
      case Builtin(name) => PassName(s, name, rest);
      case Reference(name) => PassName(s, name, rest);
      case Array(element, _) =>
        InsideIsNested(s, LeftBracket);
        NestedIsDeep(Inside(s, LeftBracket));
        PassType(Inside(s, LeftBracket), element, indent, cfg, [RightBracket] + rest);
        Bracketed(s, LeftBracket, PrintType(element, indent, cfg, [RightBracket] + rest), rest);
      case Tuple(g) =>
        InsideIsNested(s, LeftBracket);
        PassMembers(Inside(s, LeftBracket), g.entries, indent, cfg, [RightBracket] + rest);
        Bracketed(s, LeftBracket, PrintMembers(g.entries, indent, cfg, [RightBracket] + rest), rest);
      case Map(key, value, _) =>
        InsideIsNested(s, LeftBrace);
        var inner, close := Inside(s, LeftBrace), [RightBrace] + rest;
        NestedIsDeep(inner);
        var val := PrintType(value, indent, cfg, close);
        PassType(inner, key, indent, cfg, [SPACE] + ([Arrow] + ([SPACE] + val)));
        PassArrow(inner, val);
        PassType(inner, value, indent, cfg, close);
        Bracketed(s, LeftBrace, PrintType(key, indent, cfg, [SPACE] + ([Arrow] + ([SPACE] + val))), rest);
      case Group(g) => PassGroup(s, g, indent, cfg, rest);
      case Choice(arms) => PassArms(s, arms, indent, cfg, rest);
      case Range(start, end, _) => PassRange(s, start, end, rest);
      case Socket(name) => Plainly(s, SocketToken(name), rest);
      case Plug(name) => Plainly(s, PlugToken(name), rest);
      case Literal(lit) => PassLiteral(s, lit, rest);
      case Constrained(base, ops) =>
        PassType(s, base, indent, cfg, PrintControls(ops, cfg, rest));
        PassControls(s, ops, cfg, rest);
    }
  }

  lemma PassArrow(s: Scan, rest: Input)
    requires Nested(s)
    ensures Passes(s, [SPACE] + ([Arrow] + ([SPACE] + rest)), rest)
  {
    hide Stop, Nested, Deep;
    NestedIsDeep(s);
    Plainly(s, SPACE, [Arrow] + ([SPACE] + rest));
    Plainly(s, Arrow, [SPACE] + rest);
    Plainly(s, SPACE, rest);
  }

  lemma {:induction false} PassArms(s: Scan, arms: seq<TypeExpression>, indent: nat, cfg: FormatConfig, rest: Input)
    requires Deep(s)
    ensures Passes(s, PrintArms(arms, indent, cfg, rest), rest)
    decreases arms, 2
  {
    hide Stop, Deep, PrintType, PrintMoreArms;
    if arms != [] {
      PassType(s, arms[0], indent, cfg, PrintMoreArms(arms[1..], indent, cfg, rest));
      PassMoreArms(s, arms[1..], indent, cfg, rest);
    }
  }

  lemma {:induction false} PassMoreArms(s: Scan, arms: seq<TypeExpression>, indent: nat, cfg: FormatConfig, rest: Input)
    requires Deep(s)
    ensures Passes(s, PrintMoreArms(arms, indent, cfg, rest), rest)
    decreases arms, 2
  {
    hide Stop, Deep, PrintType;
    if arms != [] {
      var more := PrintMoreArms(arms[1..], indent, cfg, rest);
      var arm := PrintType(arms[0], indent, cfg, more);
      Plainly(s, SPACE, [Slash] + ([SPACE] + arm));
      Plainly(s, Slash, [SPACE] + arm);
      Plainly(s, SPACE, arm);
      PassType(s, arms[0], indent, cfg, more);
      PassMoreArms(s, arms[1..], indent, cfg, rest);
    }
  }

  lemma {:induction false} PassMembers(s: Scan, es: seq<GroupEntry>, indent: nat, cfg: FormatConfig, rest: Input)
    requires Nested(s)
    ensures Passes(s, PrintMembers(es, indent, cfg, rest), rest)
    decreases es, 2
  {
    hide Stop, Nested, Deep, PrintMember, PrintMoreMembers;
    if es != [] {
      NestedIsDeep(s);
      PassMember(s, es[0], indent, cfg, PrintMoreMembers(es[1..], indent, cfg, rest));
      PassMoreMembers(s, es[1..], indent, cfg, rest);
    }
  }

  lemma {:induction false} PassMoreMembers(s: Scan, es: seq<GroupEntry>, indent: nat, cfg: FormatConfig, rest: Input)
    requires Nested(s)
    ensures Passes(s, PrintMoreMembers(es, indent, cfg, rest), rest)
    decreases es, 2
  {
    hide Stop, Nested, Deep, PrintMember;
    if es != [] {
      NestedIsDeep(s);
      var more := PrintMoreMembers(es[1..], indent, cfg, rest);
      var member := PrintMember(es[0], indent, cfg, more);
      Plainly(s, Comma, [SPACE] + member);
      Plainly(s, SPACE, member);
      PassMember(s, es[0], indent, cfg, more);
      PassMoreMembers(s, es[1..], indent, cfg, rest);
    }
  }

  lemma {:induction false} PassMember(s: Scan, e: GroupEntry, indent: nat, cfg: FormatConfig, rest: Input)
    requires Deep(s)
    ensures Passes(s, PrintMember(e, indent, cfg, rest), rest)
    decreases e, 1
  {
    hide Stop, Deep, PrintType, PrintName;
    var value := PrintType(e.valueType, indent, cfg, rest);
    PassType(s, e.valueType, indent, cfg, rest);
    match e.key {
      case Some(Bare(name)) =>
        PassName(s, name, [Colon] + ([SPACE] + value));
        Plainly(s, Colon, [SPACE] + value);
        Plainly(s, SPACE, value);
      case _ =>
    }
  }

  lemma PassOccurrence(s: Scan, occurrence: Option<Occurrence>, rest: Input)
    requires Deep(s)
    ensures Passes(s, PrintOccurrence(occurrence, rest), rest)
  {
    hide Stop, Deep, Unsigned;
    match occurrence {
      case None =>
      case Some(Optional) => Plainly(s, Token.Optional, rest);
      case Some(ZeroOrMore) => Plainly(s, Token.ZeroOrMore, rest);
      case Some(OneOrMore) => Plainly(s, Token.OneOrMore, rest);
      case Some(Exact(n)) =>
        UnsignedIsPlain(n);
        Plainly(s, Unsigned(n), rest);
      case Some(Between(min, max)) =>
        var tail := (if max.Some? then [Unsigned(max.value)] else []) + rest;
        if max.Some? {
          UnsignedIsPlain(max.value);
          Plainly(s, Unsigned(max.value), rest);
        } else {
          assert [] + rest == rest;
        }
        Plainly(s, Token.ZeroOrMore, tail);
        if min.Some? {
          UnsignedIsPlain(min.value);
          Plainly(s, Unsigned(min.value), [Token.ZeroOrMore] + tail);
        } else {
          assert [] + ([Token.ZeroOrMore] + tail) == [Token.ZeroOrMore] + tail;
        }
    }
  }

  lemma {:induction false} PassEntry(s: Scan, e: GroupEntry, indent: nat, cfg: FormatConfig, rest: Input)
    requires Deep(s)
    ensures Passes(s, PrintEntry(e, indent, cfg, rest), rest)
    decreases e, 1
  {
    hide Stop, Deep, PrintType, PrintKey, PrintAnnotations;
    var annotations := PrintAnnotations(e.metadata, rest);
    var value := PrintType(e.valueType, indent, cfg, annotations);
    PassAnnotations(s, e.metadata, rest);
    PassType(s, e.valueType, indent, cfg, annotations);
    if e.key.Some? {
      PassKey(s, e.key.value, e.occurrence, indent, cfg, [Colon] + ([SPACE] + value));
      Plainly(s, Colon, [SPACE] + value);
      Plainly(s, SPACE, value);
    }
  }

  lemma {:induction false} PassKey(
      s: Scan, key: GroupKey, occurrence: Option<Occurrence>, indent: nat, cfg: FormatConfig, rest: Input)
    requires Deep(s)
    ensures Passes(s, PrintKey(key, occurrence, indent, cfg, rest), rest)
    decreases key, 1
  {
    hide Stop, Deep, Nested, Inside, PrintType, PrintWordKey, PrintLiteralKey, PrintOccurrence;
    match key {
      case Bare(name) => PassWordKey(s, name, occurrence, rest);
      case LiteralKey(lit) => PassLiteralKey(s, lit, occurrence, rest);
      case TypeKey(t) =>
        var tail := PrintOccurrence(occurrence, rest);
        InsideIsNested(s, LeftParen);
        NestedIsDeep(Inside(s, LeftParen));
        PassType(Inside(s, LeftParen), t, indent, cfg, [RightParen] + tail);
        Bracketed(s, LeftParen, PrintType(t, indent, cfg, [RightParen] + tail), tail);
        PassOccurrence(s, occurrence, rest);
    }
  }

  lemma PassWordKey(s: Scan, name: string, occurrence: Option<Occurrence>, rest: Input)
    requires Deep(s)
    ensures Passes(s, PrintWordKey(name, occurrence, rest), rest)
  {
    hide Stop, Deep, PrintName, PrintOccurrence, Count, Uncounted;
    PassName(s, name + Count(occurrence), PrintOccurrence(Uncounted(occurrence), rest));
    PassOccurrence(s, Uncounted(occurrence), rest);
  }

  lemma PassLiteralKey(s: Scan, lit: LiteralValue, occurrence: Option<Occurrence>, rest: Input)
    requires Deep(s)
    ensures Passes(s, PrintLiteralKey(lit, occurrence, rest), rest)
  {
    hide Stop, Deep, PrintWordKey, PrintLiteral, PrintOccurrence, Count, Uncounted, LongerInteger;
    if SpelledLikeName(lit).Some? {
      PassWordKey(s, SpelledLikeName(lit).value, occurrence, rest);
    } else if lit.Integer? {
      LongerIsPlain(lit.i, Count(occurrence));
      Plainly(s, LongerInteger(lit.i, Count(occurrence)), PrintOccurrence(Uncounted(occurrence), rest));
      PassOccurrence(s, Uncounted(occurrence), rest);
    } else {
      PassLiteral(s, lit, PrintOccurrence(occurrence, rest));
      PassOccurrence(s, occurrence, rest);
    }
  }

  lemma LongerIsPlain(i: i64, digits: string)
    ensures IsPlain(LongerInteger(i, digits))
  {
    hide Longer;
  }

  lemma {:induction false} PassGroup(s: Scan, g: GroupExpression, indent: nat, cfg: FormatConfig, rest: Input)
    requires Deep(s)
    ensures Passes(s, PrintGroup(g, indent, cfg, rest), rest)
    decreases g, 3
  {
    hide Stop, Deep, Nested, Inside, PrintEntries, Spaces;
    InsideIsNested(s, LeftBrace);
    var inner := Inside(s, LeftBrace);
    NestedIsDeep(inner);
    if g.entries == [] {
      Bracketed(s, LeftBrace, [RightBrace] + rest, rest);
    } else {
      var close := Spaces(indent, [RightBrace] + rest);
      var entries := PrintEntries(g.entries, indent + cfg.indentSize, cfg, close);
      Plainly(inner, Newline, entries);
      PassEntries(inner, g.entries, indent + cfg.indentSize, cfg, close);
      PassSpaces(inner, indent, [RightBrace] + rest);
      Bracketed(s, LeftBrace, [Newline] + entries, rest);
    }
  }

  lemma {:induction false} PassEntries(s: Scan, es: seq<GroupEntry>, indent: nat, cfg: FormatConfig, rest: Input)
    requires Nested(s)
    ensures Passes(s, PrintEntries(es, indent, cfg, rest), rest)
    decreases es, 2
  {
    hide Stop, Nested, Deep, PrintEntry, Spaces;
    if es != [] {
      NestedIsDeep(s);
      var more := PrintEntries(es[1..], indent, cfg, rest);
      var comma := |es| > 1 || cfg.trailingCommas;
      var behind := PrintComma(comma, [Newline] + more);
      PassSpaces(s, indent, PrintEntry(es[0], indent, cfg, behind));
      PassEntry(s, es[0], indent, cfg, behind);
      if comma {
        Plainly(s, Comma, [Newline] + more);
      }
      Plainly(s, Newline, more);
      PassEntries(s, es[1..], indent, cfg, rest);
    }
  }
}
