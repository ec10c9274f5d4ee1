/** The formatter as it runs: one output that every printing method appends to. `rest` stands for
    whatever is appended later. */
module PrinterCode {
  import opened Bytes
  import opened Ast
  import opened Tokens
  import opened AnnotationPrinter
  import opened TypePrinter
  import opened TypeAppend

  lemma Shift(out: Input, t: Token, rest: Input)
    ensures (out + [t]) + rest == out + ([t] + rest)
  {
  }

  class Formatter {
    var output: Input
    const cfg: FormatConfig

    constructor (cfg: FormatConfig)
      ensures output == [] && this.cfg == cfg
    {
      this.cfg := cfg;
      output := [];
    }

    method Push(t: Token, ghost rest: Input)
      modifies this
      ensures output + rest == old(output) + ([t] + rest)
    {
      Shift(output, t, rest);
      output := output + [t];
    }

    method PushSpaces(n: nat, ghost rest: Input)
      modifies this
      ensures output + rest == old(output) + Spaces(n, rest)
    {
      if n > 0 {
        Push(Whitespace(seq(n, _ => ' ')), rest);
      }
    }

    method PushName(name: string, ghost rest: Input)
      modifies this
      ensures output + rest == old(output) + PrintName(name, rest)
    {
      hide PrintName;
      NameAppends(name, [], rest);
      assert [] + rest == rest;
      assert (output + PrintName(name, [])) + rest == output + (PrintName(name, []) + rest);
      output := output + PrintName(name, []);
    }

    method FormatType(t: TypeExpression, indent: nat, ghost rest: Input)
      modifies this
      ensures output + rest == old(output) + PrintType(t, indent, cfg, rest)
      decreases t, 0
    {
      hide PrintName, PrintMembers, PrintGroup, PrintMoreArms, PrintLiteral, PrintControls, PrintMember;
      match t {
        case Builtin(name) => PushName(name, rest);
        case Reference(name) => PushName(name, rest);
        case Array(element, _) =>
          Push(LeftBracket, PrintType(element, indent, cfg, [RightBracket] + rest));
          FormatType(element, indent, [RightBracket] + rest);
          Push(RightBracket, rest);
        case Map(key, value, _) =>
          ghost var val := PrintType(value, indent, cfg, [RightBrace] + rest);
          ghost var behindKey := [SPACE] + ([Arrow] + ([SPACE] + val));
          Push(LeftBrace, PrintType(key, indent, cfg, behindKey));
          FormatType(key, indent, behindKey);
          Push(SPACE, [Arrow] + ([SPACE] + val));
          Push(Arrow, [SPACE] + val);
          Push(SPACE, val);
          FormatType(value, indent, [RightBrace] + rest);
          Push(RightBrace, rest);
        case Tuple(g) =>
          Push(LeftBracket, PrintMembers(g.entries, indent, cfg, [RightBracket] + rest));
          FormatMembers(g.entries, indent, [RightBracket] + rest);
          Push(RightBracket, rest);
        case Group(g) => FormatGroup(g, indent, rest);
        case Choice(arms) =>
          ghost var start := output;
          for i := 0 to |arms|
            invariant output + (if i == 0 then PrintArms(arms, indent, cfg, rest)
                 else PrintMoreArms(arms[i..], indent, cfg, rest))
                   == start + PrintArms(arms, indent, cfg, rest)
          {
            ghost var more := PrintMoreArms(arms[i + 1..], indent, cfg, rest);
            ghost var arm := PrintType(arms[i], indent, cfg, more);
            if i > 0 {
              UnfoldArms(arms[i..], indent, cfg, rest);
              assert arms[i..][1..] == arms[i + 1..];
              Push(SPACE, [Slash] + ([SPACE] + arm));
              Push(Slash, [SPACE] + arm);
              Push(SPACE, arm);
            }
            FormatType(arms[i], indent, more);
          }
          if arms != [] {
            UnfoldArms(arms[|arms|..], indent, cfg, rest);
          }
        case Range(start, end, _) =>
          ghost var tail := (if end.Some? then [Token.Integer(end.value)] else []) + rest;
          if start.Some? {
            Push(Token.Integer(start.value), [Token.Range] + tail);
          } else {
            assert [] + ([Token.Range] + tail) == [Token.Range] + tail;
          }
          Push(Token.Range, tail);
          if end.Some? {
            Push(Token.Integer(end.value), rest);
          } else {
            assert [] + rest == rest;
          }
        case Socket(name) => Push(SocketToken(name), rest);
        case Plug(name) => Push(PlugToken(name), rest);
        case Literal(lit) => FormatLiteral(lit, rest);
        case Constrained(base, ops) =>
          FormatType(base, indent, PrintControls(ops, cfg, rest));
          FormatControls(ops, rest);
      }
    }

    method FormatMembers(es: seq<GroupEntry>, indent: nat, ghost rest: Input)
      modifies this
      ensures output + rest == old(output) + PrintMembers(es, indent, cfg, rest)
      decreases es, 1
    {
      hide PrintType, PrintName, PrintMember, PrintMoreMembers;
      for i := 0 to |es|
        invariant output + (if i == 0 then PrintMembers(es, indent, cfg, rest)
             else PrintMoreMembers(es[i..], indent, cfg, rest))
               == old(output) + PrintMembers(es, indent, cfg, rest)
      {
        ghost var more := PrintMoreMembers(es[i + 1..], indent, cfg, rest);
        if i > 0 {
          UnfoldMembers(es[i..], indent, cfg, rest);
          assert es[i..][1..] == es[i + 1..];
          Push(Comma, [SPACE] + PrintMember(es[i], indent, cfg, more));
          Push(SPACE, PrintMember(es[i], indent, cfg, more));
        }
        UnfoldMember(es[i], indent, cfg, more);
        ghost var value := PrintType(es[i].valueType, indent, cfg, more);
        match es[i].key {
          case Some(Bare(name)) =>
            PushName(name, [Colon] + ([SPACE] + value));
            Push(Colon, [SPACE] + value);
            Push(SPACE, value);
          case _ =>
        }
        FormatType(es[i].valueType, indent, more);
      }
      if es != [] {
        UnfoldMembers(es[|es|..], indent, cfg, rest);
      }
    }

    method FormatGroup(g: GroupExpression, indent: nat, ghost rest: Input)
      modifies this
      ensures output + rest == old(output) + PrintGroup(g, indent, cfg, rest)
      decreases g, 2
    {
      hide PrintType, PrintEntries, PrintEntry, Spaces;
      ghost var close := [RightBrace] + rest;
      var es, inner := g.entries, indent + cfg.indentSize;
      if es == [] {
        Push(LeftBrace, close);
      } else {
        ghost var entries := PrintEntries(es, inner, cfg, Spaces(indent, close));
        Push(LeftBrace, [Newline] + entries);
        Push(Newline, entries);
        FormatEntries(es, inner, Spaces(indent, close));
        PushSpaces(indent, close);
      }
      Push(RightBrace, rest);
    }

    method FormatEntries(es: seq<GroupEntry>, indent: nat, ghost rest: Input)
      modifies this
      ensures output + rest == old(output) + PrintEntries(es, indent, cfg, rest)
      decreases es, 2
    {
      hide PrintEntry, Spaces, PrintEntries;
      assert es[0..] == es;
      for i := 0 to |es|
        invariant output + PrintEntries(es[i..], indent, cfg, rest) == old(output) + PrintEntries(es, indent, cfg, rest)
      {
        UnfoldEntries(es[i..], indent, cfg, rest);
        assert es[i..][1..] == es[i + 1..];
        ghost var more := PrintEntries(es[i + 1..], indent, cfg, rest);
        var comma := i < |es| - 1 || cfg.trailingCommas;
        ghost var behind := PrintComma(comma, [Newline] + more);
        PushSpaces(indent, PrintEntry(es[i], indent, cfg, behind));
        FormatEntry(es[i], indent, behind);
        if comma {
          Push(Comma, [Newline] + more);
        }
        Push(Newline, more);
      }
      UnfoldEntries(es[|es|..], indent, cfg, rest);
    }

    method FormatEntry(e: GroupEntry, indent: nat, ghost rest: Input)
      modifies this
      ensures output + rest == old(output) + PrintEntry(e, indent, cfg, rest)
      decreases e, 1
    {
      hide PrintType, PrintKey, PrintAnnotations;
      ghost var annotations := PrintAnnotations(e.metadata, rest);
      ghost var value := PrintType(e.valueType, indent, cfg, annotations);
      if e.key.Some? {
        FormatKey(e.key.value, e.occurrence, indent, [Colon] + ([SPACE] + value));
        Push(Colon, [SPACE] + value);
        Push(SPACE, value);
      }
      FormatType(e.valueType, indent, annotations);
      FormatAnnotations(e.metadata, rest);
    }

    /** The occurrence stands right behind the key, so a number it starts with joins a word or number. */
    method FormatKey(key: GroupKey, occurrence: Option<Occurrence>, indent: nat, ghost rest: Input)
      modifies this
      ensures output + rest == old(output) + PrintKey(key, occurrence, indent, cfg, rest)
      decreases key, 1
    {
      hide PrintType, PrintName, PrintLiteral, PrintOccurrence, Count, Uncounted, LongerInteger;
      match key {
        case Bare(name) =>
          PushName(name + Count(occurrence), PrintOccurrence(Uncounted(occurrence), rest));
          FormatOccurrence(Uncounted(occurrence), rest);
        case LiteralKey(lit) =>
          if SpelledLikeName(lit).Some? {
            PushName(SpelledLikeName(lit).value + Count(occurrence), PrintOccurrence(Uncounted(occurrence), rest));
            FormatOccurrence(Uncounted(occurrence), rest);
          } else if lit.Integer? {
            Push(LongerInteger(lit.i, Count(occurrence)), PrintOccurrence(Uncounted(occurrence), rest));
            FormatOccurrence(Uncounted(occurrence), rest);
          } else {
            FormatLiteral(lit, PrintOccurrence(occurrence, rest));
            FormatOccurrence(occurrence, rest);
          }
        case TypeKey(t) =>
          ghost var tail := PrintOccurrence(occurrence, rest);
          Push(LeftParen, PrintType(t, indent, cfg, [RightParen] + tail));
          FormatType(t, indent, [RightParen] + tail);
          Push(RightParen, tail);
          FormatOccurrence(occurrence, rest);
      }
    }

    method FormatAnnotations(metadata: seq<Annotation>, ghost rest: Input)
      modifies this
      ensures output + rest == old(output) + PrintAnnotations(metadata, rest)
    {
      hide PrintAnnotation;
      assert metadata[0..] == metadata;
      for i := 0 to |metadata|
        invariant output + PrintAnnotations(metadata[i..], rest) == old(output) + PrintAnnotations(metadata, rest)
      {
        ghost var more := PrintAnnotations(metadata[i + 1..], rest);
        assert metadata[i..][1..] == metadata[i + 1..];
        Push(SPACE, PrintAnnotation(metadata[i], more));
        FormatAnnotation(metadata[i], more);
      }
    }

    method FormatAnnotation(a: Annotation, ghost rest: Input)
      modifies this
      ensures output + rest == old(output) + PrintAnnotation(a, rest)
    {
      hide PrintLiteral, PrintName, PrintOperand, PrintCondition, PrintParameters, AtWord, Quoted, Unsigned;
      ghost var close := [RightParen] + rest;
      match a {
        case Shown(visibility) => Push(At(AtVisibility(visibility)), rest);
        case DependsOn(field, value) =>
          ghost var behind := [RightParen] + PrintOperand(Some(Eq), value, rest);
          Open(At(AtDependsOn), PrintName(field, behind));
          PushName(field, behind);
          Push(RightParen, PrintOperand(Some(Eq), value, rest));
          FormatOperand(Some(Eq), value, rest);
        case DependsOnExpr(condition) =>
          Open(At(AtDependsOn), PrintCondition(condition, close));
          FormatDependsCondition(condition, close);
          Push(RightParen, rest);
        case Bounded(bound, n) =>
          Open(At(AtSizeBound(bound)), [Unsigned(n)] + close);
          Push(Unsigned(n), close);
          Push(RightParen, rest);
        case Limited(limit, value) =>
          Open(At(AtValueLimit(limit)), PrintLiteral(value, close));
          FormatLiteral(value, close);
          Push(RightParen, rest);
        case Restricted(name, value) =>
          Open(AtWord(name), PrintLiteral(value, close));
          FormatLiteral(value, close);
          Push(RightParen, rest);
        case Description(text) =>
          Open(At(AtDescription), [Quoted(text)] + close);
          Push(Quoted(text), close);
          Push(RightParen, rest);
        case Custom(name, parameters) =>
          Open(AtWord(name), PrintParameters(parameters, close));
          FormatParameters(parameters, close);
          Push(RightParen, rest);
      }
    }

    method Open(at: Token, ghost inner: Input)
      modifies this
      ensures output + inner == old(output) + InParens(at, inner)
    {
      Push(at, [LeftParen] + inner);
      Push(LeftParen, inner);
    }

    method FormatOperand(op: Option<CompareOp>, value: Option<LiteralValue>, ghost rest: Input)
      modifies this
      ensures output + rest == old(output) + PrintOperand(op, value, rest)
    {
      hide PrintLiteral;
      if op.Some? && value.Some? {
        ghost var text := PrintLiteral(value.value, rest);
        Push(SPACE, [Comparison(op.value)] + ([SPACE] + text));
        Push(Comparison(op.value), [SPACE] + text);
        Push(SPACE, text);
        FormatLiteral(value.value, rest);
      }
    }

    method FormatDependsCondition(c: Condition, ghost rest: Input)
      modifies this
      ensures output + rest == old(output) + PrintCondition(c, rest)
      decreases c, 0
    {
      hide PrintName, PrintOperand, PrintTerms;
      match c {
        case Compare(field, op, value) =>
          PushName(field, PrintOperand(op, value, rest));
          FormatOperand(op, value, rest);
        case All(terms) => FormatJoinedConditions(terms, Ampersand, rest);
        case Any(terms) => FormatJoinedConditions(terms, Pipe, rest);
      }
    }

    method FormatJoinedConditions(terms: seq<Condition>, mark: Token, ghost rest: Input)
      modifies this
      ensures output + rest == old(output) + PrintTerms(terms, mark, rest)
      decreases terms, 1
    {
      hide PrintCondition, PrintMoreTerms;
      for i := 0 to |terms|
        invariant output + (if i == 0 then PrintTerms(terms, mark, rest) else PrintMoreTerms(terms[i..], mark, rest))
               == old(output) + PrintTerms(terms, mark, rest)
      {
        ghost var more := PrintMoreTerms(terms[i + 1..], mark, rest);
        if i > 0 {
          UnfoldTerms(terms[i..], mark, rest);
          assert terms[i..][1..] == terms[i + 1..];
          Push(SPACE, [mark] + ([SPACE] + PrintCondition(terms[i], more)));
          Push(mark, [SPACE] + PrintCondition(terms[i], more));
          Push(SPACE, PrintCondition(terms[i], more));
        }
        FormatDependsCondition(terms[i], more);
      }
      if terms != [] {
        UnfoldTerms(terms[|terms|..], mark, rest);
      }
    }

    method FormatParameters(ps: seq<Parameter>, ghost rest: Input)
      modifies this
      ensures output + rest == old(output) + PrintParameters(ps, rest)
    {
      hide PrintParameter, PrintMoreParameters;
      for i := 0 to |ps|
        invariant output + (if i == 0 then PrintParameters(ps, rest) else PrintMoreParameters(ps[i..], rest))
               == old(output) + PrintParameters(ps, rest)
      {
        ghost var more := PrintMoreParameters(ps[i + 1..], rest);
        if i > 0 {
          UnfoldParameters(ps[i..], rest);
          assert ps[i..][1..] == ps[i + 1..];
          Push(Comma, [SPACE] + PrintParameter(ps[i], more));
          Push(SPACE, PrintParameter(ps[i], more));
        }
        FormatParameter(ps[i], more);
      }
      if ps != [] {
        UnfoldParameters(ps[|ps|..], rest);
      }
    }

    method FormatParameter(p: Parameter, ghost rest: Input)
      modifies this
      ensures output + rest == old(output) + PrintParameter(p, rest)
    {
      hide PrintName, PrintLiteral;
      ghost var value := PrintLiteral(p.value, rest);
      if p.name.Some? {
        PushName(p.name.value, [SPACE] + ([Comparison(Eq)] + ([SPACE] + value)));
        Push(SPACE, [Comparison(Eq)] + ([SPACE] + value));
        Push(Comparison(Eq), [SPACE] + value);
        Push(SPACE, value);
      }
      FormatLiteral(p.value, rest);
    }

    method FormatOccurrence(occurrence: Option<Occurrence>, ghost rest: Input)
      modifies this
      ensures output + rest == old(output) + PrintOccurrence(occurrence, rest)
    {
      match occurrence {
        case None =>
        case Some(Optional) => Push(Token.Optional, rest);
        case Some(ZeroOrMore) => Push(Token.ZeroOrMore, rest);
        case Some(OneOrMore) => Push(Token.OneOrMore, rest);
        case Some(Exact(n)) => Push(Unsigned(n), rest);
        case Some(Between(min, max)) =>
          ghost var tail := (if max.Some? then [Unsigned(max.value)] else []) + rest;
          if min.Some? {
            Push(Unsigned(min.value), [Token.ZeroOrMore] + tail);
          } else {
            assert [] + ([Token.ZeroOrMore] + tail) == [Token.ZeroOrMore] + tail;
          }
          Push(Token.ZeroOrMore, tail);
          if max.Some? {
            Push(Unsigned(max.value), rest);
          } else {
            assert [] + rest == rest;
          }
      }
    }

    method FormatLiteral(lit: LiteralValue, ghost rest: Input)
      modifies this
      ensures output + rest == old(output) + PrintLiteral(lit, rest)
      decreases lit
    {
      hide PrintElements;
      match lit {
        case Integer(i) => Push(Token.Integer(i), rest);
        case Float(bits) => Push(Token.Float(bits), rest);
        case Text(s) => Push(Quoted(s), rest);
        case ByteString(b) => Push(Token.ByteString(b), rest);
        case Bool(flag) => Push(Token.Builtin(if flag then "true" else "false"), rest);
        case Null => Push(Token.Builtin("null"), rest);
        case List(elements) =>
          Push(LeftBracket, PrintElements(elements, [RightBracket] + rest));
          FormatElements(elements, [RightBracket] + rest);
          Push(RightBracket, rest);
      }
    }

    method FormatElements(elements: seq<LiteralValue>, ghost rest: Input)
      modifies this
      ensures output + rest == old(output) + PrintElements(elements, rest)
      decreases elements
    {
      hide PrintLiteral, PrintMoreElements;
      for i := 0 to |elements|
        invariant output + (if i == 0 then PrintElements(elements, rest) else PrintMoreElements(elements[i..], rest))
               == old(output) + PrintElements(elements, rest)
      {
        ghost var more := PrintMoreElements(elements[i + 1..], rest);
        if i > 0 {
          UnfoldElements(elements[i..], rest);
          assert elements[i..][1..] == elements[i + 1..];
          Push(Comma, [SPACE] + PrintLiteral(elements[i], more));
          Push(SPACE, PrintLiteral(elements[i], more));
        }
        FormatLiteral(elements[i], more);
      }
      if elements != [] {
        UnfoldElements(elements[|elements|..], rest);
      }
    }

    /** The types some operators take are printed as at the margin. */
    method FormatControls(ops: seq<ControlOperator>, ghost rest: Input)
      modifies this
      ensures output + rest == old(output) + PrintControls(ops, cfg, rest)
      decreases ops, 3
    {
      hide PrintControl;
      assert ops[0..] == ops;
      for i := 0 to |ops|
        invariant output + PrintControls(ops[i..], cfg, rest) == old(output) + PrintControls(ops, cfg, rest)
      {
        ghost var more := PrintControls(ops[i + 1..], cfg, rest);
        assert ops[i..][1..] == ops[i + 1..];
        Push(SPACE, PrintControl(ops[i], cfg, more));
        FormatControl(ops[i], more);
      }
    }

    method FormatControl(op: ControlOperator, ghost rest: Input)
      modifies this
      ensures output + rest == old(output) + PrintControl(op, cfg, rest)
      decreases op, 2
    {
      hide PrintLiteral, PrintSize, PrintName, PrintType;
      match op {
        case WithLiteral(lop, value) =>
          Push(LiteralControl(lop), [SPACE] + PrintLiteral(value, rest));
          Push(SPACE, PrintLiteral(value, rest));
          FormatLiteral(value, rest);
        case Plain(plain) => Push(PlainControl(plain), rest);
        case Regex(pattern) =>
          Push(RegexControl, [SPACE] + ([Quoted(pattern)] + rest));
          Push(SPACE, [Quoted(pattern)] + rest);
          Push(Quoted(pattern), rest);
        case Size(size) =>
          Push(SizeControl, [SPACE] + PrintSize(size, rest));
          Push(SPACE, PrintSize(size, rest));
          FormatSize(size, rest);
        case Bits(expression) =>
          Push(BitsControl, [SPACE] + PrintName(expression, rest));
          Push(SPACE, PrintName(expression, rest));
          PushName(expression, rest);
        case And(operand) =>
          Push(AndControl, [SPACE] + PrintType(operand, 0, cfg, rest));
          Push(SPACE, PrintType(operand, 0, cfg, rest));
          FormatType(operand, 0, rest);
        case Within(operand) =>
          Push(WithinControl, [SPACE] + PrintType(operand, 0, cfg, rest));
          Push(SPACE, PrintType(operand, 0, cfg, rest));
          FormatType(operand, 0, rest);
      }
    }

    method FormatSize(size: SizeConstraint, ghost rest: Input)
      modifies this
      ensures output + rest == old(output) + PrintSize(size, rest)
    {
      hide Unsigned;
      ghost var close := [RightParen] + rest;
      match size {
        case ExactSize(n) => Push(Unsigned(n), rest);
        case SizeRange(min, max) =>
          Push(LeftParen, [Unsigned(min)] + ([Token.Range] + ([Unsigned(max)] + close)));
          Push(Unsigned(min), [Token.Range] + ([Unsigned(max)] + close));
          Push(Token.Range, [Unsigned(max)] + close);
          Push(Unsigned(max), close);
          Push(RightParen, rest);
        case MinSize(min) =>
          Push(LeftParen, [Unsigned(min)] + ([Token.Range] + close));
          Push(Unsigned(min), [Token.Range] + close);
          Push(Token.Range, close);
          Push(RightParen, rest);
        case MaxSize(max) =>
          Push(LeftParen, [Token.Range] + ([Unsigned(max)] + close));
          Push(Token.Range, [Unsigned(max)] + close);
          Push(Unsigned(max), close);
          Push(RightParen, rest);
      }
    }
  }

  lemma UnfoldArms(arms: seq<TypeExpression>, indent: nat, cfg: FormatConfig, rest: Input)
    ensures PrintMoreArms(arms, indent, cfg, rest)
         == if arms == [] then rest
            else
              var arm := PrintType(arms[0], indent, cfg, PrintMoreArms(arms[1..], indent, cfg, rest));
              [SPACE] + ([Slash] + ([SPACE] + arm))
  {
    hide PrintType;
  }

  lemma UnfoldMembers(es: seq<GroupEntry>, indent: nat, cfg: FormatConfig, rest: Input)
    ensures PrintMoreMembers(es, indent, cfg, rest)
         == if es == [] then rest
            else [Comma] + ([SPACE] + PrintMember(es[0], indent, cfg, PrintMoreMembers(es[1..], indent, cfg, rest)))
  {
    hide PrintMember;
  }

  lemma UnfoldMember(e: GroupEntry, indent: nat, cfg: FormatConfig, rest: Input)
    ensures PrintMember(e, indent, cfg, rest)
         == (var value := PrintType(e.valueType, indent, cfg, rest);
             match e.key
             case Some(Bare(name)) => PrintName(name, [Colon] + ([SPACE] + value))
             case _ => value)
  {
    hide PrintType, PrintName;
  }

  lemma UnfoldEntries(es: seq<GroupEntry>, indent: nat, cfg: FormatConfig, rest: Input)
    ensures PrintEntries(es, indent, cfg, rest)
         == if es == [] then rest
            else Spaces(indent, PrintEntry(es[0], indent, cfg,
                   PrintComma(|es| > 1 || cfg.trailingCommas, [Newline] + PrintEntries(es[1..], indent, cfg, rest))))
  {
    hide PrintEntry, Spaces;
  }

  lemma UnfoldTerms(terms: seq<Condition>, mark: Token, rest: Input)
    ensures PrintMoreTerms(terms, mark, rest)
         == if terms == [] then rest
            else [SPACE] + ([mark] + ([SPACE] + PrintCondition(terms[0], PrintMoreTerms(terms[1..], mark, rest))))
  {
    hide PrintCondition;
  }

  lemma UnfoldParameters(ps: seq<Parameter>, rest: Input)
    ensures PrintMoreParameters(ps, rest)
         == if ps == [] then rest else [Comma] + ([SPACE] + PrintParameter(ps[0], PrintMoreParameters(ps[1..], rest)))
  {
    hide PrintParameter;
  }

  lemma UnfoldElements(elements: seq<LiteralValue>, rest: Input)
    ensures PrintMoreElements(elements, rest)
         == if elements == [] then rest
            else [Comma] + ([SPACE] + PrintLiteral(elements[0], PrintMoreElements(elements[1..], rest)))
  {
    hide PrintLiteral;
  }

  /** A type expression printed on its own. */
  method FormatTypeExpression(t: TypeExpression, indent: nat, cfg: FormatConfig) returns (text: Input)
    ensures text == PrintType(t, indent, cfg, [])
  {
    hide PrintType;
    var formatter := new Formatter(cfg);
    formatter.FormatType(t, indent, []);
    text := formatter.output;
    assert text + [] == text;
  }
}
