/** The grammar of type expressions as crates/csilgen-core/src/parser.rs reads it: each function
    takes the tokens still to come and gives a tree with the tokens left, or an error. */
module TypeParser {
  import opened Bytes
  import opened Ast
  import opened Tokens
  import opened AnnotationParser

  // ---- type expressions ------------------------------------------------------------------------------

  predicate IsChoiceMark(t: Token) {
    t.Slash? || t.DoubleSlash?
  }

  predicate IsRangeMark(t: Token) {
    t == Token.Range || t == Token.RangeInclusive
  }

  function ParseType(ts: Input): (r: Parsed<TypeExpression>)
    ensures r.Ok? ==> |r.value.1| < |ts|
    decreases |ts|, 3
  {
    if IsRangeMark(Peek(ts)) then ParseRange(None, ts)
    else
      var (first, ts1) :- ParsePrimary(ts);
      if IsRangeMark(Peek(ts1)) && first.Literal? && (first.lit.Integer? || first.lit.Float?) then
        ParseRange(Some(first.lit), ts1)
      else if IsChoiceMark(Peek(ts1)) then
        var (more, ts2) :- ParseArms(ts1[1..]);
        Ok((Choice([first] + more), ts2))
      else Ok((first, ts1))
  }

  /** The arms behind a choice mark. */
  function ParseArms(ts: Input): (r: Parsed<seq<TypeExpression>>)
    ensures r.Ok? ==> |r.value.1| < |ts|
    decreases |ts|, 3
  {
    var (arm, ts1) :- ParsePrimary(Skip(ts));
    if IsChoiceMark(Peek(ts1)) then
      var (more, ts2) :- ParseArms(ts1[1..]);
      Ok(([arm] + more, ts2))
    else Ok(([arm], ts1))
  }

  /** A range becomes a number type with bounds; `...` leaves the upper bound out. */
  function ParseRange(start: Option<LiteralValue>, ts: Input): (r: Parsed<TypeExpression>)
    requires IsRangeMark(Peek(ts))
    ensures r.Ok? ==> |r.value.1| < |ts|
  {
    var ts1 := Skip(ts[1..]);
    var end := if Peek(ts1).Integer? then Some(LiteralValue.Integer(ts1[0].i))
               else if Peek(ts1).Float? then Some(LiteralValue.Float(ts1[0].bits))
               else None;
    if start.None? && end.None? then Err(ExpectedToken("a numeric range bound", Peek(ts1)))
    else Ok((RangeType(start, end, Peek(ts) == Token.RangeInclusive), if end.Some? then ts1[1..] else ts1))
  }

  function RangeType(start: Option<LiteralValue>, end: Option<LiteralValue>, exclusive: bool): TypeExpression {
    var isFloat := (start.Some? && start.value.Float?) || (end.Some? && end.value.Float?);
    var lower := if start.Some? then [WithLiteral(GreaterEqual, start.value)] else [];
    var upper := if end.Some? then [WithLiteral(if exclusive then LessThan else LessEqual, end.value)] else [];
    Constrained(TypeExpression.Builtin(if isFloat then "float" else "int"), lower + upper)
  }

  /** One type with its control operators; a parenthesised one is taken as it is. */
  function ParsePrimary(ts: Input): (r: Parsed<TypeExpression>)
    ensures r.Ok? ==> |r.value.1| < |ts|
    decreases |ts|, 2
  {
    if Peek(ts) == LeftParen then
      var ts1 := Skip(ts[1..]);
      if KeyAhead(ts1) then
        var (entries, ts2) :- ParseEntries(ts1, RightParen);
        var ts3 :- Consume(ts2, RightParen);
        Ok((Group(GroupExpression(entries)), ts3))
      else
        var (t, ts2) :- ParseType(ts1);
        var ts3 :- Consume(Skip(ts2), RightParen);
        Ok((t, ts3))
    else
      var (base, ts1) :- ParseBase(ts);
      var (ops, ts2) :- ParseControls(Skip(ts1));
      Ok((if ops == [] then base else Constrained(base, ops), ts2))
  }

  function ParseBase(ts: Input): (r: Parsed<TypeExpression>)
    ensures r.Ok? ==> |r.value.1| < |ts|
    decreases |ts|, 1
  {
    match Peek(ts)
    case Builtin(name) => Ok((TypeExpression.Builtin(name), ts[1..]))
    case Identifier(name) =>
      var (full, ts1) :- ParseDotted(name, ts[1..]);
      Ok((Reference(full), ts1))
    case LeftBrace => if MapAhead(ts) then ParseMap(ts) else ParseGroup(ts)
    case LeftBracket => ParseArray(ts)
    case Socket(lexeme) => Ok((TypeExpression.Socket(StripPrefix(lexeme, "$")), ts[1..]))
    case Plug(lexeme) => Ok((TypeExpression.Plug(StripPrefix(lexeme, "$$")), ts[1..]))
    case Integer(i) => Ok((Literal(LiteralValue.Integer(i)), ts[1..]))
    case Float(bits) => Ok((Literal(LiteralValue.Float(bits)), ts[1..]))
    case TextString(s) => Ok((Literal(Text(s)), ts[1..]))
    case ByteString(b) => Ok((Literal(LiteralValue.ByteString(b)), ts[1..]))
    case other => Err(ExpectedToken("type expression", other))
  }

  function StripPrefix(s: string, prefix: string): string {
    if prefix <= s then s[|prefix|..] else s
  }

  /** The parts behind a dotted name's first. */
  function ParseDotted(name: string, ts: Input): (r: Parsed<string>)
    ensures r.Ok? ==> |r.value.1| <= |ts|
    decreases |ts|
  {
    if Peek(ts) != Dot then Ok((name, ts))
    else
      var next := Peek(ts[1..]);
      if next.Identifier? then ParseDotted(name + "." + next.name, ts[2..])
      else Err(ExpectedIdentifier(next, "identifier after '.'"))
  }

  // ---- arrays and maps ---------------------------------------------------------------------------------

  /** One unkeyed member makes an array, anything else a tuple. */
  function ParseArray(ts: Input): (r: Parsed<TypeExpression>)
    ensures r.Ok? ==> |r.value.1| < |ts|
    decreases |ts|, 0
  {
    var ts1 :- Consume(ts, LeftBracket);
    var (members, ts2) :- ParseMembers(Skip(ts1));
    var ts3 :- Consume(ts2, RightBracket);
    Ok((if |members| == 1 && members[0].key.None? then Array(members[0].valueType, members[0].occurrence)
        else Tuple(GroupExpression(members)), ts3))
  }

  function ParseMembers(ts: Input): (r: Parsed<seq<GroupEntry>>)
    ensures r.Ok? ==> |r.value.1| <= |ts|
    decreases |ts|, 6
  {
    if Peek(ts) == RightBracket || Peek(ts) == Eof then Ok(([], ts))
    else
      var (member, ts1) :- ParseMember(ts);
      var ts2 := Skip(ts1);
      if Peek(ts2) == Comma then
        var (more, ts3) :- ParseMembers(Skip(ts2[1..]));
        Ok(([member] + more, ts3))
      else if Peek(ts2) == RightBracket then Ok(([member], ts2))
      else Err(ExpectedToken("comma or ]", Peek(ts2)))
  }

  function ParseMember(ts: Input): (r: Parsed<GroupEntry>)
    ensures r.Ok? ==> |r.value.1| < |ts|
    decreases |ts|, 5
  {
    var (occurrence, ts1) := ReadOccurrenceIf(OccurrenceAhead(ts), ts);
    var ts2 := Skip(ts1);
    if KeyAhead(ts2) then
      var (keyed, ts3) :- ParseKey(ts2);
      var (valueType, ts4) :- ParseType(Skip(ts3));
      Ok((GroupEntry(Some(keyed.0), valueType, if occurrence.Some? then occurrence else keyed.1, [], []), ts4))
    else
      var (valueType, ts3) :- ParseType(ts2);
      Ok((GroupEntry(None, valueType, occurrence, [], []), ts3))
  }

  function ParseMap(ts: Input): (r: Parsed<TypeExpression>)
    ensures r.Ok? ==> |r.value.1| < |ts|
    decreases |ts|, 0
  {
    var ts1 :- Consume(ts, LeftBrace);
    var (occurrence, ts2) := ReadOccurrenceIf(IsOccurrence(Peek(Skip(ts1))), Skip(ts1));
    ParseMapBody(occurrence, ts2)
  }

  function ParseMapBody(occurrence: Option<Occurrence>, ts: Input): (r: Parsed<TypeExpression>)
    ensures r.Ok? ==> |r.value.1| < |ts|
    decreases |ts|, 4
  {
    var (key, ts1) :- ParseType(Skip(ts));
    var ts2 :- Consume(Skip(ts1), Arrow);
    var (value, ts3) :- ParseType(Skip(ts2));
    var ts4 :- Consume(Skip(ts3), RightBrace);
    Ok((Map(key, value, occurrence), ts4))
  }

  // ---- groups ----------------------------------------------------------------------------------------------

  function ParseGroup(ts: Input): (r: Parsed<TypeExpression>)
    ensures r.Ok? ==> |r.value.1| < |ts|
    decreases |ts|, 0
  {
    var ts1 :- Consume(ts, LeftBrace);
    var (entries, ts2) :- ParseEntries(ts1, RightBrace);
    var ts3 :- Consume(ts2, RightBrace);
    Ok((Group(GroupExpression(entries)), ts3))
  }

  function ParseEntries(ts: Input, close: Token): (r: Parsed<seq<GroupEntry>>)
    requires close == RightBrace || close == RightParen
    ensures r.Ok? ==> |r.value.1| <= |ts|
    decreases |ts|, 8
  {
    ParseMoreEntries(Skip(ts), close)
  }

  function ParseMoreEntries(ts: Input, close: Token): (r: Parsed<seq<GroupEntry>>)
    requires close == RightBrace || close == RightParen
    ensures r.Ok? ==> |r.value.1| <= |ts|
    decreases |ts|, 7
  {
    if Peek(ts) == close || Peek(ts) == Eof then Ok(([], ts))
    else
      var (entry, ts1) :- ParseEntry(ts);
      var ts2 := Skip(ts1);
      if Peek(ts2) == Comma then
        var (more, ts3) :- ParseMoreEntries(Skip(ts2[1..]), close);
        Ok(([entry] + more, ts3))
      else if Peek(ts2) == close then Ok(([entry], ts2))
      else Err(ExpectedToken(if close == RightBrace then "comma or }" else "comma or )", Peek(ts2)))
  }

  /** `?` may stand before the key, behind it, or behind the value; annotations before the whole
      entry and behind it. */
  function ParseEntry(ts: Input): (r: Parsed<GroupEntry>)
    ensures r.Ok? ==> |r.value.1| < |ts|
    decreases |ts|, 6
  {
    var (metadata, ts0) :- ParseAnnotations(Skip(ts));
    var ts1 := Skip(ts0);
    var before := Peek(ts1) == Token.Optional;
    var ts2 := if before then Skip(ts1[1..]) else ts1;
    var (keyed, ts3) :- ParseOptionalKey(ts2);
    ParseEntryValue(keyed.0, if before then Some(Occurrence.Optional) else keyed.1, metadata, ts3)
  }

  function ParseEntryValue(
      key: Option<GroupKey>, occurrence: Option<Occurrence>, metadata: seq<Annotation>, ts: Input)
      : (r: Parsed<GroupEntry>)
    ensures r.Ok? ==> |r.value.1| < |ts|
    decreases |ts|, 5
  {
    var (valueType, ts1) :- ParseType(Skip(ts));
    var ts2 := Skip(ts1);
    var behind := Peek(ts2) == Token.Optional;
    var (more, ts3) :- ParseAnnotations(if behind then Skip(ts2[1..]) else ts2);
    Ok((GroupEntry(key, valueType, if behind then Some(Occurrence.Optional) else occurrence, metadata + more, []), ts3))
  }

  function ParseOptionalKey(ts: Input): (r: Parsed<(Option<GroupKey>, Option<Occurrence>)>)
    ensures r.Ok? ==> |r.value.1| <= |ts|
    decreases |ts|, 5
  {
    if KeyAhead(ts) then
      var (keyed, ts1) :- ParseKey(ts);
      Ok(((Some(keyed.0), keyed.1), ts1))
    else Ok(((None, None), ts))
  }

  function ParseKey(ts: Input): (r: Parsed<(GroupKey, Option<Occurrence>)>)
    ensures r.Ok? ==> |r.value.1| < |ts|
    decreases |ts|, 4
  {
    var t := Peek(ts);
    if t.Identifier? || t.Builtin? then ParseBareKey(t.name, Skip(ts[1..]))
    else if t.TextString? then ColonBehind(LiteralKey(Text(t.s)), ts[1..])
    else if t.Integer? then ColonBehind(LiteralKey(LiteralValue.Integer(t.i)), ts[1..])
    else
      var (typ, ts1) :- ParseType(ts);
      ColonBehind(TypeKey(typ), ts1)
  }

  function ColonBehind(key: GroupKey, ts: Input): (r: Parsed<(GroupKey, Option<Occurrence>)>)
    ensures r.Ok? ==> |r.value.1| < |ts|
  {
    var ts1 :- Consume(Skip(ts), Colon);
    Ok(((key, None), ts1))
  }

  function ParseBareKey(name: string, ts: Input): (r: Parsed<(GroupKey, Option<Occurrence>)>)
    ensures r.Ok? ==> |r.value.1| < |ts|
  {
    var optional := Peek(ts) == Token.Optional;
    var ts1 :- Consume(Skip(if optional then ts[1..] else ts), Colon);
    Ok(((Bare(name), if optional then Some(Occurrence.Optional) else None), ts1))
  }

  // ---- occurrences ---------------------------------------------------------------------------------------

  predicate IsOccurrence(t: Token) {
    t == Token.Optional || t == Token.ZeroOrMore || t == Token.OneOrMore || t.Integer?
  }

  /** The `as u64` of a signed literal. */
  function AsU64(i: i64): u64 {
    if i < 0 then i + 0x1_0000_0000_0000_0000 else i
  }

  function ReadOccurrenceIf(ahead: bool, ts: Input): (r: (Option<Occurrence>, Input))
    requires ahead ==> IsOccurrence(Peek(ts))
    ensures |r.1| <= |ts|
  {
    if ahead then
      var (occurrence, rest) := ReadOccurrence(ts);
      (Some(occurrence), rest)
    else (None, ts)
  }

  /** `?`, `*`, `*M`, `+`, `N`, `N*` or `N*M`. */
  function ReadOccurrence(ts: Input): (r: (Occurrence, Input))
    requires IsOccurrence(Peek(ts))
    ensures |r.1| < |ts|
  {
    if ts[0] == Token.Optional then (Occurrence.Optional, ts[1..])
    else if ts[0] == Token.OneOrMore then (Occurrence.OneOrMore, ts[1..])
    else if ts[0] == Token.ZeroOrMore then
      if Peek(ts[1..]).Integer? then (Between(Some(0), Some(AsU64(ts[1].i))), ts[2..])
      else (Occurrence.ZeroOrMore, ts[1..])
    else
      var count := AsU64(ts[0].i);
      if Peek(ts[1..]) == Token.ZeroOrMore then
        if Peek(ts[2..]).Integer? then (Between(Some(count), Some(AsU64(ts[2].i))), ts[3..])
        else (Between(Some(count), None), ts[2..])
      else (Exact(count), ts[1..])
  }

  // ---- looking ahead -------------------------------------------------------------------------------------

  /** Whether the brace that comes next holds a `=>` of its own before its first comma. */
  function MapAhead(ts: Input): bool {
    ScanBrace(ts, 0, 0, 0)
  }

  function ScanBrace(ts: Input, parens: int, brackets: int, braces: int): bool
    decreases |ts|
  {
    if ts == [] then false
    else
      var own := parens == 0 && brackets == 0 && braces == 1;
      match ts[0]
      case LeftBrace => ScanBrace(ts[1..], parens, brackets, braces + 1)
      case RightBrace => if braces - 1 == 0 then false else ScanBrace(ts[1..], parens, brackets, braces - 1)
      case LeftParen => ScanBrace(ts[1..], parens + 1, brackets, braces)
      case RightParen => ScanBrace(ts[1..], parens - 1, brackets, braces)
      case LeftBracket => ScanBrace(ts[1..], parens, brackets + 1, braces)
      case RightBracket => ScanBrace(ts[1..], parens, brackets - 1, braces)
      case Arrow => if own then true else ScanBrace(ts[1..], parens, brackets, braces)
      case Comma => if own then false else ScanBrace(ts[1..], parens, brackets, braces)
      case _ => ScanBrace(ts[1..], parens, brackets, braces)
  }

  /** Whether a member key comes next: a word, a literal or a bracketed type, then `:` or `=>`. */
  function KeyAhead(ts: Input): bool {
    match Peek(ts)
    case Identifier(_) => ColonAhead(ts[1..], true)
    case TextString(_) => ColonAhead(ts[1..], true)
    case Integer(_) => ColonAhead(ts[1..], true)
    case Builtin(_) => ColonAhead(ts[1..], false)
    case LeftBracket =>
      (match BehindBracket(ts[1..], 1)
       case Some(rest) => ColonAhead(rest, true)
       case None => false)
    case _ => false
  }

  function ColonAhead(ts: Input, orArrow: bool): bool {
    if ts == [] then false
    else
      match ts[0]
      case Whitespace(_) => ColonAhead(ts[1..], orArrow)
      case Newline => ColonAhead(ts[1..], orArrow)
      case Optional => ColonAhead(ts[1..], orArrow)
      case Colon => true
      case Arrow => orArrow
      case _ => false
  }

  /** The tokens behind the bracket that closes `depth` open ones. */
  function BehindBracket(ts: Input, depth: nat): Option<Input>
    decreases |ts|
  {
    if depth == 0 then Some(ts)
    else if ts == [] then None
    else
      match ts[0]
      case LeftBracket => BehindBracket(ts[1..], depth + 1)
      case RightBracket => BehindBracket(ts[1..], depth - 1)
      case _ => BehindBracket(ts[1..], depth)
  }

  /** An integer opens an occurrence unless the member ends right behind it. */
  function OccurrenceAhead(ts: Input): bool {
    IsOccurrence(Peek(ts)) && (Peek(ts).Integer? ==> TypeAhead(ts[1..]))
  }

  function TypeAhead(ts: Input): bool {
    if ts == [] then false
    else
      match ts[0]
      case Whitespace(_) => TypeAhead(ts[1..])
      case Newline => TypeAhead(ts[1..])
      case Comma => false
      case RightBracket => false
      case _ => true
  }

  // ---- control operators ---------------------------------------------------------------------------------

  predicate IsControl(t: Token) {
    || t.LiteralControl? || t.PlainControl? || t.RegexControl? || t.SizeControl?
    || t.BitsControl? || t.AndControl? || t.WithinControl?
  }

  function ParseControls(ts: Input): (r: Parsed<seq<ControlOperator>>)
    ensures r.Ok? ==> |r.value.1| <= |ts|
    decreases |ts|, 1
  {
    if !IsControl(Peek(ts)) then Ok(([], ts))
    else
      var (op, ts1) :- ParseControl(ts);
      var (more, ts2) :- ParseControls(Skip(ts1));
      Ok(([op] + more, ts2))
  }

  function ParseControl(ts: Input): (r: Parsed<ControlOperator>)
    requires IsControl(Peek(ts))
    ensures r.Ok? ==> |r.value.1| < |ts|
    decreases |ts|, 0
  {
    var t, ts1 := ts[0], Skip(ts[1..]);
    if t.PlainControl? then Ok((Plain(t.plain), ts[1..]))
    else if t.LiteralControl? then
      var (value, ts2) :- ParseLiteral(ts1);
      Ok((WithLiteral(t.op, value), ts2))
    else if t.SizeControl? then
      var (size, ts2) :- ParseSize(ts1);
      Ok((Size(size), ts2))
    else if t.AndControl? || t.WithinControl? then
      var (operand, ts2) :- ParseType(ts1);
      Ok((if t.AndControl? then And(operand) else Within(operand), ts2))
    else ParseWordControl(t, ts1)
  }

  /** The operand of `.regex` or `.bits`. */
  function ParseWordControl(t: Token, ts: Input): (r: Parsed<ControlOperator>)
    requires t.RegexControl? || t.BitsControl?
    ensures r.Ok? ==> |r.value.1| < |ts|
  {
    if t.RegexControl? then
      if Peek(ts).TextString? then Ok((Regex(ts[0].s), ts[1..]))
      else Err(ExpectedToken("string literal for regex pattern", Peek(ts)))
    else if Peek(ts).TextString? then Ok((Bits(ts[0].s), ts[1..]))
    else if Peek(ts).Identifier? then Ok((Bits(ts[0].name), ts[1..]))
    else Err(ExpectedToken("bits expression", Peek(ts)))
  }

  function ParseSize(ts: Input): (r: Parsed<SizeConstraint>)
    ensures r.Ok? ==> |r.value.1| < |ts|
  {
    if Peek(ts).Integer? then Ok((ExactSize(AsU64(ts[0].i)), ts[1..]))
    else if Peek(ts) == LeftParen then SizeAndParen(Skip(ts[1..]))
    else Err(ExpectedToken("integer or parenthesized range for size constraint", Peek(ts)))
  }

  function SizeAndParen(ts: Input): (r: Parsed<SizeConstraint>)
    ensures r.Ok? ==> |r.value.1| < |ts|
  {
    var (size, ts1) :- ParseSizeInParens(ts);
    var ts2 :- Consume(Skip(ts1), RightParen);
    Ok((size, ts2))
  }

  function ParseSizeInParens(ts: Input): (r: Parsed<SizeConstraint>)
    ensures r.Ok? ==> |r.value.1| < |ts|
  {
    if Peek(ts).Integer? then Ok(ReadUpperBound(AsU64(ts[0].i), Skip(ts[1..])))
    else if Peek(ts) == Token.Range then
      var ts1 := Skip(ts[1..]);
      if Peek(ts1).Integer? then Ok((MaxSize(AsU64(ts1[0].i)), ts1[1..]))
      else Err(ExpectedToken("integer for range maximum", Peek(ts1)))
    else Err(ExpectedToken("integer or range for size constraint", Peek(ts)))
  }

  function ReadUpperBound(min: u64, ts: Input): (r: (SizeConstraint, Input))
    ensures |r.1| <= |ts|
  {
    if Peek(ts) != Token.Range then (ExactSize(min), ts)
    else
      var ts1 := Skip(ts[1..]);
      if Peek(ts1).Integer? then (SizeRange(min, AsU64(ts1[0].i)), ts1[1..]) else (MinSize(min), ts1)
  }
}
