/** Field annotations and the literals in them, as crates/csilgen-core/src/parser.rs reads them. */
module AnnotationParser {
  import opened Bytes
  import opened Ast
  import opened Tokens

  type Parsed<+T> = Result<(T, Input), ParseError>

  // ---- literals ----------------------------------------------------------------------------------------

  function ParseLiteral(ts: Input): (r: Parsed<LiteralValue>)
    ensures r.Ok? ==> |r.value.1| < |ts|
    decreases |ts|, 0
  {
    var t := Peek(ts);
    if t.Integer? then Ok((LiteralValue.Integer(t.i), ts[1..]))
    else if t.Float? then Ok((LiteralValue.Float(t.bits), ts[1..]))
    else if t.TextString? then Ok((Text(t.s), ts[1..]))
    else if t.ByteString? then Ok((LiteralValue.ByteString(t.b), ts[1..]))
    else if t == Token.Builtin("true") then Ok((Bool(true), ts[1..]))
    else if t == Token.Builtin("false") then Ok((Bool(false), ts[1..]))
    else if t == Token.Builtin("null") then Ok((Null, ts[1..]))
    else if t == LeftBracket then
      var (elements, ts1) :- ParseElements(Skip(ts[1..]));
      var ts2 :- Consume(ts1, RightBracket);
      Ok((List(elements), ts2))
    else Err(ExpectedToken("literal value", t))
  }

  /** Ends at the bracket, or behind the first element without a comma. */
  function ParseElements(ts: Input): (r: Parsed<seq<LiteralValue>>)
    ensures r.Ok? ==> |r.value.1| <= |ts|
    decreases |ts|, 1
  {
    if Peek(ts) == RightBracket || Peek(ts) == Eof then Ok(([], ts))
    else
      var (element, ts1) :- ParseLiteral(ts);
      var ts2 := Skip(ts1);
      if Peek(ts2) == Comma then
        var (more, ts3) :- ParseElements(Skip(ts2[1..]));
        Ok(([element] + more, ts3))
      else Ok(([element], ts2))
  }

  // ---- annotations -------------------------------------------------------------------------------------

  function ParseAnnotations(ts: Input): (r: Parsed<seq<Annotation>>)
    ensures r.Ok? ==> |r.value.1| <= |ts|
    decreases |ts|
  {
    if !Peek(ts).At? then Ok(([], ts))
    else
      var (a, ts1) :- ParseAnnotation(ts);
      var (more, ts2) :- ParseAnnotations(Skip(ts1));
      Ok(([a] + more, ts2))
  }

  function ParseAnnotation(ts: Input): (r: Parsed<Annotation>)
    requires Peek(ts).At?
    ensures r.Ok? ==> |r.value.1| < |ts|
  {
    match ts[0].at
    case AtVisibility(visibility) => Ok((Shown(visibility), ts[1..]))
    case AtDependsOn => ParseDependsOn(Skip(ts[1..]))
    case AtDescription => ParseDescription(Skip(ts[1..]))
    case AtSizeBound(bound) => ParseSizeBound(bound, Skip(ts[1..]))
    case AtValueLimit(limit) => ParseValueLimit(limit, Skip(ts[1..]))
    case AtCustom(name) => ParseCustom(name, ts[1..])
  }

  /** What stands in parentheses must be all there is in them. */
  function CloseParen<T>(item: T, ts: Input): (r: Parsed<T>)
    ensures r.Ok? ==> |r.value.1| < |ts|
  {
    var ts1 :- Consume(Skip(ts), RightParen);
    Ok((item, ts1))
  }

  function ParseDependsOn(ts: Input): (r: Parsed<Annotation>)
    ensures r.Ok? ==> |r.value.1| < |ts|
  {
    if Peek(ts) != LeftParen then Err(MetadataError(Peek(ts)))
    else
      var (condition, ts1) :- ParseCondition(Skip(ts[1..]));
      CloseParen(Simplest(condition), ts1)
  }

  /** A lone field, or a field and `=`, is the simple form. */
  function Simplest(c: Condition): Annotation {
    if c.Compare? && (c.op == None || c.op == Some(Eq)) then DependsOn(c.field, c.value) else DependsOnExpr(c)
  }

  function ParseDescription(ts: Input): (r: Parsed<Annotation>)
    ensures r.Ok? ==> |r.value.1| < |ts|
  {
    if Peek(ts) != LeftParen then Err(ExpectedToken("(", Peek(ts)))
    else
      var ts1 := Skip(ts[1..]);
      if Peek(ts1).TextString? then CloseParen(Description(ts1[0].s), ts1[1..])
      else Err(ExpectedToken("string literal", Peek(ts1)))
  }

  function ParseSizeBound(bound: SizeBound, ts: Input): (r: Parsed<Annotation>)
    ensures r.Ok? ==> |r.value.1| < |ts|
  {
    if Peek(ts) != LeftParen then Err(ExpectedToken("(", Peek(ts)))
    else
      var ts1 := Skip(ts[1..]);
      if Peek(ts1).Integer? && ts1[0].i >= 0 then CloseParen(Bounded(bound, ts1[0].i), ts1[1..])
      else Err(ExpectedToken("positive integer", Peek(ts1)))
  }

  function ParseValueLimit(limit: ValueLimit, ts: Input): (r: Parsed<Annotation>)
    ensures r.Ok? ==> |r.value.1| < |ts|
  {
    if Peek(ts) != LeftParen then Err(ExpectedToken("(", Peek(ts)))
    else
      var (value, ts1) :- ParseLiteral(Skip(ts[1..]));
      CloseParen(Limited(limit, value), ts1)
  }

  // ---- conditions ----------------------------------------------------------------------------------------

  /** Terms with `|` between them; a term alone stands for itself. */
  function ParseCondition(ts: Input): (r: Parsed<Condition>)
    ensures r.Ok? ==> |r.value.1| < |ts|
  {
    var (first, ts1) :- ParseConjunction(ts);
    var (more, ts2) :- ParseMoreConjunctions(ts1);
    Ok((Disjunction([first] + more), ts2))
  }

  function Disjunction(terms: seq<Condition>): Condition
    requires terms != []
  {
    if |terms| == 1 then terms[0] else Any(terms)
  }

  function ParseMoreConjunctions(ts: Input): (r: Parsed<seq<Condition>>)
    ensures r.Ok? ==> |r.value.1| <= |ts|
    decreases |ts|
  {
    var ts1 := Skip(ts);
    if Peek(ts1) != Pipe then Ok(([], ts1))
    else
      var (term, ts2) :- ParseConjunction(Skip(ts1[1..]));
      var (more, ts3) :- ParseMoreConjunctions(ts2);
      Ok(([term] + more, ts3))
  }

  /** Comparisons with `&` between them. */
  function ParseConjunction(ts: Input): (r: Parsed<Condition>)
    ensures r.Ok? ==> |r.value.1| < |ts|
  {
    var (first, ts1) :- ParseComparison(ts);
    var (more, ts2) :- ParseMoreComparisons(ts1);
    Ok((Conjunction([first] + more), ts2))
  }

  function Conjunction(terms: seq<Condition>): Condition
    requires terms != []
  {
    if |terms| == 1 then terms[0] else All(terms)
  }

  function ParseMoreComparisons(ts: Input): (r: Parsed<seq<Condition>>)
    ensures r.Ok? ==> |r.value.1| <= |ts|
    decreases |ts|
  {
    var ts1 := Skip(ts);
    if Peek(ts1) != Ampersand then Ok(([], ts1))
    else
      var (term, ts2) :- ParseComparison(Skip(ts1[1..]));
      var (more, ts3) :- ParseMoreComparisons(ts2);
      Ok(([term] + more, ts3))
  }

  /** A field path, with or without an operator and a value. */
  function ParseComparison(ts: Input): (r: Parsed<Condition>)
    ensures r.Ok? ==> |r.value.1| < |ts|
  {
    var (first, ts1) :- ParseFieldName(ts);
    var (field, ts2) :- ParsePath(first, ts1);
    var ts3 := Skip(ts2);
    if Peek(ts3).Comparison? then
      var (value, ts4) :- ParseLiteral(Skip(ts3[1..]));
      Ok((Compare(field, Some(ts3[0].comparison), Some(value)), ts4))
    else Ok((Compare(field, None, None), ts3))
  }

  function ParseFieldName(ts: Input): (r: Parsed<string>)
    ensures r.Ok? ==> |r.value.1| < |ts|
  {
    if Peek(ts).Identifier? || Peek(ts).Builtin? then Ok((ts[0].name, ts[1..])) else Err(MetadataError(Peek(ts)))
  }

  /** The parts behind a path's first. */
  function ParsePath(path: string, ts: Input): (r: Parsed<string>)
    ensures r.Ok? ==> |r.value.1| <= |ts|
    decreases |ts|
  {
    if Peek(ts) != Dot then Ok((path, ts))
    else
      var (part, ts1) :- ParseFieldName(Skip(ts[1..]));
      ParsePath(path + "." + part, ts1)
  }

  // ---- custom annotations --------------------------------------------------------------------------------

  function ParseCustom(name: string, ts: Input): (r: Parsed<Annotation>)
    ensures r.Ok? ==> |r.value.1| <= |ts|
  {
    if Peek(ts) != LeftParen then Ok((Custom(name, []), ts))
    else
      var (parameters, ts1) :- ParseParameters(Skip(ts[1..]));
      var ts2 :- Consume(ts1, RightParen);
      Ok((Custom(name, parameters), ts2))
  }

  function ParseParameters(ts: Input): (r: Parsed<seq<Parameter>>)
    ensures r.Ok? ==> |r.value.1| <= |ts|
    decreases |ts|
  {
    if Peek(ts) == RightParen || Peek(ts) == Eof then Ok(([], ts))
    else
      var (parameter, ts1) :- ParseParameter(ts);
      var ts2 := Skip(ts1);
      if Peek(ts2) == Comma then
        var (more, ts3) :- ParseParameters(Skip(ts2[1..]));
        Ok(([parameter] + more, ts3))
      else if Peek(ts2) == RightParen then Ok(([parameter], ts2))
      else Err(ExpectedToken("comma or )", Peek(ts2)))
  }

  function ParseParameter(ts: Input): (r: Parsed<Parameter>)
    ensures r.Ok? ==> |r.value.1| < |ts|
  {
    if NamedAhead(ts) then
      var ts1 :- Consume(Skip(ts[1..]), Comparison(Eq));
      var (value, ts2) :- ParseLiteral(Skip(ts1));
      Ok((Parameter(Some(ts[0].name), value), ts2))
    else
      var (value, ts1) :- ParseLiteral(ts);
      Ok((Parameter(None, value), ts1))
  }

  /** Whether a name and `=` come next, with only white space between. */
  predicate NamedAhead(ts: Input) {
    Peek(ts).Identifier? && AssignAhead(ts[1..])
  }

  predicate AssignAhead(ts: Input) {
    ts != [] && if ts[0].Whitespace? || ts[0] == Newline then AssignAhead(ts[1..]) else ts[0] == Comparison(Eq)
  }
}
