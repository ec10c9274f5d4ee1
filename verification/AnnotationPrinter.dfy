/** Names, literals and field annotations as crates/csilgen-core/src/formatter.rs prints them, seen as
    the tokens the printed text lexes to. Each function puts its tokens in front of `rest`. A float is
    taken to lex as a float. */
module AnnotationPrinter {
  import opened Bytes
  import opened Ast
  import opened Tokens

  const SPACE := Whitespace(" ")

  // ---- names and literals ----------------------------------------------------------------------------

  /** Where a name's first part ends. */
  function FirstDot(name: string): (k: nat)
    ensures k <= |name| && '.' !in name[..k] && (k < |name| ==> name[k] == '.')
  {
    if name == [] || name[0] == '.' then 0 else 1 + FirstDot(name[1..])
  }

  function PrintName(name: string, rest: Input): Input {
    var k := FirstDot(name);
    [Word(name[..k])] + PrintParts(name[k..], rest)
  }

  /** What stands behind a name's first part; a part that spells a control operator lexes as one. */
  function PrintParts(parts: string, rest: Input): Input
    requires parts != "" ==> parts[0] == '.'
    decreases |parts|
  {
    if parts == "" then rest
    else
      var (part, behind) := (FirstPart(parts), PrintParts(MoreParts(parts), rest));
      if SpellsOperator(part) then [Operator(part)] + behind else [Dot] + ([Word(part)] + behind)
  }

  function FirstPart(parts: string): string
    requires parts != "" && parts[0] == '.'
  {
    parts[1..1 + FirstDot(parts[1..])]
  }

  function MoreParts(parts: string): (more: string)
    requires parts != "" && parts[0] == '.'
    ensures |more| < |parts| && (more != "" ==> more[0] == '.')
    ensures parts == "." + FirstPart(parts) + more
  {
    parts[1 + FirstDot(parts[1..])..]
  }

  /** The lexer reads signed 64-bit integers; a larger number is no integer to it. */
  function Unsigned(n: u64): Token {
    if n < 0x8000_0000_0000_0000 then Token.Integer(n) else Other("integer out of range")
  }

  function PrintLiteral(lit: LiteralValue, rest: Input): Input
    decreases lit, 0
  {
    match lit
    case Integer(i) => [Token.Integer(i)] + rest
    case Float(bits) => [Token.Float(bits)] + rest
    case Text(s) => [Quoted(s)] + rest
    case ByteString(b) => [Token.ByteString(b)] + rest
    case Bool(flag) => [Token.Builtin(if flag then "true" else "false")] + rest
    case Null => [Token.Builtin("null")] + rest
    case List(elements) => [LeftBracket] + PrintElements(elements, [RightBracket] + rest)
  }

  function PrintElements(elements: seq<LiteralValue>, rest: Input): Input
    decreases elements, 1
  {
    if elements == [] then rest else PrintLiteral(elements[0], PrintMoreElements(elements[1..], rest))
  }

  function PrintMoreElements(elements: seq<LiteralValue>, rest: Input): Input
    decreases elements, 1
  {
    if elements == [] then rest
    else [Comma] + ([SPACE] + PrintLiteral(elements[0], PrintMoreElements(elements[1..], rest)))
  }

  // ---- annotations -------------------------------------------------------------------------------------

  function PrintAnnotations(metadata: seq<Annotation>, rest: Input): Input {
    if metadata == [] then rest else [SPACE] + PrintAnnotation(metadata[0], PrintAnnotations(metadata[1..], rest))
  }

  /** The value of a simple `@depends-on` is printed behind its closing parenthesis. */
  function PrintAnnotation(a: Annotation, rest: Input): Input {
    match a
    case Shown(visibility) => [At(AtVisibility(visibility))] + rest
    case DependsOn(field, value) =>
      InParens(At(AtDependsOn), PrintName(field, [RightParen] + PrintOperand(Some(Eq), value, rest)))
    case DependsOnExpr(condition) => InParens(At(AtDependsOn), PrintCondition(condition, [RightParen] + rest))
    case Bounded(bound, n) => InParens(At(AtSizeBound(bound)), [Unsigned(n)] + ([RightParen] + rest))
    case Limited(limit, value) => InParens(At(AtValueLimit(limit)), PrintLiteral(value, [RightParen] + rest))
    case Restricted(name, value) => InParens(AtWord(name), PrintLiteral(value, [RightParen] + rest))
    case Description(text) => InParens(At(AtDescription), [Quoted(text)] + ([RightParen] + rest))
    case Custom(name, parameters) => InParens(AtWord(name), PrintParameters(parameters, [RightParen] + rest))
  }

  /** `inner` holds the closing parenthesis too. */
  function InParens(at: Token, inner: Input): Input {
    [at] + ([LeftParen] + inner)
  }

  /** An operator and its value, if there are both. */
  function PrintOperand(op: Option<CompareOp>, value: Option<LiteralValue>, rest: Input): Input {
    if op.None? || value.None? then rest
    else [SPACE] + ([Comparison(op.value)] + ([SPACE] + PrintLiteral(value.value, rest)))
  }

  /** No parentheses stand around the terms of a term. */
  function PrintCondition(c: Condition, rest: Input): Input
    decreases c, 0
  {
    match c
    case Compare(field, op, value) => PrintName(field, PrintOperand(op, value, rest))
    case All(terms) => PrintTerms(terms, Ampersand, rest)
    case Any(terms) => PrintTerms(terms, Pipe, rest)
  }

  function PrintTerms(terms: seq<Condition>, mark: Token, rest: Input): Input
    decreases terms, 1
  {
    if terms == [] then rest else PrintCondition(terms[0], PrintMoreTerms(terms[1..], mark, rest))
  }

  function PrintMoreTerms(terms: seq<Condition>, mark: Token, rest: Input): Input
    decreases terms, 1
  {
    if terms == [] then rest
    else [SPACE] + ([mark] + ([SPACE] + PrintCondition(terms[0], PrintMoreTerms(terms[1..], mark, rest))))
  }

  function PrintParameters(ps: seq<Parameter>, rest: Input): Input {
    if ps == [] then rest else PrintParameter(ps[0], PrintMoreParameters(ps[1..], rest))
  }

  function PrintMoreParameters(ps: seq<Parameter>, rest: Input): Input {
    if ps == [] then rest else [Comma] + ([SPACE] + PrintParameter(ps[0], PrintMoreParameters(ps[1..], rest)))
  }

  function PrintParameter(p: Parameter, rest: Input): Input {
    var value := PrintLiteral(p.value, rest);
    if p.name.None? then value
    else PrintName(p.name.value, [SPACE] + ([Comparison(Eq)] + ([SPACE] + value)))
  }

  // ---- what lexes as it is meant ----------------------------------------------------------------------

  /** Text of words and dots. */
  predicate IsPathText(s: string) {
    forall c | c in s :: IsLetter(c) || IsDigit(c) || c == '-' || c == '.'
  }

  /** The name of a custom annotation. */
  predicate IsCustomName(name: string) {
    IsWordText(name) && name !in ANNOTATIONS
  }

  /** No text in the literal ends early, and it holds no float. */
  predicate LexesLiteral(lit: LiteralValue) {
    match lit
    case Float(_) => false
    case Text(s) => Unescaped(s).Some?
    case List(elements) => forall e | e in elements :: LexesLiteral(e)
    case _ => true
  }

  predicate LexesOperand(value: Option<LiteralValue>) {
    value.Some? ==> LexesLiteral(value.value)
  }

  predicate LexesCondition(c: Condition) {
    match c
    case Compare(field, _, value) => IsPathText(field) && LexesOperand(value)
    case All(terms) => forall t | t in terms :: LexesCondition(t)
    case Any(terms) => forall t | t in terms :: LexesCondition(t)
  }

  predicate LexesAnnotation(a: Annotation) {
    match a
    case Shown(_) => true
    case DependsOn(field, value) => IsPathText(field) && LexesOperand(value)
    case DependsOnExpr(condition) => LexesCondition(condition)
    case Bounded(_, _) => true
    case Limited(_, value) => LexesLiteral(value)
    case Restricted(name, value) => IsCustomName(name) && LexesLiteral(value)
    case Description(text) => Unescaped(text).Some?
    case Custom(name, parameters) => IsCustomName(name) && forall p | p in parameters :: LexesParameter(p)
  }

  predicate LexesParameter(p: Parameter) {
    (p.name.Some? ==> IsPathText(p.name.value)) && LexesLiteral(p.value)
  }

  // ---- what is read -------------------------------------------------------------------------------------

  /** A key may also be spelled like a builtin. */
  predicate IsKeyName(name: string) {
    !Word(name).Other?
  }

  /** A field path: names with dots between them, none behind a dot that spells a control operator. */
  predicate IsFieldPath(path: string) {
    var k := FirstDot(path);
    IsKeyName(path[..k]) && AreFieldNames(path[k..])
  }

  predicate AreFieldNames(parts: string)
    requires parts != "" ==> parts[0] == '.'
    decreases |parts|
  {
    parts != "" ==>
      IsKeyName(FirstPart(parts)) && !SpellsOperator(FirstPart(parts)) && AreFieldNames(MoreParts(parts))
  }

  /** A literal with its texts as they lex. */
  function ReadLiteral(lit: LiteralValue): LiteralValue
    decreases lit, 0
  {
    match lit
    case Text(s) => if Unescaped(s).Some? then Text(Unescaped(s).value) else lit
    case List(elements) => List(ReadElements(elements))
    case _ => lit
  }

  function ReadElements(elements: seq<LiteralValue>): (r: seq<LiteralValue>)
    ensures |r| == |elements|
    decreases elements, 1
  {
    if elements == [] then [] else [ReadLiteral(elements[0])] + ReadElements(elements[1..])
  }

  /** A text that lexes as itself. */
  predicate IsPlainText(s: string) {
    Unescaped(s) == Some(s)
  }

  /** The literals that come back. */
  predicate FaithfulLiteral(lit: LiteralValue) {
    match lit
    case Float(_) => false
    case Text(s) => IsPlainText(s)
    case List(elements) => forall e | e in elements :: FaithfulLiteral(e)
    case _ => true
  }

  // Without parentheses the terms of a condition are the comparisons between the `|`, and those between
  // the `&`. A term without terms prints as nothing.

  predicate IsAtom(c: Condition) {
    c.Compare? || c.terms == []
  }

  predicate NonEmpty(terms: seq<seq<Condition>>) {
    forall i :: 0 <= i < |terms| ==> |terms[i]| > 0
  }

  /** What stands between the `|`, and between the `&` in that. */
  function Terms(c: Condition): (r: seq<seq<Condition>>)
    ensures r != [] && NonEmpty(r)
    decreases c, 0
  {
    if IsAtom(c) then [[c]] else if c.Any? then TermsOfAny(c.terms) else TermsOfAll(c.terms)
  }

  function TermsOfAny(terms: seq<Condition>): (r: seq<seq<Condition>>)
    requires terms != []
    ensures r != [] && NonEmpty(r)
    decreases terms, 1
  {
    Terms(terms[0]) + if |terms| == 1 then [] else TermsOfAny(terms[1..])
  }

  function TermsOfAll(terms: seq<Condition>): (r: seq<seq<Condition>>)
    requires terms != []
    ensures r != [] && NonEmpty(r)
    decreases terms, 1
  {
    if |terms| == 1 then Terms(terms[0]) else Glued(Terms(terms[0]), TermsOfAll(terms[1..]))
  }

  /** The last terms of `a` and the first ones of `b` are together. */
  function Glued(a: seq<seq<Condition>>, b: seq<seq<Condition>>): (r: seq<seq<Condition>>)
    requires a != [] && b != [] && NonEmpty(a) && NonEmpty(b)
    ensures r != [] && NonEmpty(r)
  {
    a[..|a| - 1] + [a[|a| - 1] + b[0]] + b[1..]
  }

  function ReadCondition(c: Condition): Condition {
    Disjoined(Terms(c))
  }

  function Disjoined(terms: seq<seq<Condition>>): Condition
    requires terms != [] && NonEmpty(terms)
  {
    if |terms| == 1 then Conjoined(terms[0]) else Any(AllConjoined(terms))
  }

  function AllConjoined(terms: seq<seq<Condition>>): (r: seq<Condition>)
    requires NonEmpty(terms)
    ensures |r| == |terms|
  {
    if terms == [] then [] else [Conjoined(terms[0])] + AllConjoined(terms[1..])
  }

  function Conjoined(atoms: seq<Condition>): Condition
    requires atoms != []
  {
    if |atoms| == 1 then ReadAtom(atoms[0]) else All(ReadAtoms(atoms))
  }

  function ReadAtoms(atoms: seq<Condition>): (r: seq<Condition>)
    ensures |r| == |atoms|
  {
    if atoms == [] then [] else [ReadAtom(atoms[0])] + ReadAtoms(atoms[1..])
  }

  /** An operator without a value is not printed, nor a value without an operator. */
  function ReadAtom(c: Condition): Condition {
    if !c.Compare? then c
    else if c.op.None? || c.value.None? then Compare(c.field, None, None)
    else Compare(c.field, c.op, Some(ReadLiteral(c.value.value)))
  }

  /** A condition is read unless a comparison in it is missing or has no field path. */
  predicate ReadableCondition(c: Condition) {
    AllReadable(Terms(c))
  }

  predicate AllReadable(terms: seq<seq<Condition>>) {
    forall i :: 0 <= i < |terms| ==> AreReadable(terms[i])
  }

  predicate AreReadable(atoms: seq<Condition>) {
    forall c | c in atoms :: ReadableAtom(c)
  }

  predicate ReadableAtom(c: Condition) {
    c.Compare? && IsFieldPath(c.field)
  }

  predicate ReadableAnnotation(a: Annotation) {
    match a
    case DependsOn(field, value) => IsFieldPath(field) && value.None?
    case DependsOnExpr(condition) => ReadableCondition(condition)
    case Bounded(_, n) => Unsigned(n).Integer?
    case Custom(_, parameters) => forall p | p in parameters :: ReadableParameter(p)
    case _ => true
  }

  predicate ReadableParameter(p: Parameter) {
    p.name.Some? ==> IsName(p.name.value)
  }

  /** What a readable annotation is read as. */
  function ReadAnnotation(a: Annotation): Annotation {
    match a
    case DependsOnExpr(condition) =>
      var c := ReadCondition(condition);
      if c.Compare? && (c.op == None || c.op == Some(Eq)) then DependsOn(c.field, c.value) else DependsOnExpr(c)
    case Limited(limit, value) => Limited(limit, ReadLiteral(value))
    case Restricted(name, value) => Custom(name, [Parameter(None, ReadLiteral(value))])
    case Description(text) => if Unescaped(text).Some? then Description(Unescaped(text).value) else a
    case Custom(name, parameters) => Custom(name, ReadParameters(parameters))
    case _ => a
  }

  function ReadParameters(ps: seq<Parameter>): (r: seq<Parameter>)
    ensures |r| == |ps|
  {
    if ps == [] then [] else [Parameter(ps[0].name, ReadLiteral(ps[0].value))] + ReadParameters(ps[1..])
  }

  function ReadAnnotations(metadata: seq<Annotation>): (r: seq<Annotation>)
    ensures |r| == |metadata|
  {
    if metadata == [] then [] else [ReadAnnotation(metadata[0])] + ReadAnnotations(metadata[1..])
  }

  // ---- what comes back -----------------------------------------------------------------------------------

  predicate FaithfulAnnotation(a: Annotation) {
    match a
    case Shown(_) => true
    case DependsOn(field, value) => IsFieldPath(field) && value.None?
    case DependsOnExpr(c) => FaithfulCondition(c) && !(c.Compare? && (c.op == None || c.op == Some(Eq)))
    case Bounded(_, n) => Unsigned(n).Integer?
    case Limited(_, value) => FaithfulLiteral(value)
    case Restricted(_, _) => false
    case Description(text) => IsPlainText(text)
    case Custom(name, parameters) => IsCustomName(name) && forall p | p in parameters :: FaithfulParameter(p)
  }

  predicate FaithfulParameter(p: Parameter) {
    (p.name.Some? ==> IsName(p.name.value)) && FaithfulLiteral(p.value)
  }

  /** Only `Any` holds `All`, only `All` and `Any` hold comparisons, and never fewer than two. */
  predicate FaithfulCondition(c: Condition) {
    || FaithfulConjunction(c)
    || (c.Any? && |c.terms| >= 2 && forall t | t in c.terms :: FaithfulConjunction(t))
  }

  predicate FaithfulConjunction(c: Condition) {
    || FaithfulComparison(c)
    || (c.All? && |c.terms| >= 2 && forall t | t in c.terms :: FaithfulComparison(t))
  }

  predicate FaithfulComparison(c: Condition) {
    && c.Compare? && IsFieldPath(c.field)
    && (c.op.Some? <==> c.value.Some?) && (c.value.Some? ==> FaithfulLiteral(c.value.value))
  }
}
