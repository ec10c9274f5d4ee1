/** Type expressions as crates/csilgen-core/src/formatter.rs prints them, seen as the tokens the
    printed text lexes to. Each function puts its tokens in front of `rest`. A float is taken to lex
    as a float. */
module TypePrinter {
  import opened Basics
  import opened Bytes
  import opened Ast
  import opened Tokens
  import opened AnnotationPrinter

  datatype FormatConfig = FormatConfig(indentSize: nat, trailingCommas: bool)

  function Spaces(n: nat, rest: Input): Input {
    if n == 0 then rest else [Whitespace(seq(n, _ => ' '))] + rest
  }

  function SocketToken(name: string): Token {
    if IsWordText(name) then Token.Socket("$" + name) else Other(name)
  }

  function PlugToken(name: string): Token {
    if IsWordText(name) then Token.Plug("$$" + name) else Other(name)
  }

  function PrintType(t: TypeExpression, indent: nat, cfg: FormatConfig, rest: Input): Input
    decreases t, 0
  {
    match t
    case Builtin(name) => PrintName(name, rest)
    case Reference(name) => PrintName(name, rest)
    case Array(element, _) => [LeftBracket] + PrintType(element, indent, cfg, [RightBracket] + rest)
    case Tuple(g) => [LeftBracket] + PrintMembers(g.entries, indent, cfg, [RightBracket] + rest)
    case Map(key, value, _) =>
      var behindKey := [SPACE] + ([Arrow] + ([SPACE] + PrintType(value, indent, cfg, [RightBrace] + rest)));
      [LeftBrace] + PrintType(key, indent, cfg, behindKey)
    case Group(g) => PrintGroup(g, indent, cfg, rest)
    case Choice(arms) => PrintArms(arms, indent, cfg, rest)
    case Range(start, end, _) => PrintRange(start, end, rest)
    case Socket(name) => [SocketToken(name)] + rest
    case Plug(name) => [PlugToken(name)] + rest
    case Literal(lit) => PrintLiteral(lit, rest)
    case Constrained(base, ops) => PrintType(base, indent, cfg, PrintControls(ops, cfg, rest))
  }

  /** Either bound may be missing. */
  function PrintRange(start: Option<i64>, end: Option<i64>, rest: Input): Input {
    (if start.Some? then [Token.Integer(start.value)] else [])
    + ([Token.Range] + ((if end.Some? then [Token.Integer(end.value)] else []) + rest))
  }

  function PrintArms(arms: seq<TypeExpression>, indent: nat, cfg: FormatConfig, rest: Input): Input
    decreases arms, 1
  {
    if arms == [] then rest else PrintType(arms[0], indent, cfg, PrintMoreArms(arms[1..], indent, cfg, rest))
  }

  function PrintMoreArms(arms: seq<TypeExpression>, indent: nat, cfg: FormatConfig, rest: Input): Input
    decreases arms, 1
  {
    if arms == [] then rest
    else [SPACE] + ([Slash] + ([SPACE] + PrintType(arms[0], indent, cfg, PrintMoreArms(arms[1..], indent, cfg, rest))))
  }

  function PrintMembers(es: seq<GroupEntry>, indent: nat, cfg: FormatConfig, rest: Input): Input
    decreases es, 1
  {
    if es == [] then rest else PrintMember(es[0], indent, cfg, PrintMoreMembers(es[1..], indent, cfg, rest))
  }

  function PrintMoreMembers(es: seq<GroupEntry>, indent: nat, cfg: FormatConfig, rest: Input): Input
    decreases es, 1
  {
    if es == [] then rest
    else [Comma] + ([SPACE] + PrintMember(es[0], indent, cfg, PrintMoreMembers(es[1..], indent, cfg, rest)))
  }

  /** Only a bare key is printed, and no occurrence. */
  function PrintMember(e: GroupEntry, indent: nat, cfg: FormatConfig, rest: Input): Input
    decreases e, 0
  {
    var value := PrintType(e.valueType, indent, cfg, rest);
    match e.key
    case Some(Bare(name)) => PrintName(name, [Colon] + ([SPACE] + value))
    case _ => value
  }

  function PrintGroup(g: GroupExpression, indent: nat, cfg: FormatConfig, rest: Input): Input
    decreases g, 1
  {
    if g.entries == [] then [LeftBrace] + ([RightBrace] + rest)
    else
      var close := Spaces(indent, [RightBrace] + rest);
      [LeftBrace] + ([Newline] + PrintEntries(g.entries, indent + cfg.indentSize, cfg, close))
  }

  function PrintEntries(es: seq<GroupEntry>, indent: nat, cfg: FormatConfig, rest: Input): Input
    decreases es, 1
  {
    if es == [] then rest
    else Spaces(indent, PrintEntry(es[0], indent, cfg,
      PrintComma(|es| > 1 || cfg.trailingCommas, [Newline] + PrintEntries(es[1..], indent, cfg, rest))))
  }

  function PrintComma(comma: bool, rest: Input): Input {
    if comma then [Comma] + rest else rest
  }

  /** The occurrence is printed behind a key, and only there; documentation is not printed. */
  function PrintEntry(e: GroupEntry, indent: nat, cfg: FormatConfig, rest: Input): Input
    decreases e, 0
  {
    var value := PrintType(e.valueType, indent, cfg, PrintAnnotations(e.metadata, rest));
    match e.key
    case None => value
    case Some(key) => PrintKey(key, e.occurrence, indent, cfg, [Colon] + ([SPACE] + value))
  }

  function PrintKey(key: GroupKey, occurrence: Option<Occurrence>, indent: nat, cfg: FormatConfig, rest: Input): Input
    decreases key, 0
  {
    match key
    case Bare(name) => PrintWordKey(name, occurrence, rest)
    case LiteralKey(lit) => PrintLiteralKey(lit, occurrence, rest)
    case TypeKey(t) => [LeftParen] + PrintType(t, indent, cfg, [RightParen] + PrintOccurrence(occurrence, rest))
  }

  /** A number printed right behind a word becomes part of it. */
  function PrintWordKey(name: string, occurrence: Option<Occurrence>, rest: Input): Input {
    PrintName(name + Count(occurrence), PrintOccurrence(Uncounted(occurrence), rest))
  }

  function PrintLiteralKey(lit: LiteralValue, occurrence: Option<Occurrence>, rest: Input): Input {
    if SpelledLikeName(lit).Some? then PrintWordKey(SpelledLikeName(lit).value, occurrence, rest)
    else if lit.Integer? then [LongerInteger(lit.i, Count(occurrence))] + PrintOccurrence(Uncounted(occurrence), rest)
    else PrintLiteral(lit, PrintOccurrence(occurrence, rest))
  }

  /** The literals that are spelled like builtin names. */
  function SpelledLikeName(lit: LiteralValue): Option<string> {
    match lit
    case Bool(flag) => Some(if flag then "true" else "false")
    case Null => Some("null")
    case _ => None
  }

  /** The number an occurrence starts with. */
  function Count(occurrence: Option<Occurrence>): string {
    match occurrence
    case Some(Exact(n)) => Decimal(n)
    case Some(Between(Some(min), _)) => Decimal(min)
    case _ => ""
  }

  /** The occurrence behind that number. */
  function Uncounted(occurrence: Option<Occurrence>): Option<Occurrence> {
    match occurrence
    case Some(Exact(_)) => None
    case Some(Between(Some(_), max)) => Some(Between(None, max))
    case _ => occurrence
  }

  /** The number whose text is that of `i` with these digits behind it. */
  function Longer(i: int, digits: string): int
    decreases |digits|
  {
    if digits == "" then i
    else
      var d := digits[0] as int - '0' as int;
      Longer(if i < 0 then 10 * i - d else 10 * i + d, digits[1..])
  }

  function LongerInteger(i: i64, digits: string): Token {
    var n := Longer(i, digits);
    if -0x8000_0000_0000_0000 <= n < 0x8000_0000_0000_0000 then Token.Integer(n) else Other("integer out of range")
  }

  function PrintOccurrence(occurrence: Option<Occurrence>, rest: Input): Input {
    match occurrence
    case None => rest
    case Some(Optional) => [Token.Optional] + rest
    case Some(ZeroOrMore) => [Token.ZeroOrMore] + rest
    case Some(OneOrMore) => [Token.OneOrMore] + rest
    case Some(Exact(n)) => [Unsigned(n)] + rest
    case Some(Between(min, max)) =>
      (if min.Some? then [Unsigned(min.value)] else []) + ([Token.ZeroOrMore]
        + ((if max.Some? then [Unsigned(max.value)] else []) + rest))
  }

  // ---- control operators ----------------------------------------------------------------

  function PrintControls(ops: seq<ControlOperator>, cfg: FormatConfig, rest: Input): Input
    decreases ops, 1
  {
    if ops == [] then rest else [SPACE] + PrintControl(ops[0], cfg, PrintControls(ops[1..], cfg, rest))
  }

  function PrintControl(op: ControlOperator, cfg: FormatConfig, rest: Input): Input
    decreases op, 0
  {
    match op
    case WithLiteral(op, value) => [LiteralControl(op)] + ([SPACE] + PrintLiteral(value, rest))
    case Plain(plain) => [PlainControl(plain)] + rest
    case Regex(pattern) => [RegexControl] + ([SPACE] + ([Quoted(pattern)] + rest))
    case Size(size) => [SizeControl] + ([SPACE] + PrintSize(size, rest))
    case Bits(expression) => [BitsControl] + ([SPACE] + PrintName(expression, rest))
    case And(operand) => [AndControl] + ([SPACE] + PrintType(operand, 0, cfg, rest))
    case Within(operand) => [WithinControl] + ([SPACE] + PrintType(operand, 0, cfg, rest))
  }

  function PrintSize(size: SizeConstraint, rest: Input): Input {
    match size
    case ExactSize(n) => [Unsigned(n)] + rest
    case SizeRange(min, max) =>
      [LeftParen] + ([Unsigned(min)] + ([Token.Range] + ([Unsigned(max)] + ([RightParen] + rest))))
    case MinSize(min) => [LeftParen] + ([Unsigned(min)] + ([Token.Range] + ([RightParen] + rest)))
    case MaxSize(max) => [LeftParen] + ([Token.Range] + ([Unsigned(max)] + ([RightParen] + rest)))
  }

  // ---- what comes back ----------------------------------------------------------------------------------

  /** A dotted name all of whose parts lex as identifiers. */
  predicate IsDottedName(name: string) {
    var k := FirstDot(name);
    IsName(name[..k]) && AreParts(name[k..])
  }

  /** No part behind a dot spells a control operator either. */
  predicate AreParts(parts: string)
    requires parts != "" ==> parts[0] == '.'
    decreases |parts|
  {
    parts != "" ==>
      IsName(FirstPart(parts)) && !SpellsOperator(FirstPart(parts)) && AreParts(MoreParts(parts))
  }

  /** An integer in front would be read as an occurrence, unless it is all there is. */
  predicate IntegerFirst(t: TypeExpression) {
    match t
    case Literal(lit) => lit.Integer?
    case Constrained(base, _) => IntegerFirst(base)
    case Choice(arms) => arms != [] && IntegerFirst(arms[0])
    case _ => false
  }

  /** The type expressions whose printed form says all there is to say. */
  predicate Faithful(t: TypeExpression)
    decreases t, 0
  {
    match t
    case Builtin(name) => name in BUILTINS
    case Reference(name) => IsDottedName(name)
    case Array(element, occurrence) =>
      occurrence.None? && Faithful(element) && (element.Literal? || !IntegerFirst(element))
    case Tuple(g) =>
      && !(|g.entries| == 1 && g.entries[0].key.None?)
      && forall e | e in g.entries :: FaithfulMember(e)
    case Map(key, value, occurrence) => occurrence.None? && Faithful(key) && Faithful(value) && !IntegerFirst(key)
    case Group(g) => forall e | e in g.entries :: FaithfulEntry(e)
    case Choice(arms) => |arms| >= 2 && FaithfulArms(arms)
    case Range(_, _, _) => false
    case Socket(name) => IsWordText(name)
    case Plug(name) => IsWordText(name)
    case Literal(lit) => IsLiteralType(lit)
    case Constrained(base, ops) =>
      && Faithful(base) && !base.Choice? && !base.Constrained?
      && ops != [] && FaithfulControls(ops)
  }

  /** The literals that stand as types of their own. */
  predicate IsLiteralType(lit: LiteralValue) {
    lit.Integer? || lit.ByteString? || (lit.Text? && IsPlainText(lit.s))
  }

  /** An arm whose last operator takes a type would take the arms behind it too. */
  predicate FaithfulArms(arms: seq<TypeExpression>)
    decreases arms, 1
  {
    arms != [] ==>
      && Faithful(arms[0]) && !arms[0].Choice? && (|arms| > 1 ==> !OpenEnded(arms[0]))
      && FaithfulArms(arms[1..])
  }

  predicate OpenEnded(t: TypeExpression) {
    t.Constrained? && t.constraints != [] && TakesType(t.constraints[|t.constraints| - 1])
  }

  predicate TakesType(op: ControlOperator) {
    op.And? || op.Within?
  }

  predicate FaithfulMember(e: GroupEntry)
    decreases e, 0
  {
    && Faithful(e.valueType) && e.occurrence.None? && e.metadata == [] && e.docComments == []
    && match e.key
       case None => e.valueType.Literal? || !IntegerFirst(e.valueType)
       case Some(Bare(name)) => IsKeyName(name)
       case _ => false
  }

  predicate FaithfulEntry(e: GroupEntry)
    decreases e, 0
  {
    && Faithful(e.valueType) && (forall a | a in e.metadata :: FaithfulAnnotation(a)) && e.docComments == []
    && match e.key
       case None => e.occurrence.None?
       case Some(Bare(name)) => IsKeyName(name) && (e.occurrence.None? || e.occurrence == Some(Occurrence.Optional))
       case Some(LiteralKey(lit)) => IsLiteralType(lit) && !lit.ByteString? && e.occurrence.None?
       case Some(TypeKey(_)) => false
  }

  /** An entry that is read: it is faithful but for annotations that are read as others. */
  predicate ReadableEntry(e: GroupEntry) {
    FaithfulEntry(e.(metadata := [])) && forall a | a in e.metadata :: LexesAnnotation(a) && ReadableAnnotation(a)
  }

  function ReadEntry(e: GroupEntry): GroupEntry {
    e.(metadata := ReadAnnotations(e.metadata))
  }

  function ReadEntries(es: seq<GroupEntry>): (r: seq<GroupEntry>)
    ensures |r| == |es|
  {
    if es == [] then [] else [ReadEntry(es[0])] + ReadEntries(es[1..])
  }

  /** An operator that takes a type takes the operators behind it too, so it comes last. */
  predicate FaithfulControls(ops: seq<ControlOperator>)
    decreases ops, 1
  {
    ops != [] ==>
      && FaithfulControl(ops[0]) && (|ops| > 1 ==> !TakesType(ops[0]))
      && FaithfulControls(ops[1..])
  }

  predicate FaithfulControl(op: ControlOperator)
    decreases op, 0
  {
    match op
    case WithLiteral(_, value) => FaithfulLiteral(value)
    case Plain(_) => true
    case Regex(pattern) => IsPlainText(pattern)
    case Size(size) => FaithfulSize(size)
    case Bits(expression) => IsName(expression)
    case And(operand) => Faithful(operand)
    case Within(operand) => Faithful(operand)
  }

  predicate FaithfulSize(size: SizeConstraint) {
    match size
    case ExactSize(n) => Unsigned(n).Integer?
    case SizeRange(min, max) => Unsigned(min).Integer? && Unsigned(max).Integer?
    case MinSize(min) => Unsigned(min).Integer?
    case MaxSize(max) => Unsigned(max).Integer?
  }
}
