/** The syntax tree of a CSIL specification (crates/csilgen-core/src/ast.rs). What every pass here
    copies unchanged (service bodies) is kept as text. */
module Ast {
  import opened Bytes

  datatype LiteralValue =
    | Integer(i: i64)
    | Float(bits: nat)
    | Text(s: string)
    | ByteString(b: seq<byte>)
    | Bool(flag: bool)
    | Null
    | List(elements: seq<LiteralValue>)

  datatype Occurrence =
    | Optional
    | ZeroOrMore
    | OneOrMore
    | Exact(n: u64)
    | Between(min: Option<u64>, max: Option<u64>)

  datatype TypeExpression =
    | Builtin(name: string)
    | Reference(name: string)
    | Array(element: TypeExpression, occurrence: Option<Occurrence>)
    | Tuple(group: GroupExpression)
    | Map(key: TypeExpression, value: TypeExpression, occurrence: Option<Occurrence>)
    | Group(group: GroupExpression)
    | Choice(arms: seq<TypeExpression>)
    | Range(start: Option<i64>, end: Option<i64>, inclusive: bool)
    | Socket(name: string)
    | Plug(name: string)
    | Literal(lit: LiteralValue)
    | Constrained(base: TypeExpression, constraints: seq<ControlOperator>)

  datatype ControlOperator =
    | WithLiteral(op: LiteralOp, value: LiteralValue)
    | Plain(plain: PlainOp)
    | Regex(pattern: string)
    | Size(size: SizeConstraint)
    | Bits(expression: string)
    | And(operand: TypeExpression)
    | Within(operand: TypeExpression)

  datatype LiteralOp = Default | GreaterEqual | LessEqual | GreaterThan | LessThan | Equal | NotEqual

  datatype PlainOp = Json | Cbor | Cborseq

  datatype SizeConstraint = ExactSize(n: u64) | SizeRange(min: u64, max: u64) | MinSize(min: u64) | MaxSize(max: u64)

  datatype GroupExpression = GroupExpression(entries: seq<GroupEntry>)

  datatype GroupEntry = GroupEntry(
    key: Option<GroupKey>,
    valueType: TypeExpression,
    occurrence: Option<Occurrence>,
    metadata: seq<Annotation>,
    docComments: seq<string>)

  /** A field annotation; `Restricted` is the custom validation constraint. */
  datatype Annotation =
    | Shown(visibility: Visibility)
    | DependsOn(field: string, value: Option<LiteralValue>)
    | DependsOnExpr(condition: Condition)
    | Bounded(bound: SizeBound, n: u64)
    | Limited(limit: ValueLimit, operand: LiteralValue)
    | Restricted(name: string, operand: LiteralValue)
    | Description(text: string)
    | Custom(name: string, parameters: seq<Parameter>)

  datatype Visibility = SendOnly | ReceiveOnly | Bidirectional

  datatype SizeBound = MinLength | MaxLength | MinItems | MaxItems

  datatype ValueLimit = MinValue | MaxValue

  datatype Parameter = Parameter(name: Option<string>, value: LiteralValue)

  /** A condition of `@depends-on`; a comparison without operator tests presence. */
  datatype Condition =
    | Compare(field: string, op: Option<CompareOp>, value: Option<LiteralValue>)
    | All(terms: seq<Condition>)
    | Any(terms: seq<Condition>)

  datatype CompareOp = Eq | Ne | Lt | Le | Gt | Ge

  datatype GroupKey = Bare(name: string) | TypeKey(typ: TypeExpression) | LiteralKey(lit: LiteralValue)

  datatype RuleType =
    | TypeDef(typ: TypeExpression)
    | GroupDef(group: GroupExpression)
    | TypeChoice(arms: seq<TypeExpression>)
    | GroupChoice(groups: seq<GroupExpression>)
    | ServiceDef(service: string)

  datatype Rule = Rule(name: string, ruleType: RuleType, position: nat, docComments: seq<string>)
}
