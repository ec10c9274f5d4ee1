/** The two wire shapes of a choice: crates/csilgen-common/src/choice.rs. */
module ChoiceShape {
  import opened Bytes
  import opened Ast

  /** The literal a choice arm carries, seen through control operators. */
  function ArmLiteral(t: TypeExpression): Option<LiteralValue> {
    match t
    case Literal(lit) => Some(lit)
    case Constrained(base, _) => ArmLiteral(base)
    case _ => None
  }

  datatype ArmKind = LiteralArm(lit: LiteralValue) | GeneralArm(typ: TypeExpression)

  datatype ChoiceClass = Enum(literals: seq<LiteralValue>) | Union(kinds: seq<ArmKind>)

  function Literals(arms: seq<TypeExpression>): Option<seq<LiteralValue>> {
    if arms == [] then Some([])
    else match (ArmLiteral(arms[0]), Literals(arms[1..]))
         case (Some(lit), Some(rest)) => Some([lit] + rest)
         case _ => None
  }

  function Kinds(arms: seq<TypeExpression>): seq<ArmKind> {
    if arms == [] then []
    else
      [match ArmLiteral(arms[0]) case Some(lit) => LiteralArm(lit) case None => GeneralArm(arms[0])] + Kinds(arms[1..])
  }

  /** All arms literal: an enum. Otherwise, or with no arms at all: a tagged union. */
  function Classify(arms: seq<TypeExpression>): ChoiceClass {
    if arms != [] && Literals(arms).Some? then Enum(Literals(arms).value) else Union(Kinds(arms))
  }

  predicate AllLiteral(arms: seq<TypeExpression>) {
    Classify(arms).Enum?
  }

  lemma {:induction false} LiteralsByArm(arms: seq<TypeExpression>)
    ensures Literals(arms).Some? <==> forall i :: 0 <= i < |arms| ==> ArmLiteral(arms[i]).Some?
    ensures Literals(arms).Some? ==>
      && |Literals(arms).value| == |arms|
      && forall i :: 0 <= i < |arms| ==> Literals(arms).value[i] == ArmLiteral(arms[i]).value
    ensures |Kinds(arms)| == |arms|
    ensures forall i :: 0 <= i < |arms| ==>
      Kinds(arms)[i] == if ArmLiteral(arms[i]).Some? then LiteralArm(ArmLiteral(arms[i]).value) else GeneralArm(arms[i])
    decreases |arms|
  {
    if arms != [] {
      LiteralsByArm(arms[1..]);
      assert forall i :: 1 <= i < |arms| ==> arms[i] == arms[1..][i - 1];
    }
  }

  /** A choice is an enum exactly when it has an arm and every arm carries a literal; each arm's literal,
      or the arm itself, is kept under its index. */
  lemma EnumExactly(arms: seq<TypeExpression>)
    ensures Classify(arms).Enum? <==> arms != [] && forall i :: 0 <= i < |arms| ==> ArmLiteral(arms[i]).Some?
    ensures match Classify(arms)
            case Enum(literals) =>
              |literals| == |arms| && forall i :: 0 <= i < |arms| ==> Some(literals[i]) == ArmLiteral(arms[i])
            case Union(kinds) =>
              && |kinds| == |arms|
              && forall i :: 0 <= i < |arms| ==>
                   if ArmLiteral(arms[i]).Some? then kinds[i] == LiteralArm(ArmLiteral(arms[i]).value)
                   else kinds[i] == GeneralArm(arms[i])
  {
    LiteralsByArm(arms);
  }

  /** Same class, same literals, each at the same index. */
  predicate SameShape(a: ChoiceClass, b: ChoiceClass) {
    match (a, b)
    case (Enum(x), Enum(y)) => x == y
    case (Union(x), Union(y)) =>
      |x| == |y| && forall i :: 0 <= i < |x| ==> if x[i].LiteralArm? then y[i] == x[i] else y[i].GeneralArm?
    case _ => false
  }

  /** Arms that carry the same literals, or none, give choices of the same shape. */
  lemma SameLiteralsSameShape(a: seq<TypeExpression>, b: seq<TypeExpression>)
    requires |a| == |b| && forall i :: 0 <= i < |a| ==> ArmLiteral(a[i]) == ArmLiteral(b[i])
    ensures SameShape(Classify(a), Classify(b)) && (AllLiteral(a) <==> AllLiteral(b))
  {
    LiteralsByArm(a);
    LiteralsByArm(b);
  }

  // ---- the order an encoder tests union arms in --------------------------------------------------------

  /** Every arm's index once, literals before general arms, each group in declaration order. */
  ghost predicate EncodeOrder(kinds: seq<ArmKind>, order: seq<nat>) {
    && |order| == |kinds|
    && (forall i :: i in order <==> 0 <= i < |kinds|)
    && (forall j, k :: 0 <= j < k < |order| ==> TestedBefore(kinds, order[j], order[k]))
  }

  /** Indices outside the list do not matter. */
  predicate TestedBefore(kinds: seq<ArmKind>, i: nat, j: nat) {
    i < |kinds| && j < |kinds| && if kinds[i].LiteralArm? == kinds[j].LiteralArm? then i < j else kinds[i].LiteralArm?
  }

  lemma Inserted(kinds: seq<ArmKind>, order: seq<nat>, j: nat, i: nat)
    requires j <= |order|
    requires forall p, q :: 0 <= p < q < |order| ==> TestedBefore(kinds, order[p], order[q])
    requires forall k :: 0 <= k < j ==> TestedBefore(kinds, order[k], i)
    requires forall k :: j <= k < |order| ==> TestedBefore(kinds, i, order[k])
    ensures var more := order[..j] + [i] + order[j..];
            && |more| == |order| + 1
            && (forall k :: k in more <==> k in order || k == i)
            && forall p, q :: 0 <= p < q < |more| ==> TestedBefore(kinds, more[p], more[q])
  {
    hide TestedBefore;
    var more := order[..j] + [i] + order[j..];
    assert order == order[..j] + order[j..];
    forall p, q | 0 <= p < q < |more| ensures TestedBefore(kinds, more[p], more[q]) {
      assert p < j ==> more[p] == order[p];
      assert p > j ==> more[p] == order[p - 1];
      assert q < j ==> more[q] == order[q];
      assert q > j ==> more[q] == order[q - 1];
    }
  }

  /** A stable sort of the indices on "not a literal", by insertion. */
  method UnionEncodeOrder(kinds: seq<ArmKind>) returns (order: seq<nat>)
    ensures EncodeOrder(kinds, order)
  {
    order := [];
    for i := 0 to |kinds|
      invariant |order| == i
      invariant forall k :: k in order <==> 0 <= k < i
      invariant forall j, k :: 0 <= j < k < |order| ==> TestedBefore(kinds, order[j], order[k])
    {
      var j := i;
      assert forall k :: 0 <= k < |order| ==> order[k] in order;
      while j > 0 && kinds[i].LiteralArm? && !kinds[order[j - 1]].LiteralArm?
        invariant 0 <= j <= i
        invariant forall k :: j <= k < i ==> TestedBefore(kinds, i, order[k])
      {
        assert order[j - 1] in order;
        j := j - 1;
      }
      forall k | 0 <= k < j ensures TestedBefore(kinds, order[k], i) {
        assert order[k] in order && order[j - 1] in order;
        assert k < j - 1 ==> TestedBefore(kinds, order[k], order[j - 1]);
      }
      Inserted(kinds, order, j, i);
      order := order[..j] + [i] + order[j..];
    }
  }
}
