/** What printing a type expression loses. Some parts are not printed at all, and some nestings
    print as flatter ones, so every type expression prints as the one that is kept of it. Where
    that one is faithful, it is what comes back. */
module TypeLosses {
  import opened Bytes
  import opened Ast
  import opened Tokens
  import opened AnnotationPrinter
  import opened ConditionRoundTrip
  import opened TypeParser
  import opened TypePrinter
  import opened TypeRoundTrip

  // ---- what is kept ---------------------------------------------------------------------------------

  function Kept(t: TypeExpression): TypeExpression
    decreases t, 0
  {
    match t
    case Builtin(name) => Named(name)
    case Reference(name) => Named(name)
    case Array(element, _) => Array(Kept(element), None)
    case Tuple(g) => Bracketed(KeptMembers(g.entries))
    case Map(key, value, _) => Map(Kept(key), Kept(value), None)
    case Group(g) => Group(GroupExpression(KeptEntries(g.entries)))
    case Choice(arms) => Joined(KeptArms(arms))
    case Literal(lit) => LiteralType(lit)
    case Constrained(base, ops) => Constrain(Kept(base), KeptControls(ops))
    case _ => t
  }

  function Named(name: string): TypeExpression {
    if name in BUILTINS then TypeExpression.Builtin(name) else Reference(name)
  }

  function LiteralType(lit: LiteralValue): TypeExpression {
    var name := SpelledLikeName(lit);
    if name.Some? then TypeExpression.Builtin(name.value) else Literal(lit)
  }

  /** A lone member without a key is an array's element. */
  function Bracketed(es: seq<GroupEntry>): TypeExpression {
    if |es| == 1 && es[0].key.None? then Array(es[0].valueType, None) else Tuple(GroupExpression(es))
  }

  function Joined(arms: seq<TypeExpression>): TypeExpression {
    if |arms| == 1 then arms[0] else Choice(arms)
  }

  /** The arms of a choice stand among the arms around it. */
  function KeptArms(arms: seq<TypeExpression>): seq<TypeExpression>
    decreases arms, 1
  {
    if arms == [] then [] else Arms(Kept(arms[0])) + KeptArms(arms[1..])
  }

  function Arms(t: TypeExpression): seq<TypeExpression> {
    if t.Choice? && t.arms != [] then t.arms else [t]
  }

  /** Operators behind a type that ends in operators join those; behind a choice they belong to the
      last arm. */
  function Constrain(base: TypeExpression, ops: seq<ControlOperator>): TypeExpression
    decreases base
  {
    if ops == [] then base
    else if base.Constrained? then Constrained(base.base, Behind(base.constraints, ops))
    else if base.Choice? && base.arms != [] then
      var last := |base.arms| - 1;
      Choice(base.arms[..last] + [Constrain(base.arms[last], ops)])
    else Constrained(base, ops)
  }

  /** Operators behind one that takes a type belong to that type. */
  function Behind(before: seq<ControlOperator>, ops: seq<ControlOperator>): seq<ControlOperator>
    decreases before
  {
    if before == [] then ops
    else if |before| > 1 || !TakesType(before[0]) then [before[0]] + Behind(before[1..], ops)
    else [Into(before[0], ops)]
  }

  function Into(op: ControlOperator, ops: seq<ControlOperator>): ControlOperator
    requires TakesType(op)
    decreases op
  {
    if op.And? then And(Constrain(op.operand, ops)) else Within(Constrain(op.operand, ops))
  }

  function KeptControls(ops: seq<ControlOperator>): seq<ControlOperator>
    decreases ops, 1
  {
    if ops == [] then [] else Behind([KeptControl(ops[0])], KeptControls(ops[1..]))
  }

  function KeptControl(op: ControlOperator): ControlOperator
    decreases op, 0
  {
    match op
    case And(operand) => And(Kept(operand))
    case Within(operand) => Within(Kept(operand))
    case _ => op
  }

  function KeptMembers(es: seq<GroupEntry>): (r: seq<GroupEntry>)
    ensures |r| == |es|
    decreases es, 1
  {
    if es == [] then [] else [KeptMember(es[0])] + KeptMembers(es[1..])
  }

  function KeptMember(e: GroupEntry): GroupEntry
    decreases e, 0
  {
    GroupEntry(if e.key.Some? && e.key.value.Bare? then e.key else None, Kept(e.valueType), None, [], [])
  }

  function KeptEntries(es: seq<GroupEntry>): (r: seq<GroupEntry>)
    ensures |r| == |es|
    decreases es, 1
  {
    if es == [] then [] else [KeptEntry(es[0])] + KeptEntries(es[1..])
  }

  /** Documentation goes, and an occurrence without a key; a number behind a key joins it. */
  function KeptEntry(e: GroupEntry): GroupEntry
    decreases e, 0
  {
    var (key, occurrence) := KeptKey(e.key, e.occurrence);
    GroupEntry(key, Kept(e.valueType), occurrence, e.metadata, [])
  }

  function KeptKey(key: Option<GroupKey>, occurrence: Option<Occurrence>): (Option<GroupKey>, Option<Occurrence>) {
    match key
    case None => (None, None)
    case Some(Bare(name)) => (Some(Bare(name + Count(occurrence))), Uncounted(occurrence))
    case Some(LiteralKey(lit)) => KeptLiteralKey(lit, occurrence)
    case Some(TypeKey(_)) => (key, occurrence)
  }

  function KeptLiteralKey(lit: LiteralValue, occurrence: Option<Occurrence>): (Option<GroupKey>, Option<Occurrence>) {
    var name := SpelledLikeName(lit);
    if name.Some? then (Some(Bare(name.value + Count(occurrence))), Uncounted(occurrence))
    else if lit.Integer? && LongerInteger(lit.i, Count(occurrence)).Integer? then
      (Some(LiteralKey(LiteralValue.Integer(LongerInteger(lit.i, Count(occurrence)).i))), Uncounted(occurrence))
    else (Some(LiteralKey(lit)), occurrence)
  }

  // ---- it prints the same --------------------------------------------------------------------------

  lemma {:induction false} KeptText(t: TypeExpression, indent: nat, cfg: FormatConfig, rest: Input)
    ensures PrintType(Kept(t), indent, cfg, rest) == PrintType(t, indent, cfg, rest)
    decreases t, 0
  {
    hide PrintName, PrintMembers, PrintGroup, PrintArms, PrintLiteral, PrintControls, Constrain, Bracketed, Joined,
      KeptMembers, KeptEntries, KeptArms, KeptControls, LiteralType;
    match t {
      case Array(element, _) => KeptText(element, indent, cfg, [RightBracket] + rest);
      case Tuple(g) =>
        BracketedText(KeptMembers(g.entries), indent, cfg, rest);
        KeptMembersText(g.entries, indent, cfg, [RightBracket] + rest);
      case Map(key, value, _) =>
        var val := PrintType(value, indent, cfg, [RightBrace] + rest);
        KeptText(value, indent, cfg, [RightBrace] + rest);
        KeptText(key, indent, cfg, [SPACE] + ([Arrow] + ([SPACE] + val)));
      case Group(g) => KeptGroupText(g, indent, cfg, rest);
      case Choice(arms) =>
        JoinedText(KeptArms(arms), indent, cfg, rest);
        KeptArmsText(arms, indent, cfg, rest);
      case Literal(lit) => LiteralTypeText(lit, indent, cfg, rest);
      case Constrained(base, ops) =>
        ConstrainText(Kept(base), KeptControls(ops), indent, cfg, rest);
        KeptControlsText(ops, cfg, rest);
        KeptText(base, indent, cfg, PrintControls(ops, cfg, rest));
      case _ =>
    }
  }

  lemma LiteralTypeText(lit: LiteralValue, indent: nat, cfg: FormatConfig, rest: Input)
    ensures PrintType(LiteralType(lit), indent, cfg, rest) == PrintLiteral(lit, rest)
  {
    hide PrintName;
    SpelledText(lit, rest);
  }

  lemma SpelledText(lit: LiteralValue, rest: Input)
    ensures SpelledLikeName(lit).Some? ==>
              SpelledLikeName(lit).value in BUILTINS
                  && PrintName(SpelledLikeName(lit).value, rest) == PrintLiteral(lit, rest)
  {
    if SpelledLikeName(lit).Some? {
      NoDotInBuiltins(SpelledLikeName(lit).value);
      WholeName(SpelledLikeName(lit).value, rest);
    }
  }

  lemma BracketedText(es: seq<GroupEntry>, indent: nat, cfg: FormatConfig, rest: Input)
    ensures PrintType(Bracketed(es), indent, cfg, rest)
         == [LeftBracket] + PrintMembers(es, indent, cfg, [RightBracket] + rest)
  {
    hide PrintName;
    if |es| == 1 {
      assert PrintMoreMembers(es[1..], indent, cfg, [RightBracket] + rest) == [RightBracket] + rest;
    }
  }

  lemma JoinedText(arms: seq<TypeExpression>, indent: nat, cfg: FormatConfig, rest: Input)
    ensures PrintType(Joined(arms), indent, cfg, rest) == PrintArms(arms, indent, cfg, rest)
  {
    if |arms| == 1 {
      NoMoreArms(arms[1..], indent, cfg, rest);
    }
  }

  lemma {:induction false} KeptArmsText(arms: seq<TypeExpression>, indent: nat, cfg: FormatConfig, rest: Input)
    ensures KeptArms(arms) == [] <==> arms == []
    ensures PrintArms(KeptArms(arms), indent, cfg, rest) == PrintArms(arms, indent, cfg, rest)
    ensures PrintMoreArms(KeptArms(arms), indent, cfg, rest) == PrintMoreArms(arms, indent, cfg, rest)
    decreases arms, 1
  {
    hide PrintType, PrintArms, PrintMoreArms, Kept, Arms;
    if arms != [] {
      var more := PrintMoreArms(arms[1..], indent, cfg, rest);
      ArmsStart(arms, indent, cfg, rest);
      KeptText(arms[0], indent, cfg, more);
      KeptArmsText(arms[1..], indent, cfg, rest);
      ArmsText(Kept(arms[0]), indent, cfg, more);
      ArmsConcat(Arms(Kept(arms[0])), KeptArms(arms[1..]), indent, cfg, rest);
      ArmsStart(KeptArms(arms), indent, cfg, rest);
    } else {
      assert KeptArms(arms) == arms;
    }
  }

  const MARK := [SPACE, Slash, SPACE]

  lemma ArmsStart(arms: seq<TypeExpression>, indent: nat, cfg: FormatConfig, rest: Input)
    requires arms != []
    ensures PrintArms(arms, indent, cfg, rest)
         == PrintType(arms[0], indent, cfg, PrintMoreArms(arms[1..], indent, cfg, rest))
    ensures PrintMoreArms(arms, indent, cfg, rest) == MARK + PrintArms(arms, indent, cfg, rest)
  {
    hide PrintType;
  }

  lemma ArmsText(t: TypeExpression, indent: nat, cfg: FormatConfig, rest: Input)
    ensures Arms(t) != [] && PrintArms(Arms(t), indent, cfg, rest) == PrintType(t, indent, cfg, rest)
  {
    if !(t.Choice? && t.arms != []) {
      JoinedText([t], indent, cfg, rest);
    }
  }

  lemma {:induction false} ArmsConcat(
      a: seq<TypeExpression>, b: seq<TypeExpression>, indent: nat, cfg: FormatConfig, rest: Input)
    requires a != []
    ensures PrintArms(a + b, indent, cfg, rest) == PrintArms(a, indent, cfg, PrintMoreArms(b, indent, cfg, rest))
    ensures PrintMoreArms(a + b, indent, cfg, rest)
         == PrintMoreArms(a, indent, cfg, PrintMoreArms(b, indent, cfg, rest))
    decreases |a|
  {
    hide PrintType, PrintArms, PrintMoreArms;
    var more := PrintMoreArms(b, indent, cfg, rest);
    assert (a + b)[1..] == a[1..] + b;
    ArmsStart(a, indent, cfg, more);
    ArmsStart(a + b, indent, cfg, rest);
    if a[1..] == [] {
      NoMoreArms(a[1..], indent, cfg, more);
      assert a[1..] + b == b;
    } else {
      ArmsConcat(a[1..], b, indent, cfg, rest);
    }
  }

  lemma {:induction false} ConstrainText(
      base: TypeExpression, ops: seq<ControlOperator>, indent: nat, cfg: FormatConfig, rest: Input)
    ensures PrintType(Constrain(base, ops), indent, cfg, rest)
         == PrintType(base, indent, cfg, PrintControls(ops, cfg, rest))
    decreases base
  {
    hide PrintName, PrintMembers, PrintGroup, PrintArms, PrintLiteral, PrintControls, Behind;
    if ops == [] {
      assert PrintControls(ops, cfg, rest) == rest by { NoOperators(ops, cfg, rest); }
    } else if base.Constrained? {
      BehindText(base.constraints, ops, cfg, rest);
    } else if base.Choice? && base.arms != [] {
      LastArmText(base.arms, ops, indent, cfg, rest);
    }
  }

  lemma NoOperators(ops: seq<ControlOperator>, cfg: FormatConfig, rest: Input)
    requires |ops| == 0
    ensures PrintControls(ops, cfg, rest) == rest
  {
  }

  lemma {:induction false} LastArmText(
      arms: seq<TypeExpression>, ops: seq<ControlOperator>, indent: nat, cfg: FormatConfig, rest: Input)
    requires arms != []
    ensures PrintArms(arms[..|arms| - 1] + [Constrain(arms[|arms| - 1], ops)], indent, cfg, rest)
         == PrintArms(arms, indent, cfg, PrintControls(ops, cfg, rest))
    decreases arms
  {
    hide PrintType, PrintArms, PrintMoreArms, PrintControls, Constrain;
    var last := |arms| - 1;
    var controls := PrintControls(ops, cfg, rest);
    var arm := Constrain(arms[last], ops);
    ConstrainText(arms[last], ops, indent, cfg, rest);
    LoneArm(arm, indent, cfg, rest);
    LoneArm(arms[last], indent, cfg, controls);
    if last == 0 {
      assert arms == [arms[last]] && arms[..last] + [arm] == [arm];
    } else {
      ArmsConcat(arms[..last], [arm], indent, cfg, rest);
      ArmsConcat(arms[..last], [arms[last]], indent, cfg, controls);
      assert arms[..last] + [arms[last]] == arms;
    }
  }

  lemma LoneArm(arm: TypeExpression, indent: nat, cfg: FormatConfig, rest: Input)
    ensures PrintArms([arm], indent, cfg, rest) == PrintType(arm, indent, cfg, rest)
    ensures PrintMoreArms([arm], indent, cfg, rest) == MARK + PrintType(arm, indent, cfg, rest)
  {
    hide PrintType;
    NoMoreArms([arm][1..], indent, cfg, rest);
    ArmsStart([arm], indent, cfg, rest);
  }

  lemma {:induction false} BehindText(
      before: seq<ControlOperator>, ops: seq<ControlOperator>, cfg: FormatConfig, rest: Input)
    ensures PrintControls(Behind(before, ops), cfg, rest) == PrintControls(before, cfg, PrintControls(ops, cfg, rest))
    decreases before
  {
    hide PrintType, PrintControl, Into;
    if before != [] {
      if |before| > 1 || !TakesType(before[0]) {
        BehindText(before[1..], ops, cfg, rest);
        assert ([before[0]] + Behind(before[1..], ops))[1..] == Behind(before[1..], ops);
      } else {
        IntoText(before[0], ops, cfg, rest);
      }
    }
  }

  lemma {:induction false} IntoText(op: ControlOperator, ops: seq<ControlOperator>, cfg: FormatConfig, rest: Input)
    requires TakesType(op)
    ensures PrintControl(Into(op, ops), cfg, rest) == PrintControl(op, cfg, PrintControls(ops, cfg, rest))
    decreases op
  {
    hide PrintType, PrintControls, Constrain;
    ConstrainText(op.operand, ops, 0, cfg, rest);
  }

  lemma {:induction false} KeptControlsText(ops: seq<ControlOperator>, cfg: FormatConfig, rest: Input)
    ensures PrintControls(KeptControls(ops), cfg, rest) == PrintControls(ops, cfg, rest)
    decreases ops, 1
  {
    hide PrintControl, Behind, KeptControl;
    if ops != [] {
      var more := PrintControls(ops[1..], cfg, rest);
      KeptControlsText(ops[1..], cfg, rest);
      KeptControlText(ops[0], cfg, more);
      BehindText([KeptControl(ops[0])], KeptControls(ops[1..]), cfg, rest);
      NoOperators([KeptControl(ops[0])][1..], cfg, more);
    }
  }

  lemma {:induction false} KeptControlText(op: ControlOperator, cfg: FormatConfig, rest: Input)
    ensures PrintControl(KeptControl(op), cfg, rest) == PrintControl(op, cfg, rest)
    decreases op, 0
  {
    hide PrintType, Kept;
    if TakesType(op) {
      KeptText(op.operand, 0, cfg, rest);
    }
  }

  lemma {:induction false} KeptMembersText(es: seq<GroupEntry>, indent: nat, cfg: FormatConfig, rest: Input)
    ensures PrintMembers(KeptMembers(es), indent, cfg, rest) == PrintMembers(es, indent, cfg, rest)
    ensures PrintMoreMembers(KeptMembers(es), indent, cfg, rest) == PrintMoreMembers(es, indent, cfg, rest)
    decreases es, 1
  {
    hide PrintMember, KeptMember;
    if es != [] {
      KeptMembersText(es[1..], indent, cfg, rest);
      KeptMemberText(es[0], indent, cfg, PrintMoreMembers(es[1..], indent, cfg, rest));
      assert KeptMembers(es)[1..] == KeptMembers(es[1..]);
    }
  }

  lemma {:induction false} KeptMemberText(e: GroupEntry, indent: nat, cfg: FormatConfig, rest: Input)
    ensures PrintMember(KeptMember(e), indent, cfg, rest) == PrintMember(e, indent, cfg, rest)
    decreases e, 0
  {
    hide PrintType, PrintName, Kept;
    KeptText(e.valueType, indent, cfg, rest);
  }

  lemma {:induction false} KeptGroupText(g: GroupExpression, indent: nat, cfg: FormatConfig, rest: Input)
    ensures PrintGroup(GroupExpression(KeptEntries(g.entries)), indent, cfg, rest) == PrintGroup(g, indent, cfg, rest)
    decreases g, 1
  {
    hide PrintEntries, Spaces, KeptEntries;
    KeptEntriesText(g.entries, indent + cfg.indentSize, cfg, Spaces(indent, [RightBrace] + rest));
  }

  lemma {:induction false} KeptEntriesText(es: seq<GroupEntry>, indent: nat, cfg: FormatConfig, rest: Input)
    ensures PrintEntries(KeptEntries(es), indent, cfg, rest) == PrintEntries(es, indent, cfg, rest)
    decreases es, 1
  {
    hide PrintEntry, KeptEntry, Spaces;
    if es != [] {
      var more := PrintEntries(es[1..], indent, cfg, rest);
      KeptEntriesText(es[1..], indent, cfg, rest);
      KeptEntryText(es[0], indent, cfg, PrintComma(|es| > 1 || cfg.trailingCommas, [Newline] + more));
      assert KeptEntries(es)[1..] == KeptEntries(es[1..]);
    }
  }

  lemma {:induction false} KeptEntryText(e: GroupEntry, indent: nat, cfg: FormatConfig, rest: Input)
    ensures PrintEntry(KeptEntry(e), indent, cfg, rest) == PrintEntry(e, indent, cfg, rest)
    decreases e, 0
  {
    hide PrintType, PrintWordKey, PrintLiteralKey, PrintOccurrence, PrintAnnotations, Kept, KeptLiteralKey, Count,
      Uncounted;
    var annotations := PrintAnnotations(e.metadata, rest);
    KeptText(e.valueType, indent, cfg, annotations);
    KeyText(e, indent, cfg, rest);
    KeyText(KeptEntry(e), indent, cfg, rest);
    var colon := [Colon] + ([SPACE] + PrintType(e.valueType, indent, cfg, annotations));
    match e.key {
      case Some(Bare(name)) => KeptWordText(name, e.occurrence, colon);
      case Some(LiteralKey(lit)) => KeptLiteralText(lit, e.occurrence, colon);
      case _ =>
    }
  }

  lemma UncountedOnce(occurrence: Option<Occurrence>)
    ensures Count(Uncounted(occurrence)) == "" && Uncounted(Uncounted(occurrence)) == Uncounted(occurrence)
  {
  }

  lemma KeptWordText(name: string, occurrence: Option<Occurrence>, rest: Input)
    ensures PrintWordKey(name + Count(occurrence), Uncounted(occurrence), rest) == PrintWordKey(name, occurrence, rest)
  {
    hide PrintName, PrintOccurrence, Count, Uncounted;
    UncountedOnce(occurrence);
    assert (name + Count(occurrence)) + "" == name + Count(occurrence);
  }

  lemma KeptLiteralText(lit: LiteralValue, occurrence: Option<Occurrence>, rest: Input)
    ensures KeptLiteralKey(lit, occurrence).0.Some?
    ensures var (key, left) := KeptLiteralKey(lit, occurrence);
            if key.value.Bare? then PrintWordKey(key.value.name, left, rest) == PrintLiteralKey(lit, occurrence, rest)
            else
              && key.value.LiteralKey?
              && PrintLiteralKey(key.value.lit, left, rest) == PrintLiteralKey(lit, occurrence, rest)
  {
    hide PrintWordKey, PrintLiteral, PrintOccurrence, Count, Uncounted, Longer;
    UncountedOnce(occurrence);
    if SpelledLikeName(lit).Some? {
      KeptWordText(SpelledLikeName(lit).value, occurrence, rest);
    } else if lit.Integer? {
      LongerByNothing(LongerInteger(lit.i, Count(occurrence)));
    }
  }

  lemma LongerByNothing(t: Token)
    ensures t.Integer? ==> LongerInteger(t.i, "") == t
  {
  }

  // ---- a faithful type is kept as it is --------------------------------------------------------------

  lemma {:induction false} FaithfulIsKept(t: TypeExpression)
    requires Faithful(t)
    ensures Kept(t) == t
    decreases t, 0
  {
    hide FaithfulMember, FaithfulEntry, FaithfulArms, FaithfulControls, KeptMembers, KeptEntries, KeptArms,
      KeptControls, IsLiteralType;
    match t {
      case Reference(name) => NameIsNoBuiltin(name);
      case Array(element, _) => FaithfulIsKept(element);
      case Tuple(g) => MembersAreKept(g.entries);
      case Map(key, value, _) =>
        FaithfulIsKept(key);
        FaithfulIsKept(value);
      case Group(g) => EntriesAreKept(g.entries);
      case Choice(arms) => ArmsAreKept(arms);
      case Literal(lit) => LiteralIsKept(lit);
      case Constrained(base, ops) =>
        FaithfulIsKept(base);
        ControlsAreKept(ops);
      case _ =>
    }
  }

  lemma NameIsNoBuiltin(name: string)
    requires IsDottedName(name)
    ensures name !in BUILTINS
  {
    hide FirstDot, AreParts;
    assert name[..|name|] == name;
    BuiltinIsWhole(name);
  }

  lemma BuiltinIsWhole(name: string)
    ensures name in BUILTINS ==> FirstDot(name) == |name|
  {
    hide FirstDot;
    if name in BUILTINS {
      NoDotInBuiltins(name);
      WholeName(name, []);
    }
  }

  lemma LiteralIsKept(lit: LiteralValue)
    requires IsLiteralType(lit)
    ensures LiteralType(lit) == Literal(lit) && SpelledLikeName(lit).None?
  {
  }

  lemma {:induction false} MembersAreKept(es: seq<GroupEntry>)
    requires forall e | e in es :: FaithfulMember(e)
    ensures KeptMembers(es) == es
    decreases es, 1
  {
    hide FaithfulMember, KeptMember;
    if es != [] {
      MemberIsKept(es[0]);
      MembersAreKept(es[1..]);
      assert es == [es[0]] + es[1..];
    }
  }

  lemma {:induction false} MemberIsKept(e: GroupEntry)
    requires FaithfulMember(e)
    ensures KeptMember(e) == e
    decreases e, 0
  {
    hide Faithful, Kept, IsKeyName, IntegerFirst;
    FaithfulIsKept(e.valueType);
  }

  lemma {:induction false} EntriesAreKept(es: seq<GroupEntry>)
    requires forall e | e in es :: FaithfulEntry(e)
    ensures KeptEntries(es) == es
    decreases es, 1
  {
    hide FaithfulEntry, KeptEntry;
    if es != [] {
      EntryIsKept(es[0]);
      EntriesAreKept(es[1..]);
      assert es == [es[0]] + es[1..];
    }
  }

  lemma {:induction false} EntryIsKept(e: GroupEntry)
    requires FaithfulEntry(e)
    ensures KeptEntry(e) == e
    decreases e, 0
  {
    hide Faithful, Kept, IsKeyName, IntegerFirst, FaithfulAnnotation, IsLiteralType, SpelledLikeName, LongerInteger;
    FaithfulIsKept(e.valueType);
    match e.key {
      case Some(Bare(name)) => assert name + "" == name;
      case Some(LiteralKey(lit)) =>
        LiteralIsKept(lit);
        if lit.Integer? {
          LongerByNothing(Token.Integer(lit.i));
        }
      case _ =>
    }
  }

  lemma {:induction false} ArmsAreKept(arms: seq<TypeExpression>)
    requires FaithfulArms(arms)
    ensures KeptArms(arms) == arms
    decreases arms, 1
  {
    hide Faithful, Kept, OpenEnded;
    if arms != [] {
      FaithfulIsKept(arms[0]);
      ArmsAreKept(arms[1..]);
      assert arms == [arms[0]] + arms[1..];
    }
  }

  lemma {:induction false} ControlsAreKept(ops: seq<ControlOperator>)
    requires FaithfulControls(ops)
    ensures KeptControls(ops) == ops
    decreases ops, 1
  {
    hide FaithfulControl, KeptControl;
    if ops != [] {
      ControlIsKept(ops[0]);
      ControlsAreKept(ops[1..]);
      assert ops == [ops[0]] + ops[1..];
      OneBehind(ops[0], ops[1..]);
    }
  }

  lemma OneBehind(op: ControlOperator, ops: seq<ControlOperator>)
    requires ops == [] || !TakesType(op)
    ensures Behind([op], ops) == [op] + ops
  {
    assert [op][1..] == [];
    if TakesType(op) {
      assert Into(op, ops) == op;
    }
  }

  lemma {:induction false} ControlIsKept(op: ControlOperator)
    requires FaithfulControl(op)
    ensures KeptControl(op) == op
    decreases op, 0
  {
    hide Faithful, Kept, FaithfulLiteral, FaithfulSize;
    if TakesType(op) {
      FaithfulIsKept(op.operand);
    }
  }

  // ---- main results ------------------------------------------------------------------------------------

  /** What comes back from printed text is what is kept; it is the type expression itself exactly
      when that is faithful. */
  lemma {:induction false} KeptComesBack(t: TypeExpression, indent: nat, cfg: FormatConfig, rest: Input)
    requires Faithful(Kept(t)) && EndsType(rest)
    ensures ParseType(PrintType(t, indent, cfg, rest)) == Ok((Kept(t), Skip(rest)))
    ensures ParseType(PrintType(t, indent, cfg, rest)) == Ok((t, Skip(rest))) <==> Faithful(t)
  {
    hide ParseType, PrintType, Faithful, Kept, Skip, EndsType;
    KeptText(t, indent, cfg, rest);
    TypeReadsBack(Kept(t), indent, cfg, rest);
    if Faithful(t) {
      FaithfulIsKept(t);
    }
  }

  /** What an array repeats is not printed. */
  lemma {:induction false} ArrayComesBack(
      element: TypeExpression, occurrence: Option<Occurrence>, indent: nat, cfg: FormatConfig, rest: Input)
    requires Faithful(Array(element, None)) && EndsType(rest)
    ensures ParseType(PrintType(Array(element, occurrence), indent, cfg, rest))
         == Ok((Array(element, None), Skip(rest)))
    ensures ParseType(PrintType(Array(element, occurrence), indent, cfg, rest))
         == Ok((Array(element, occurrence), Skip(rest)))
       <==> occurrence.None?
  {
    hide ParseType, PrintType, Skip, EndsType, IntegerFirst;
    FaithfulIsKept(element);
    KeptComesBack(Array(element, occurrence), indent, cfg, rest);
  }

  /** Nor is what a map repeats. */
  lemma {:induction false} MapComesBack(
      key: TypeExpression, value: TypeExpression, occurrence: Option<Occurrence>,
      indent: nat, cfg: FormatConfig, rest: Input)
    requires Faithful(Map(key, value, None)) && EndsType(rest)
    ensures ParseType(PrintType(Map(key, value, occurrence), indent, cfg, rest))
         == Ok((Map(key, value, None), Skip(rest)))
    ensures ParseType(PrintType(Map(key, value, occurrence), indent, cfg, rest))
         == Ok((Map(key, value, occurrence), Skip(rest)))
       <==> occurrence.None?
  {
    hide ParseType, PrintType, Skip, EndsType, IntegerFirst;
    FaithfulIsKept(key);
    FaithfulIsKept(value);
    KeptComesBack(Map(key, value, occurrence), indent, cfg, rest);
  }

  // ---- choices ---------------------------------------------------------------------------------------

  /** The arms with those of nested choices spliced in, in every position and at every depth. */
  function FlatArms(arms: seq<TypeExpression>): seq<TypeExpression>
    decreases arms
  {
    if arms == [] then []
    else (if arms[0].Choice? && arms[0].arms != [] then FlatArms(arms[0].arms) else [arms[0]]) + FlatArms(arms[1..])
  }

  /** A choice inside a choice comes back flat. */
  lemma {:induction false} ChoiceComesBack(arms: seq<TypeExpression>, indent: nat, cfg: FormatConfig, rest: Input)
    requires Faithful(Choice(FlatArms(arms))) && EndsType(rest)
    ensures ParseType(PrintType(Choice(arms), indent, cfg, rest)) == Ok((Choice(FlatArms(arms)), Skip(rest)))
    ensures ParseType(PrintType(Choice(arms), indent, cfg, rest)) == Ok((Choice(arms), Skip(rest)))
       <==> forall a | a in arms :: !a.Choice?
  {
    hide ParseType, PrintType, Skip, EndsType, FaithfulArms, KeptArms;
    FlatIsKept(arms);
    KeptComesBack(Choice(arms), indent, cfg, rest);
    if forall a | a in arms :: !a.Choice? {
      FlatAlready(arms);
    }
    if FlatArms(arms) == arms {
      NoArmIsChoice(arms);
    }
  }

  lemma {:induction false} FlatIsKept(arms: seq<TypeExpression>)
    requires FaithfulArms(FlatArms(arms))
    ensures KeptArms(arms) == FlatArms(arms) && (FlatArms(arms) == [] <==> arms == [])
    decreases arms
  {
    hide Faithful, FaithfulArms, OpenEnded;
    if arms != [] {
      var front := if arms[0].Choice? && arms[0].arms != [] then FlatArms(arms[0].arms) else [arms[0]];
      FaithfulParts(front, FlatArms(arms[1..]));
      FlatIsKept(arms[1..]);
      if arms[0].Choice? && arms[0].arms != [] {
        FlatIsKept(arms[0].arms);
        JoinedArms(front);
      } else {
        NoArmIsChoice(front);
        FaithfulIsKept(front[0]);
      }
    }
  }

  lemma JoinedArms(arms: seq<TypeExpression>)
    requires arms != [] && FaithfulArms(arms)
    ensures Arms(Joined(arms)) == arms
  {
    NoArmIsChoice(arms);
  }

  lemma {:induction false} FaithfulParts(a: seq<TypeExpression>, b: seq<TypeExpression>)
    requires FaithfulArms(a + b)
    ensures FaithfulArms(a) && FaithfulArms(b)
    decreases |a|
  {
    hide Faithful, OpenEnded;
    if a == [] {
      assert a + b == b;
    } else {
      assert (a + b)[1..] == a[1..] + b;
      FaithfulParts(a[1..], b);
    }
  }

  lemma {:induction false} NoArmIsChoice(arms: seq<TypeExpression>)
    requires FaithfulArms(arms)
    ensures forall a | a in arms :: Faithful(a) && !a.Choice?
    decreases |arms|
  {
    hide Faithful, OpenEnded;
    if arms != [] {
      NoArmIsChoice(arms[1..]);
    }
  }

  lemma {:induction false} FlatAlready(arms: seq<TypeExpression>)
    requires forall a | a in arms :: !a.Choice?
    ensures FlatArms(arms) == arms
    decreases |arms|
  {
    if arms != [] {
      FlatAlready(arms[1..]);
      assert arms == [arms[0]] + arms[1..];
    }
  }

  /** Operators behind a choice come back on its last arm. */
  lemma {:induction false} ConstrainedChoiceComesBack(
      arms: seq<TypeExpression>, ops: seq<ControlOperator>, indent: nat, cfg: FormatConfig, rest: Input)
    requires Faithful(Choice(arms)) && !arms[|arms| - 1].Constrained?
    requires ops != [] && FaithfulControls(ops) && EndsType(rest)
    ensures ParseType(PrintType(Constrained(Choice(arms), ops), indent, cfg, rest))
         == Ok((Choice(arms[..|arms| - 1] + [Constrained(arms[|arms| - 1], ops)]), Skip(rest)))
  {
    hide ParseType, PrintType, Skip, EndsType, FaithfulArms, FaithfulControls, Kept, KeptControls;
    var t := Constrained(Choice(arms), ops);
    assert Kept(t) == Constrain(Kept(Choice(arms)), KeptControls(ops)) by { KeptConstrained(Choice(arms), ops); }
    FaithfulIsKept(Choice(arms));
    ControlsAreKept(ops);
    NoArmIsChoice(arms);
    LastArmConstrained(arms, ops);
    var last := |arms| - 1;
    assert Constrain(arms[last], ops) == Constrained(arms[last], ops);
    assert Kept(t) == Choice(arms[..last] + [Constrained(arms[last], ops)]);
    KeptComesBack(t, indent, cfg, rest);
  }

  lemma KeptConstrained(base: TypeExpression, ops: seq<ControlOperator>)
    ensures Kept(Constrained(base, ops)) == Constrain(Kept(base), KeptControls(ops))
  {
  }

  lemma {:induction false} LastArmConstrained(arms: seq<TypeExpression>, ops: seq<ControlOperator>)
    requires arms != [] && FaithfulArms(arms) && !arms[|arms| - 1].Constrained?
    requires ops != [] && FaithfulControls(ops)
    ensures FaithfulArms(arms[..|arms| - 1] + [Constrained(arms[|arms| - 1], ops)])
    decreases |arms|
  {
    hide FaithfulControls;
    var last := |arms| - 1;
    var changed := arms[..last] + [Constrained(arms[last], ops)];
    if last == 0 {
      assert changed[1..] == [];
    } else {
      LastArmConstrained(arms[1..], ops);
      assert changed[1..] == arms[1..][..last - 1] + [Constrained(arms[1..][last - 1], ops)];
    }
  }

  // ---- tuples ----------------------------------------------------------------------------------------

  /** Of a tuple's members only bare keys and values are printed, and a lone value is an array's. */
  lemma {:induction false} TupleComesBack(es: seq<GroupEntry>, indent: nat, cfg: FormatConfig, rest: Input)
    requires (forall e | e in es :: FaithfulMember(KeptMember(e))) && EndsType(rest)
    ensures ParseType(PrintType(Tuple(GroupExpression(es)), indent, cfg, rest))
         == Ok((Bracketed(KeptMembers(es)), Skip(rest)))
    ensures ParseType(PrintType(Tuple(GroupExpression(es)), indent, cfg, rest))
         == Ok((Tuple(GroupExpression(es)), Skip(rest)))
       <==> (forall e | e in es :: KeptMember(e) == e) && !(|es| == 1 && es[0].key.None?)
  {
    hide ParseType, PrintType, Skip, EndsType, FaithfulMember, KeptMember;
    KeptMemberAt(es);
    var kept := KeptMembers(es);
    assert forall e | e in kept :: FaithfulMember(e);
    if |es| == 1 && kept[0].key.None? {
      LoneMember(kept[0]);
    }
    KeptComesBack(Tuple(GroupExpression(es)), indent, cfg, rest);
    if forall e | e in es :: KeptMember(e) == e {
      assert kept == es;
    }
  }

  lemma {:induction false} KeptMemberAt(es: seq<GroupEntry>)
    ensures forall k | 0 <= k < |es| :: KeptMembers(es)[k] == KeptMember(es[k])
    decreases |es|
  {
    hide KeptMember;
    if es != [] {
      KeptMemberAt(es[1..]);
    }
  }

  lemma LoneMember(e: GroupEntry)
    requires FaithfulMember(e) && e.key.None?
    ensures Faithful(Array(e.valueType, None))
  {
    hide IntegerFirst;
  }
}
