/** What hoisting leaves behind: fresh distinct names, nothing left to hoist, unchanged choice
    shapes, and therefore nothing to do a second time. */
module HoistShape {
  import opened Basics
  import opened Ast
  import opened ChoiceShape
  import opened Hoist

  // ---- literal arms ------------------------------------------------------------------------------------

  /** A literal arm stays the literal it is, and no other arm becomes one. */
  lemma {:induction false} RewriteKeepsLiteral(t: TypeExpression, name: string, all: bool, st: State)
    ensures ArmLiteral(Rewrite(t, name, all, st).0) == ArmLiteral(t)
    ensures ArmLiteral(t).Some? ==> Rewrite(t, name, all, st) == (t, st)
    decreases t
  {
    if t.Constrained? {
      RewriteKeepsLiteral(t.base, name, all, st);
    }
  }

  lemma {:induction false} RewriteArmsKeepsLiterals(ts: seq<TypeExpression>, name: string, i: nat, all: bool, st: State)
    ensures forall k :: 0 <= k < |ts| ==> ArmLiteral(RewriteArms(ts, name, i, all, st).0[k]) == ArmLiteral(ts[k])
    decreases |ts|
  {
    hide Rewrite, ArmLiteral;
    if ts != [] {
      var (t, st1) := Rewrite(ts[0], name + "_" + Decimal(i), all, st);
      RewriteKeepsLiteral(ts[0], name + "_" + Decimal(i), all, st);
      RewriteArmsKeepsLiterals(ts[1..], name, i + 1, all, st1);
    }
  }

  /** A rewritten choice keeps its class, its literals and the index of every arm. */
  lemma ChoiceShapeKept(arms: seq<TypeExpression>, name: string, all: bool, st: State)
    ensures var arms' := RewriteArms(arms, name, 0, all, st).0;
            SameShape(Classify(arms), Classify(arms')) && (AllLiteral(arms) <==> AllLiteral(arms'))
  {
    hide RewriteArms, Classify, SameShape;
    RewriteArmsKeepsLiterals(arms, name, 0, all, st);
    SameLiteralsSameShape(arms, RewriteArms(arms, name, 0, all, st).0);
  }

  // ---- nothing left to hoist ------------------------------------------------------------------------------

  /** Neither this position nor any below it holds a hoistable composite. */
  predicate Flat(t: TypeExpression, all: bool)
    decreases t, 1
  {
    match t
    case Constrained(base, _) => Flat(base, all)
    case Group(_) => false
    case Choice(arms) => !Hoistable(arms, all) && forall a | a in arms :: Flat(a, all)
    case _ => FlatInside(t, all)
  }

  /** Nothing below this position does. */
  predicate FlatInside(t: TypeExpression, all: bool)
    decreases t, 0
  {
    match t
    case Array(element, _) => Flat(element, all)
    case Map(key, value, _) => Flat(key, all) && Flat(value, all)
    case Tuple(g) => FlatGroup(g, all)
    case Group(g) => FlatGroup(g, all)
    case Choice(arms) => forall a | a in arms :: Flat(a, all)
    case Constrained(base, _) => FlatInside(base, all)
    case _ => true
  }

  predicate FlatGroup(g: GroupExpression, all: bool)
    decreases g, 3
  {
    forall e | e in g.entries :: FlatEntry(e, all)
  }

  predicate FlatEntry(e: GroupEntry, all: bool)
    decreases e, 2
  {
    Flat(e.valueType, all)
  }

  predicate FlatRule(r: Rule, all: bool) {
    match r.ruleType
    case GroupDef(g) => FlatGroup(g, all)
    case TypeDef(t) => FlatInside(t, all)
    case TypeChoice(arms) => forall a | a in arms :: Flat(a, all)
    case GroupChoice(groups) => forall g | g in groups :: FlatGroup(g, all)
    case ServiceDef(_) => true
  }

  /** From `st` to `st'` only flat rules were added, under names whose keys were free, are now
      taken, and differ from each other; no other key was taken. */
  ghost predicate Grown(st: State, st': State, all: bool) {
    && st.synth <= st'.synth && st.used <= st'.used
    && (forall i :: |st.synth| <= i < |st'.synth| ==>
          && FlatRule(st'.synth[i], all)
          && CanonicalKey(st'.synth[i].name) !in st.used && CanonicalKey(st'.synth[i].name) in st'.used)
    && (forall i, j :: |st.synth| <= i < j < |st'.synth| ==>
          CanonicalKey(st'.synth[i].name) != CanonicalKey(st'.synth[j].name))
    && (forall k :: k in st'.used ==> k in st.used || AddsKey(st, st', k))
  }

  /** A rule added from `st` to `st'` has this key. */
  ghost predicate AddsKey(st: State, st': State, key: string) {
    exists i :: |st.synth| <= i < |st'.synth| && CanonicalKey(st'.synth[i].name) == key
  }

  lemma GrownTransitive(a: State, b: State, c: State, all: bool)
    requires Grown(a, b, all) && Grown(b, c, all)
    ensures Grown(a, c, all)
  {
    hide FlatRule, CanonicalKey;
    forall i | |a.synth| <= i < |b.synth| ensures c.synth[i] == b.synth[i] {
    }
  }

  /** A name is reserved, its body is rewritten, and only then its rule is added. */
  lemma GrownByOne(st: State, base: string, st2: State, ruleType: RuleType, all: bool)
    requires Grown(Reserve(st, base).1, st2, all)
    requires FlatRule(Synthesized(Reserve(st, base).0, ruleType), all)
    ensures Grown(st, st2.(synth := st2.synth + [Synthesized(Reserve(st, base).0, ruleType)]), all)
  {
    hide FlatRule, CanonicalKey, FirstFree, Candidate;
    var (name, st1) := Reserve(st, base);
    var st' := st2.(synth := st2.synth + [Synthesized(name, ruleType)]);
    forall k | k in st'.used && k !in st.used ensures AddsKey(st, st', k) {
      if k in st1.used {
        assert st'.synth[|st2.synth|].name == name;
      } else {
        var i :| |st1.synth| <= i < |st2.synth| && CanonicalKey(st2.synth[i].name) == k;
        assert st'.synth[i] == st2.synth[i];
      }
    }
  }

  lemma {:induction false} RewriteFlattens(t: TypeExpression, name: string, all: bool, st: State)
    ensures Flat(Rewrite(t, name, all, st).0, all) && Grown(st, Rewrite(t, name, all, st).1, all)
    decreases t, 1
  {
    hide Grown, Reserve, RewriteGroup, RewriteArms, RewriteInside, FlatInside, Classify;
    match t {
      case Constrained(base, constraints) => RewriteFlattens(base, name, all, st);
      case Group(g) =>
        var (synth, st1) := Reserve(st, name);
        RewriteGroupFlattens(g, synth, all, st1);
        var (g', st2) := RewriteGroup(g, synth, all, st1);
        GrownByOne(st, name, st2, GroupDef(g'), all);
        FlatReference(synth, all);
      case Choice(arms) =>
        if Hoistable(arms, all) {
          var (synth, st1) := Reserve(st, name);
          RewriteArmsFlattens(arms, synth, 0, all, st1);
          var (arms', st2) := RewriteArms(arms, synth, 0, all, st1);
          FlatChoiceBody(arms', all);
          GrownByOne(st, name, st2, TypeDef(Choice(arms')), all);
          FlatReference(synth, all);
        } else {
          RewriteInsideFlattens(t, name, all, st);
          InsideKeepsKind(t, name, all, st);
          ChoiceShapeKept(arms, name, all, st);
        }
      case _ =>
        RewriteInsideFlattens(t, name, all, st);
        InsideKeepsKind(t, name, all, st);
    }
  }

  lemma FlatReference(name: string, all: bool)
    ensures Flat(Reference(name), all)
  {
  }

  lemma FlatChoiceBody(arms: seq<TypeExpression>, all: bool)
    requires forall a | a in arms :: Flat(a, all)
    ensures FlatInside(Choice(arms), all)
  {
  }

  /** Rewriting inside keeps a position's own constructor. */
  lemma InsideKeepsKind(t: TypeExpression, name: string, all: bool, st: State)
    ensures var t' := RewriteInside(t, name, all, st).0;
            && (t.Choice? ==> t' == Choice(RewriteArms(t.arms, name, 0, all, st).0))
            && (!t.Choice? && !t.Group? && !t.Constrained? ==> !t'.Choice? && !t'.Group? && !t'.Constrained?)
            && (FlatInside(t', all) && t'.Choice? ==> forall a | a in t'.arms :: Flat(a, all))
            && (FlatInside(t', all) && !t'.Choice? && !t'.Group? && !t'.Constrained? ==> Flat(t', all))
  {
    hide Rewrite, RewriteArms, RewriteGroup;
  }

  lemma {:induction false} RewriteInsideFlattens(t: TypeExpression, name: string, all: bool, st: State)
    ensures FlatInside(RewriteInside(t, name, all, st).0, all) && Grown(st, RewriteInside(t, name, all, st).1, all)
    decreases t, 0
  {
    hide Grown, Rewrite, RewriteGroup, RewriteArms, Flat, FlatGroup;
    match t {
      case Array(element, occurrence) => RewriteFlattens(element, name + "_item", all, st);
      case Map(key, value, occurrence) =>
        var (key', st1) := Rewrite(key, name + "_key", all, st);
        RewriteFlattens(key, name + "_key", all, st);
        RewriteFlattens(value, name + "_value", all, st1);
        GrownTransitive(st, st1, Rewrite(value, name + "_value", all, st1).1, all);
      case Tuple(g) => RewriteGroupFlattens(g, name, all, st);
      case Group(g) => RewriteGroupFlattens(g, name, all, st);
      case Choice(arms) => RewriteArmsFlattens(arms, name, 0, all, st);
      case Constrained(base, constraints) => RewriteInsideFlattens(base, name, all, st);
      case _ => GrownByNothing(st, all);
    }
  }

  lemma GrownByNothing(st: State, all: bool)
    ensures Grown(st, st, all)
  {
  }

  lemma {:induction false} RewriteGroupFlattens(g: GroupExpression, owner: string, all: bool, st: State)
    ensures FlatGroup(RewriteGroup(g, owner, all, st).0, all) && Grown(st, RewriteGroup(g, owner, all, st).1, all)
    decreases g, 2
  {
    hide Grown, RewriteEntries, FlatEntry;
    RewriteEntriesFlattens(g.entries, owner, 0, all, st);
  }

  lemma {:induction false} RewriteEntriesFlattens(es: seq<GroupEntry>, owner: string, i: nat, all: bool, st: State)
    ensures forall e | e in RewriteEntries(es, owner, i, all, st).0 :: FlatEntry(e, all)
    ensures Grown(st, RewriteEntries(es, owner, i, all, st).1, all)
    decreases es, 4
  {
    hide Grown, RewriteEntry, FlatEntry;
    if es == [] {
      GrownByNothing(st, all);
    } else {
      var name := owner + "_" + EntrySuffix(es[0], i);
      var (e, st1) := RewriteEntry(es[0], name, all, st);
      RewriteEntryFlattens(es[0], name, all, st);
      RewriteEntriesFlattens(es[1..], owner, i + 1, all, st1);
      GrownTransitive(st, st1, RewriteEntries(es[1..], owner, i + 1, all, st1).1, all);
    }
  }

  lemma {:induction false} RewriteEntryFlattens(e: GroupEntry, name: string, all: bool, st: State)
    ensures FlatEntry(RewriteEntry(e, name, all, st).0, all) && Grown(st, RewriteEntry(e, name, all, st).1, all)
    decreases e, 3
  {
    hide Grown, Rewrite, Flat;
    RewriteFlattens(e.valueType, name, all, st);
  }

  lemma {:induction false} RewriteArmsFlattens(ts: seq<TypeExpression>, name: string, i: nat, all: bool, st: State)
    ensures forall t | t in RewriteArms(ts, name, i, all, st).0 :: Flat(t, all)
    ensures Grown(st, RewriteArms(ts, name, i, all, st).1, all)
    decreases ts, 4
  {
    hide Grown, Rewrite, Flat;
    if ts == [] {
      GrownByNothing(st, all);
    } else {
      var (t, st1) := Rewrite(ts[0], name + "_" + Decimal(i), all, st);
      RewriteFlattens(ts[0], name + "_" + Decimal(i), all, st);
      RewriteArmsFlattens(ts[1..], name, i + 1, all, st1);
      GrownTransitive(st, st1, RewriteArms(ts[1..], name, i + 1, all, st1).1, all);
    }
  }

  lemma {:induction false} RewriteGroupsFlattens(gs: seq<GroupExpression>, name: string, i: nat, all: bool, st: State)
    ensures forall g | g in RewriteGroups(gs, name, i, all, st).0 :: FlatGroup(g, all)
    ensures Grown(st, RewriteGroups(gs, name, i, all, st).1, all)
    decreases |gs|
  {
    hide Grown, RewriteGroup, FlatGroup;
    if gs == [] {
      GrownByNothing(st, all);
    } else {
      var (g, st1) := RewriteGroup(gs[0], name + "_" + Decimal(i), all, st);
      RewriteGroupFlattens(gs[0], name + "_" + Decimal(i), all, st);
      RewriteGroupsFlattens(gs[1..], name, i + 1, all, st1);
      GrownTransitive(st, st1, RewriteGroups(gs[1..], name, i + 1, all, st1).1, all);
    }
  }

  lemma RewriteRuleFlattens(rule: Rule, all: bool, st: State)
    ensures FlatRule(RewriteRule(rule, all, st).0, all) && Grown(st, RewriteRule(rule, all, st).1, all)
    ensures RewriteRule(rule, all, st).0.name == rule.name
  {
    hide Grown, RewriteGroup, RewriteInside, RewriteArms, RewriteGroups, FlatGroup, FlatInside, Flat;
    match rule.ruleType {
      case GroupDef(g) => RewriteGroupFlattens(g, rule.name, all, st);
      case TypeDef(t) => RewriteInsideFlattens(t, rule.name, all, st);
      case TypeChoice(arms) => RewriteArmsFlattens(arms, rule.name, 0, all, st);
      case GroupChoice(groups) => RewriteGroupsFlattens(groups, rule.name, 0, all, st);
      case ServiceDef(_) => GrownByNothing(st, all);
    }
  }

  lemma {:induction false} RewriteRulesFlattens(rules: seq<Rule>, all: bool, st: State)
    ensures var (rules', st') := RewriteRules(rules, all, st);
            && (forall i :: 0 <= i < |rules| ==> FlatRule(rules'[i], all) && rules'[i].name == rules[i].name)
            && Grown(st, st', all)
    decreases |rules|
  {
    hide Grown, RewriteRule, FlatRule;
    if rules == [] {
      GrownByNothing(st, all);
    } else {
      var (rule, st1) := RewriteRule(rules[0], all, st);
      RewriteRuleFlattens(rules[0], all, st);
      RewriteRulesFlattens(rules[1..], all, st1);
      GrownTransitive(st, st1, RewriteRules(rules[1..], all, st1).1, all);
    }
  }

  // ---- main results ---------------------------------------------------------------------------------------

  /** After hoisting no position of any rule is hoistable; the rules keep their names and order;
      and every synthesized name is new under the case- and separator-blind key. */
  lemma {:induction false} HoistedIsFlat(rules: seq<Rule>, all: bool)
    ensures var out := Hoisted(rules, all);
            && |out| >= |rules|
            && (forall r | r in out :: FlatRule(r, all))
            && (forall i :: 0 <= i < |rules| ==> out[i].name == rules[i].name)
            && (forall i, j :: |rules| <= j < |out| && 0 <= i < j ==>
                  CanonicalKey(out[i].name) != CanonicalKey(out[j].name))
  {
    hide RewriteRules, FlatRule, CanonicalKey;
    var st := State([], KeysOf(rules));
    RewriteRulesFlattens(rules, all, st);
    var (rewritten, st') := RewriteRules(rules, all, st);
    var out := Hoisted(rules, all);
    forall i, j | |rules| <= j < |out| && 0 <= i < j ensures CanonicalKey(out[i].name) != CanonicalKey(out[j].name) {
      if i < |rules| {
        assert rules[i] in rules && CanonicalKey(rules[i].name) in st.used;
      }
    }
  }

  // ---- a second hoist ---------------------------------------------------------------------------------------

  lemma {:induction false} FlatUnchanged(t: TypeExpression, name: string, all: bool, st: State)
    requires Flat(t, all)
    ensures Rewrite(t, name, all, st) == (t, st)
    decreases t, 1
  {
    hide RewriteInside, FlatInside, Classify, Reserve, RewriteArms, RewriteGroup;
    match t {
      case Constrained(base, _) => FlatUnchanged(base, name, all, st);
      case Choice(arms) =>
        FlatChoiceBody(arms, all);
        FlatInsideUnchanged(t, name, all, st);
      case _ => FlatInsideUnchanged(t, name, all, st);
    }
  }

  lemma {:induction false} FlatInsideUnchanged(t: TypeExpression, name: string, all: bool, st: State)
    requires FlatInside(t, all)
    ensures RewriteInside(t, name, all, st) == (t, st)
    decreases t, 0
  {
    hide RewriteArms, RewriteGroup, Rewrite, Flat, FlatGroup;
    match t {
      case Constrained(base, _) => FlatInsideUnchanged(base, name, all, st);
      case Array(element, _) => FlatUnchanged(element, name + "_item", all, st);
      case Map(key, value, _) =>
        FlatUnchanged(key, name + "_key", all, st);
        FlatUnchanged(value, name + "_value", all, st);
      case Tuple(g) => FlatGroupUnchanged(g, name, all, st);
      case Group(g) => FlatGroupUnchanged(g, name, all, st);
      case Choice(arms) => FlatArmsUnchanged(arms, name, 0, all, st);
      case _ =>
    }
  }

  lemma {:induction false} FlatGroupUnchanged(g: GroupExpression, owner: string, all: bool, st: State)
    requires FlatGroup(g, all)
    ensures RewriteGroup(g, owner, all, st) == (g, st)
    decreases g, 4
  {
    FlatEntriesUnchanged(g.entries, owner, 0, all, st);
  }

  lemma {:induction false} FlatEntriesUnchanged(es: seq<GroupEntry>, owner: string, i: nat, all: bool, st: State)
    requires forall e | e in es :: FlatEntry(e, all)
    ensures RewriteEntries(es, owner, i, all, st) == (es, st)
    decreases es, 3
  {
    hide RewriteEntry, FlatEntry;
    if es != [] {
      FlatEntryUnchanged(es[0], owner + "_" + EntrySuffix(es[0], i), all, st);
      FlatEntriesUnchanged(es[1..], owner, i + 1, all, st);
      assert es == [es[0]] + es[1..];
    }
  }

  lemma {:induction false} FlatEntryUnchanged(e: GroupEntry, name: string, all: bool, st: State)
    requires FlatEntry(e, all)
    ensures RewriteEntry(e, name, all, st) == (e, st)
    decreases e, 2
  {
    hide Rewrite, Flat, FlatInside, RewriteInside;
    FlatUnchanged(e.valueType, name, all, st);
  }

  lemma {:induction false} FlatArmsUnchanged(ts: seq<TypeExpression>, name: string, i: nat, all: bool, st: State)
    requires forall t | t in ts :: Flat(t, all)
    ensures RewriteArms(ts, name, i, all, st) == (ts, st)
    decreases ts, 3
  {
    hide Rewrite, Flat, FlatInside, RewriteInside;
    if ts != [] {
      FlatUnchanged(ts[0], name + "_" + Decimal(i), all, st);
      FlatArmsUnchanged(ts[1..], name, i + 1, all, st);
      assert ts == [ts[0]] + ts[1..];
    }
  }

  lemma {:induction false} FlatGroupsUnchanged(gs: seq<GroupExpression>, name: string, i: nat, all: bool, st: State)
    requires forall g | g in gs :: FlatGroup(g, all)
    ensures RewriteGroups(gs, name, i, all, st) == (gs, st)
    decreases |gs|
  {
    hide RewriteGroup, FlatGroup;
    if gs != [] {
      FlatGroupUnchanged(gs[0], name + "_" + Decimal(i), all, st);
      FlatGroupsUnchanged(gs[1..], name, i + 1, all, st);
      assert gs == [gs[0]] + gs[1..];
    }
  }

  lemma FlatRuleUnchanged(rule: Rule, all: bool, st: State)
    requires FlatRule(rule, all)
    ensures RewriteRule(rule, all, st) == (rule, st)
  {
    hide Rewrite, RewriteGroup, RewriteInside, RewriteArms, RewriteGroups, FlatGroup, FlatInside, Flat;
    match rule.ruleType {
      case GroupDef(g) => FlatGroupUnchanged(g, rule.name, all, st);
      case TypeDef(t) => FlatInsideUnchanged(t, rule.name, all, st);
      case TypeChoice(arms) => FlatArmsUnchanged(arms, rule.name, 0, all, st);
      case GroupChoice(groups) => FlatGroupsUnchanged(groups, rule.name, 0, all, st);
      case ServiceDef(_) =>
    }
  }

  lemma {:induction false} FlatRulesUnchanged(rules: seq<Rule>, all: bool, st: State)
    requires forall r | r in rules :: FlatRule(r, all)
    ensures RewriteRules(rules, all, st) == (rules, st)
    decreases |rules|
  {
    hide RewriteRule, FlatRule;
    if rules != [] {
      FlatRuleUnchanged(rules[0], all, st);
      FlatRulesUnchanged(rules[1..], all, st);
      assert rules == [rules[0]] + rules[1..];
    }
  }

  /** A second hoist adds nothing and changes nothing. */
  lemma {:induction false} HoistIdempotent(rules: seq<Rule>, all: bool)
    ensures Hoisted(Hoisted(rules, all), all) == Hoisted(rules, all)
  {
    hide RewriteRules, FlatRule, CanonicalKey;
    var out := Hoisted(rules, all);
    HoistedIsFlat(rules, all);
    FlatRulesUnchanged(out, all, State([], KeysOf(out)));
  }
}
