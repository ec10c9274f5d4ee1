/** Where every synthesized name and rule comes from: each hoisted position has its own rule, named after
    the path to it, and the rules stand in the order the positions are left. Nothing here mentions how
    the rewrite is done. */
module HoistOrigins {
  import opened Basics
  import opened Ast
  import opened ChoiceShape
  import opened Hoist
  import opened HoistShape

  /** A finished hoist: the rules made, in order, and the canonical keys of all rules there are. */
  datatype Outcome = Outcome(made: seq<Rule>, keys: set<string>, all: bool)

  /** Literals alone stay inline, unless the generator wants them hoisted too. */
  predicate IsHoisted(arms: seq<TypeExpression>, all: bool) {
    all || arms == [] || exists i :: 0 <= i < |arms| && ArmLiteral(arms[i]).None?
  }

  /** `base` for the first try, then `base_2`, `base_3`, and so on. */
  function Spelled(base: string, n: nat): string {
    if n <= 1 then base else base + "_" + Decimal(n)
  }

  /** `name` is `base`, with a number behind it only where all names before that one were taken. */
  ghost predicate NumberedFrom(name: string, base: string, keys: set<string>) {
    exists n | n >= 1 ::
      name == Spelled(base, n) && forall m :: 1 <= m < n ==> CanonicalKey(Spelled(base, m)) in keys
  }

  /** `t` was replaced by a reference to the last of the rules from `lo` to `hi`. */
  ghost predicate HasOwnRule(t: TypeExpression, name: string, o: Outcome, lo: nat, hi: nat) {
    && t.Reference? && lo < hi <= |o.made| && NumberedFrom(t.name, name, o.keys)
    && o.made[hi - 1] == Rule(t.name, o.made[hi - 1].ruleType, 0, [])
  }

  /** `t` stood in a position called `name`, and `t'` does now; the rules made for it and for what is in it
      are those from `lo` to `hi`. */
  ghost predicate Position(t: TypeExpression, t': TypeExpression, name: string, o: Outcome, lo: nat, hi: nat)
    decreases t, 1
  {
    match t
    case Constrained(base, constraints) =>
      t'.Constrained? && t'.constraints == constraints && Position(base, t'.base, name, o, lo, hi)
    case Group(g) =>
      && HasOwnRule(t', name, o, lo, hi) && o.made[hi - 1].ruleType.GroupDef?
      && Fields(g, o.made[hi - 1].ruleType.group, t'.name, o, lo, hi - 1)
    case Choice(arms) =>
      if IsHoisted(arms, o.all) then
        && HasOwnRule(t', name, o, lo, hi) && o.made[hi - 1].ruleType.TypeDef?
        && o.made[hi - 1].ruleType.typ.Choice?
        && Arms(arms, o.made[hi - 1].ruleType.typ.arms, t'.name, 0, o, lo, hi - 1)
      else Inside(t, t', name, o, lo, hi)
    case _ => Inside(t, t', name, o, lo, hi)
  }

  /** The position keeps its own shape; what is nested in it is called after it. */
  ghost predicate Inside(t: TypeExpression, t': TypeExpression, name: string, o: Outcome, lo: nat, hi: nat)
    decreases t, 0
  {
    match t
    case Array(element, occurrence) =>
      t'.Array? && t'.occurrence == occurrence && Position(element, t'.element, name + "_item", o, lo, hi)
    case Map(key, value, occurrence) =>
      && t'.Map? && t'.occurrence == occurrence
      && exists mid: nat ::
           Position(key, t'.key, name + "_key", o, lo, mid) && Position(value, t'.value, name + "_value", o, mid, hi)
    case Tuple(g) => t'.Tuple? && Fields(g, t'.group, name, o, lo, hi)
    case Group(g) => t'.Group? && Fields(g, t'.group, name, o, lo, hi)
    case Choice(arms) => t'.Choice? && Arms(arms, t'.arms, name, 0, o, lo, hi)
    case Constrained(base, constraints) =>
      t'.Constrained? && t'.constraints == constraints && Inside(base, t'.base, name, o, lo, hi)
    case _ => t' == t && lo == hi
  }

  ghost predicate Fields(g: GroupExpression, g': GroupExpression, owner: string, o: Outcome, lo: nat, hi: nat)
    decreases g, 2
  {
    Entries(g.entries, g'.entries, owner, 0, o, lo, hi)
  }

  /** An entry is called after its field, or after its place where it has no field name. */
  function Fragment(e: GroupEntry, i: nat): string {
    if e.key.Some? && e.key.value.Bare? then e.key.value.name
    else if e.key.Some? && e.key.value.LiteralKey? && e.key.value.lit.Text? then e.key.value.lit.s
    else Decimal(i)
  }

  ghost predicate Entries(
      es: seq<GroupEntry>, es': seq<GroupEntry>, owner: string, i: nat, o: Outcome, lo: nat, hi: nat)
    decreases es, 4
  {
    && |es'| == |es|
    && if es == [] then lo == hi
       else exists mid: nat ::
              && Field(es[0], es'[0], owner + "_" + Fragment(es[0], i), o, lo, mid)
              && Entries(es[1..], es'[1..], owner, i + 1, o, mid, hi)
  }

  ghost predicate Field(e: GroupEntry, e': GroupEntry, name: string, o: Outcome, lo: nat, hi: nat)
    decreases e, 3
  {
    e' == e.(valueType := e'.valueType) && Position(e.valueType, e'.valueType, name, o, lo, hi)
  }

  ghost predicate Arms(
      ts: seq<TypeExpression>, ts': seq<TypeExpression>, name: string, i: nat, o: Outcome, lo: nat, hi: nat)
    decreases ts, 4
  {
    && |ts'| == |ts|
    && if ts == [] then lo == hi
       else exists mid: nat ::
              && Position(ts[0], ts'[0], name + "_" + Decimal(i), o, lo, mid)
              && Arms(ts[1..], ts'[1..], name, i + 1, o, mid, hi)
  }

  ghost predicate Groups(
      gs: seq<GroupExpression>, gs': seq<GroupExpression>, name: string, i: nat, o: Outcome, lo: nat, hi: nat)
    decreases |gs|
  {
    && |gs'| == |gs|
    && if gs == [] then lo == hi
       else exists mid: nat ::
              && Fields(gs[0], gs'[0], name + "_" + Decimal(i), o, lo, mid)
              && Groups(gs[1..], gs'[1..], name, i + 1, o, mid, hi)
  }

  /** A rule keeps its name and all but its type; a composite that is the rule itself stays. */
  ghost predicate RuleKept(r: Rule, r': Rule, o: Outcome, lo: nat, hi: nat) {
    && r' == r.(ruleType := r'.ruleType)
    && match r.ruleType
       case GroupDef(g) => r'.ruleType.GroupDef? && Fields(g, r'.ruleType.group, r.name, o, lo, hi)
       case TypeDef(t) => r'.ruleType.TypeDef? && Inside(t, r'.ruleType.typ, r.name, o, lo, hi)
       case TypeChoice(arms) => r'.ruleType.TypeChoice? && Arms(arms, r'.ruleType.arms, r.name, 0, o, lo, hi)
       case GroupChoice(groups) => r'.ruleType.GroupChoice? && Groups(groups, r'.ruleType.groups, r.name, 0, o, lo, hi)
       case ServiceDef(_) => r' == r && lo == hi
  }

  ghost predicate RulesKept(rules: seq<Rule>, rules': seq<Rule>, o: Outcome, lo: nat, hi: nat)
    decreases |rules|
  {
    && |rules'| == |rules|
    && if rules == [] then lo == hi
       else exists mid: nat ::
              RuleKept(rules[0], rules'[0], o, lo, mid) && RulesKept(rules[1..], rules'[1..], o, mid, hi)
  }

  // ---- the rewrite does that -------------------------------------------------------------------------------

  /** What was made and taken up to `st'` is part of the outcome. */
  ghost predicate Within(st': State, o: Outcome) {
    st'.synth <= o.made && st'.used <= o.keys
  }

  lemma WithinEarlier(st: State, st': State, o: Outcome)
    requires Grown(st, st', o.all) && Within(st', o)
    ensures Within(st, o) && |st.synth| <= |st'.synth|
  {
    hide FlatRule, CanonicalKey;
  }

  lemma ReserveWithin(st: State, base: string, st2: State, o: Outcome)
    requires Grown(Reserve(st, base).1, st2, o.all) && st2.used <= o.keys
    ensures NumberedFrom(Reserve(st, base).0, base, o.keys) && |st.synth| <= |st2.synth|
  {
    hide FlatRule, CanonicalKey;
    var k := FirstFree(st.used, base, 1, st.used);
    assert Reserve(st, base).0 == Candidate(base, k) == Spelled(base, k);
    forall m | 1 <= m < k ensures CanonicalKey(Spelled(base, m)) in o.keys {
      assert CanonicalKey(Candidate(base, m)) in st.used && Spelled(base, m) == Candidate(base, m);
    }
  }

  lemma CompositeExactly(arms: seq<TypeExpression>, all: bool)
    ensures Hoistable(arms, all) <==> IsHoisted(arms, all)
  {
    hide Classify;
    EnumExactly(arms);
  }

  lemma FragmentIsSuffix(e: GroupEntry, i: nat)
    ensures EntrySuffix(e, i) == Fragment(e, i)
  {
  }

  /** The rule of a hoisted position is pushed last. */
  lemma OwnRulePushed(st: State, base: string, st2: State, body: RuleType, o: Outcome)
    requires Grown(Reserve(st, base).1, st2, o.all)
    requires Within(st2.(synth := st2.synth + [Synthesized(Reserve(st, base).0, body)]), o)
    ensures Within(st2, o) && |st.synth| <= |st2.synth| < |o.made|
    ensures HasOwnRule(Reference(Reserve(st, base).0), base, o, |st.synth|, |st2.synth| + 1)
    ensures o.made[|st2.synth|].ruleType == body
  {
    hide Reserve, Grown, NumberedFrom;
    ReserveWithin(st, base, st2, o);
    var last := Synthesized(Reserve(st, base).0, body);
    assert (st2.synth + [last])[|st2.synth|] == last;
    assert st2.synth <= st2.synth + [last];
  }

  lemma {:induction false} RewritePosition(t: TypeExpression, name: string, st: State, o: Outcome)
    requires Within(Rewrite(t, name, o.all, st).1, o)
    ensures var (t', st') := Rewrite(t, name, o.all, st);
            Position(t, t', name, o, |st.synth|, |st'.synth|)
    decreases t, 1
  {
    hide RewriteInside, RewriteGroup, RewriteArms, Reserve, Hoistable, IsHoisted, Inside, Fields, Arms, HasOwnRule,
      Within, Grown, FlatGroup, Flat;
    match t {
      case Constrained(base, _) => RewritePosition(base, name, st, o);
      case Group(g) =>
        var (own, st1) := Reserve(st, name);
        var (g', st2) := RewriteGroup(g, own, o.all, st1);
        RewriteGroupFlattens(g, own, o.all, st1);
        OwnRulePushed(st, name, st2, GroupDef(g'), o);
        ReserveAddsNoRule(st, name);
        RewriteFields(g, own, st1, o);
      case Choice(arms) =>
        CompositeExactly(arms, o.all);
        if Hoistable(arms, o.all) {
          var (own, st1) := Reserve(st, name);
          var (arms', st2) := RewriteArms(arms, own, 0, o.all, st1);
          RewriteArmsFlattens(arms, own, 0, o.all, st1);
          OwnRulePushed(st, name, st2, TypeDef(Choice(arms')), o);
          ReserveAddsNoRule(st, name);
          RewriteEachArm(arms, own, 0, st1, o);
        } else {
          RewriteWithin(t, name, st, o);
        }
      case _ => RewriteWithin(t, name, st, o);
    }
  }

  lemma ReserveAddsNoRule(st: State, base: string)
    ensures Reserve(st, base).1.synth == st.synth
  {
  }

  lemma {:induction false} RewriteWithin(t: TypeExpression, name: string, st: State, o: Outcome)
    requires Within(RewriteInside(t, name, o.all, st).1, o)
    ensures var (t', st') := RewriteInside(t, name, o.all, st);
            Inside(t, t', name, o, |st.synth|, |st'.synth|)
    decreases t, 0
  {
    hide Rewrite, RewriteGroup, RewriteArms, Position, Fields, Arms, Within, Grown, Flat;
    match t {
      case Array(element, _) => RewritePosition(element, name + "_item", st, o);
      case Map(key, value, _) =>
        var st1 := Rewrite(key, name + "_key", o.all, st).1;
        RewriteFlattens(value, name + "_value", o.all, st1);
        WithinEarlier(st1, Rewrite(value, name + "_value", o.all, st1).1, o);
        RewritePosition(key, name + "_key", st, o);
        RewritePosition(value, name + "_value", st1, o);
      case Tuple(g) => RewriteFields(g, name, st, o);
      case Group(g) => RewriteFields(g, name, st, o);
      case Choice(arms) => RewriteEachArm(arms, name, 0, st, o);
      case Constrained(base, _) => RewriteWithin(base, name, st, o);
      case _ =>
    }
  }

  lemma {:induction false} RewriteFields(g: GroupExpression, owner: string, st: State, o: Outcome)
    requires Within(RewriteGroup(g, owner, o.all, st).1, o)
    ensures var (g', st') := RewriteGroup(g, owner, o.all, st);
            Fields(g, g', owner, o, |st.synth|, |st'.synth|)
    decreases g, 2
  {
    hide RewriteEntries, Entries, Within;
    RewriteEachEntry(g.entries, owner, 0, st, o);
  }

  lemma {:induction false} RewriteEachEntry(es: seq<GroupEntry>, owner: string, i: nat, st: State, o: Outcome)
    requires Within(RewriteEntries(es, owner, i, o.all, st).1, o)
    ensures var (es', st') := RewriteEntries(es, owner, i, o.all, st);
            Entries(es, es', owner, i, o, |st.synth|, |st'.synth|)
    decreases es, 4
  {
    hide RewriteEntry, Field, Within, Grown, FlatEntry, EntrySuffix, Fragment;
    if es != [] {
      FragmentIsSuffix(es[0], i);
      var name := owner + "_" + EntrySuffix(es[0], i);
      var (e, st1) := RewriteEntry(es[0], name, o.all, st);
      var (rest, st2) := RewriteEntries(es[1..], owner, i + 1, o.all, st1);
      RewriteEntriesFlattens(es[1..], owner, i + 1, o.all, st1);
      WithinEarlier(st1, st2, o);
      RewriteField(es[0], name, st, o);
      RewriteEachEntry(es[1..], owner, i + 1, st1, o);
      var es' := [e] + rest;
      assert es'[1..] == rest && RewriteEntries(es, owner, i, o.all, st) == (es', st2);
      assert Field(es[0], es'[0], name, o, |st.synth|, |st1.synth|);
    }
  }

  lemma {:induction false} RewriteField(e: GroupEntry, name: string, st: State, o: Outcome)
    requires Within(RewriteEntry(e, name, o.all, st).1, o)
    ensures var (e', st') := RewriteEntry(e, name, o.all, st);
            Field(e, e', name, o, |st.synth|, |st'.synth|)
    decreases e, 3
  {
    hide Rewrite, Position, Within;
    RewritePosition(e.valueType, name, st, o);
  }

  lemma {:induction false} RewriteEachArm(ts: seq<TypeExpression>, name: string, i: nat, st: State, o: Outcome)
    requires Within(RewriteArms(ts, name, i, o.all, st).1, o)
    ensures var (ts', st') := RewriteArms(ts, name, i, o.all, st);
            Arms(ts, ts', name, i, o, |st.synth|, |st'.synth|)
    decreases ts, 4
  {
    hide Rewrite, Position, Within, Grown, Flat;
    if ts != [] {
      var own := name + "_" + Decimal(i);
      var (t, st1) := Rewrite(ts[0], own, o.all, st);
      var (rest, st2) := RewriteArms(ts[1..], name, i + 1, o.all, st1);
      RewriteArmsFlattens(ts[1..], name, i + 1, o.all, st1);
      WithinEarlier(st1, st2, o);
      RewritePosition(ts[0], own, st, o);
      RewriteEachArm(ts[1..], name, i + 1, st1, o);
      var ts' := [t] + rest;
      assert ts'[1..] == rest && RewriteArms(ts, name, i, o.all, st) == (ts', st2);
      assert Position(ts[0], ts'[0], own, o, |st.synth|, |st1.synth|);
    }
  }

  lemma {:induction false} RewriteEachGroup(gs: seq<GroupExpression>, name: string, i: nat, st: State, o: Outcome)
    requires Within(RewriteGroups(gs, name, i, o.all, st).1, o)
    ensures var (gs', st') := RewriteGroups(gs, name, i, o.all, st);
            Groups(gs, gs', name, i, o, |st.synth|, |st'.synth|)
    decreases |gs|
  {
    hide RewriteGroup, Fields, Within, Grown, FlatGroup;
    if gs != [] {
      var own := name + "_" + Decimal(i);
      var (g, st1) := RewriteGroup(gs[0], own, o.all, st);
      var (rest, st2) := RewriteGroups(gs[1..], name, i + 1, o.all, st1);
      RewriteGroupsFlattens(gs[1..], name, i + 1, o.all, st1);
      WithinEarlier(st1, st2, o);
      RewriteFields(gs[0], own, st, o);
      RewriteEachGroup(gs[1..], name, i + 1, st1, o);
      var gs' := [g] + rest;
      assert gs'[1..] == rest && RewriteGroups(gs, name, i, o.all, st) == (gs', st2);
      assert Fields(gs[0], gs'[0], own, o, |st.synth|, |st1.synth|);
    }
  }

  lemma {:induction false} RewriteKeepsRule(rule: Rule, st: State, o: Outcome)
    requires Within(RewriteRule(rule, o.all, st).1, o)
    ensures var (rule', st') := RewriteRule(rule, o.all, st);
            RuleKept(rule, rule', o, |st.synth|, |st'.synth|)
  {
    hide RewriteGroup, RewriteInside, RewriteArms, RewriteGroups, Fields, Inside, Arms, Groups, Within;
    match rule.ruleType {
      case GroupDef(g) => RewriteFields(g, rule.name, st, o);
      case TypeDef(t) => RewriteWithin(t, rule.name, st, o);
      case TypeChoice(arms) => RewriteEachArm(arms, rule.name, 0, st, o);
      case GroupChoice(groups) => RewriteEachGroup(groups, rule.name, 0, st, o);
      case ServiceDef(_) =>
    }
  }

  lemma {:induction false} RewriteKeepsRules(rules: seq<Rule>, st: State, o: Outcome)
    requires Within(RewriteRules(rules, o.all, st).1, o)
    ensures var (rules', st') := RewriteRules(rules, o.all, st);
            RulesKept(rules, rules', o, |st.synth|, |st'.synth|)
    decreases |rules|
  {
    hide RewriteRule, RuleKept, Within, Grown, FlatRule;
    if rules != [] {
      var (rule, st1) := RewriteRule(rules[0], o.all, st);
      var (rest, st2) := RewriteRules(rules[1..], o.all, st1);
      RewriteRulesFlattens(rules[1..], o.all, st1);
      WithinEarlier(st1, st2, o);
      RewriteKeepsRule(rules[0], st, o);
      RewriteKeepsRules(rules[1..], st1, o);
      assert ([rule] + rest)[1..] == rest;
    }
  }

  /** Main result: after hoisting every original rule stands in its place, every composite in it faces a rule
      named after the path to it, every other position is as it was, and the rules made are those of the
      composites in this order, each once. */
  lemma {:induction false} NamesTellPositions(rules: seq<Rule>, all: bool)
    ensures var out := Hoisted(rules, all);
            var made := out[|rules|..];
            RulesKept(rules, out[..|rules|], Outcome(made, KeysOf(out), all), 0, |made|)
  {
    hide RewriteRules, RulesKept, FlatRule, CanonicalKey;
    var start := State([], KeysOf(rules));
    var (rewritten, st) := RewriteRules(rules, all, start);
    var out := Hoisted(rules, all);
    assert out[..|rules|] == rewritten && out[|rules|..] == st.synth;
    RewriteRulesFlattens(rules, all, start);
    forall k | k in st.used ensures k in KeysOf(out) {
      if k in start.used {
        var r :| r in rules && CanonicalKey(r.name) == k;
        var i :| 0 <= i < |rules| && rules[i] == r;
        assert out[i] in out && out[i].name == r.name;
      } else {
        assert AddsKey(start, st, k);
        var i :| 0 <= i < |st.synth| && CanonicalKey(st.synth[i].name) == k;
        assert out[|rules| + i] == st.synth[i] && out[|rules| + i] in out;
      }
    }
    RewriteKeepsRules(rules, start, Outcome(st.synth, KeysOf(out), all));
  }
}
