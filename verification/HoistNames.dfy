/** A synthesized name reads back to its origin: it starts with the name of the rule the composite
    was written in. */
module HoistNames {
  import opened Basics
  import opened Ast
  import opened Hoist
  import opened HoistShape

  /** The body of a composite. */
  predicate IsComposite(t: RuleType) {
    t.GroupDef? || (t.TypeDef? && t.typ.Choice?)
  }

  /** Every rule added from `st` to `st'` is a composite with a name that starts with `p`. */
  predicate AddedUnder(st: State, st': State, p: string) {
    && |st.synth| <= |st'.synth|
    && forall i :: |st.synth| <= i < |st'.synth| ==> p <= st'.synth[i].name && IsComposite(st'.synth[i].ruleType)
  }

  lemma Under(p: string, q: string, more: string)
    requires p <= q
    ensures p <= q + more
  {
  }

  lemma UnderReserved(p: string, used: set<string>, base: string)
    requires p <= base
    ensures p <= ReservedName(used, base)
  {
    hide FirstFree;
    assert base <= base + "_" + Decimal(FirstFree(used, base, 1, used));
  }

  lemma AddedTogether(a: State, b: State, c: State, p: string)
    requires AddedUnder(a, b, p) && AddedUnder(b, c, p) && b.synth <= c.synth
    ensures AddedUnder(a, c, p)
  {
    assert forall i :: 0 <= i < |b.synth| ==> c.synth[i] == b.synth[i];
  }

  lemma {:induction false} RewriteUnder(t: TypeExpression, name: string, all: bool, st: State, p: string)
    requires p <= name
    ensures AddedUnder(st, Rewrite(t, name, all, st).1, p)
    decreases t, 1
  {
    hide RewriteInside, RewriteGroup, RewriteArms, ReservedName, Hoistable;
    match t {
      case Constrained(base, _) => RewriteUnder(base, name, all, st, p);
      case Group(g) =>
        var (own, st1) := Reserve(st, name);
        UnderReserved(p, st.used, name);
        Under(p, own, "_");
        RewriteGroupUnder(g, own, all, st1, p);
      case Choice(arms) =>
        if Hoistable(arms, all) {
          var (own, st1) := Reserve(st, name);
          UnderReserved(p, st.used, name);
          Under(p, own, "_");
          RewriteArmsUnder(arms, own, 0, all, st1, p);
        } else {
          Under(p, name, "_");
          RewriteInsideUnder(t, name, all, st, p);
        }
      case _ =>
        Under(p, name, "_");
        RewriteInsideUnder(t, name, all, st, p);
    }
  }

  lemma {:induction false} RewriteInsideUnder(t: TypeExpression, name: string, all: bool, st: State, p: string)
    requires p <= name + "_"
    ensures AddedUnder(st, RewriteInside(t, name, all, st).1, p)
    decreases t, 0
  {
    hide Rewrite, RewriteGroup, RewriteArms;
    Under(p, name + "_", "item");
    Under(p, name + "_", "key");
    Under(p, name + "_", "value");
    assert name + "_" + "item" == name + "_item" && name + "_" + "key" == name + "_key"
        && name + "_" + "value" == name + "_value";
    match t {
      case Array(element, _) => RewriteUnder(element, name + "_item", all, st, p);
      case Map(key, value, _) =>
        var st1 := Rewrite(key, name + "_key", all, st).1;
        RewriteUnder(key, name + "_key", all, st, p);
        RewriteUnder(value, name + "_value", all, st1, p);
        RewriteFlattens(value, name + "_value", all, st1);
        AddedTogether(st, st1, Rewrite(value, name + "_value", all, st1).1, p);
      case Tuple(g) => RewriteGroupUnder(g, name, all, st, p);
      case Group(g) => RewriteGroupUnder(g, name, all, st, p);
      case Choice(arms) => RewriteArmsUnder(arms, name, 0, all, st, p);
      case Constrained(base, _) => RewriteInsideUnder(base, name, all, st, p);
      case _ =>
    }
  }

  lemma {:induction false} RewriteGroupUnder(g: GroupExpression, owner: string, all: bool, st: State, p: string)
    requires p <= owner + "_"
    ensures AddedUnder(st, RewriteGroup(g, owner, all, st).1, p)
    decreases g, 2
  {
    RewriteEntriesUnder(g.entries, owner, 0, all, st, p);
  }

  lemma {:induction false} RewriteEntriesUnder(
      es: seq<GroupEntry>, owner: string, i: nat, all: bool, st: State, p: string)
    requires p <= owner + "_"
    ensures AddedUnder(st, RewriteEntries(es, owner, i, all, st).1, p)
    decreases es, 4
  {
    hide RewriteEntry, AddedUnder;
    if es == [] {
      NothingAdded(st, p);
    } else {
      var name := owner + "_" + EntrySuffix(es[0], i);
      var st1 := RewriteEntry(es[0], name, all, st).1;
      Under(p, owner + "_", EntrySuffix(es[0], i));
      RewriteEntryUnder(es[0], name, all, st, p);
      RewriteEntriesUnder(es[1..], owner, i + 1, all, st1, p);
      RewriteEntriesFlattens(es[1..], owner, i + 1, all, st1);
      AddedTogether(st, st1, RewriteEntries(es[1..], owner, i + 1, all, st1).1, p);
    }
  }

  lemma NothingAdded(st: State, p: string)
    ensures AddedUnder(st, st, p)
  {
  }

  lemma {:induction false} RewriteEntryUnder(e: GroupEntry, name: string, all: bool, st: State, p: string)
    requires p <= name
    ensures AddedUnder(st, RewriteEntry(e, name, all, st).1, p)
    decreases e, 3
  {
    hide Rewrite;
    RewriteUnder(e.valueType, name, all, st, p);
  }

  lemma {:induction false} RewriteArmsUnder(
      ts: seq<TypeExpression>, name: string, i: nat, all: bool, st: State, p: string)
    requires p <= name + "_"
    ensures AddedUnder(st, RewriteArms(ts, name, i, all, st).1, p)
    decreases ts, 4
  {
    hide Rewrite, AddedUnder;
    if ts == [] {
      NothingAdded(st, p);
    } else {
      var st1 := Rewrite(ts[0], name + "_" + Decimal(i), all, st).1;
      Under(p, name + "_", Decimal(i));
      RewriteUnder(ts[0], name + "_" + Decimal(i), all, st, p);
      RewriteArmsUnder(ts[1..], name, i + 1, all, st1, p);
      RewriteArmsFlattens(ts[1..], name, i + 1, all, st1);
      AddedTogether(st, st1, RewriteArms(ts[1..], name, i + 1, all, st1).1, p);
    }
  }

  lemma {:induction false} RewriteGroupsUnder(
      gs: seq<GroupExpression>, name: string, i: nat, all: bool, st: State, p: string)
    requires p <= name + "_"
    ensures AddedUnder(st, RewriteGroups(gs, name, i, all, st).1, p)
    decreases |gs|
  {
    hide RewriteGroup, AddedUnder;
    if gs == [] {
      NothingAdded(st, p);
    } else {
      var own := name + "_" + Decimal(i);
      var st1 := RewriteGroup(gs[0], own, all, st).1;
      Under(p, name + "_", Decimal(i));
      Under(p, own, "_");
      RewriteGroupUnder(gs[0], own, all, st, p);
      RewriteGroupsUnder(gs[1..], name, i + 1, all, st1, p);
      RewriteGroupsFlattens(gs[1..], name, i + 1, all, st1);
      AddedTogether(st, st1, RewriteGroups(gs[1..], name, i + 1, all, st1).1, p);
    }
  }

  lemma {:induction false} RewriteRuleUnder(rule: Rule, all: bool, st: State)
    ensures AddedUnder(st, RewriteRule(rule, all, st).1, rule.name + "_")
  {
    hide RewriteGroup, RewriteInside, RewriteArms, RewriteGroups;
    var p := rule.name + "_";
    match rule.ruleType {
      case GroupDef(g) => RewriteGroupUnder(g, rule.name, all, st, p);
      case TypeDef(t) => RewriteInsideUnder(t, rule.name, all, st, p);
      case TypeChoice(arms) => RewriteArmsUnder(arms, rule.name, 0, all, st, p);
      case GroupChoice(groups) => RewriteGroupsUnder(groups, rule.name, 0, all, st, p);
      case ServiceDef(_) => NothingAdded(st, p);
    }
  }

  /** `name` is made from the name of one of `rules`. */
  ghost predicate From(rules: seq<Rule>, name: string) {
    exists r :: r in rules && r.name + "_" <= name
  }

  lemma {:induction false} RewriteRulesUnder(rules: seq<Rule>, all: bool, st: State)
    ensures var st' := RewriteRules(rules, all, st).1;
            && st.synth <= st'.synth
            && forall i :: |st.synth| <= i < |st'.synth| ==>
                 From(rules, st'.synth[i].name) && IsComposite(st'.synth[i].ruleType)
    decreases |rules|
  {
    hide RewriteRule, FlatRule;
    if rules != [] {
      var st1 := RewriteRule(rules[0], all, st).1;
      var end := RewriteRules(rules[1..], all, st1).1;
      RewriteRuleUnder(rules[0], all, st);
      RewriteRuleFlattens(rules[0], all, st);
      RewriteRulesUnder(rules[1..], all, st1);
      forall i | |st.synth| <= i < |end.synth|
        ensures From(rules, end.synth[i].name) && IsComposite(end.synth[i].ruleType)
      {
        if i < |st1.synth| {
          assert end.synth[i] == st1.synth[i] && rules[0] in rules;
        } else {
          assert From(rules[1..], end.synth[i].name);
        }
      }
    }
  }

  /** Every synthesized rule is a composite named after an original rule. */
  lemma {:induction false} NamesTellOrigin(rules: seq<Rule>, all: bool)
    ensures var out := Hoisted(rules, all);
            && |out| >= |rules|
            && forall j :: |rules| <= j < |out| ==> From(rules, out[j].name) && IsComposite(out[j].ruleType)
  {
    hide RewriteRules, From, KeysOf;
    RewriteRulesUnder(rules, all, State([], KeysOf(rules)));
  }
}
