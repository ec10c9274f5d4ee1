/** The hoister as it runs: a growing vector of synthesized rules and a set of taken names. */
module HoistCode {
  import opened Basics
  import opened Bytes
  import opened Ast
  import opened ChoiceShape
  import opened Hoist

  datatype HoistKind = GroupKind(group: GroupExpression) | ChoiceKind(arms: seq<TypeExpression>)

  /** The inline composite at a position, seen through control operators. */
  function HoistKindOf(t: TypeExpression, all: bool): Option<HoistKind> {
    match t
    case Constrained(base, _) => HoistKindOf(base, all)
    case Group(g) => Some(GroupKind(g))
    case Choice(arms) => if all || !AllLiteral(arms) then Some(ChoiceKind(arms)) else None
    case _ => None
  }

  /** The constraint wrappers of `t`, in the same nesting, around `replacement`. */
  function WrapConstrained(t: TypeExpression, replacement: TypeExpression): TypeExpression {
    match t
    case Constrained(base, constraints) => Constrained(WrapConstrained(base, replacement), constraints)
    case _ => replacement
  }

  /** Deciding first and wrapping afterwards does what rewriting under the wrappers does. */
  lemma {:induction false} RewriteByKind(t: TypeExpression, name: string, all: bool, st: State)
    ensures Rewrite(t, name, all, st) ==
      match HoistKindOf(t, all)
      case None => RewriteInside(t, name, all, st)
      case Some(GroupKind(g)) => (
        var (own, st1) := Reserve(st, name);
        var (g', st2) := RewriteGroup(g, own, all, st1);
        (WrapConstrained(t, Reference(own)), st2.(synth := st2.synth + [Synthesized(own, GroupDef(g'))])))
      case Some(ChoiceKind(arms)) => (
        var (own, st1) := Reserve(st, name);
        var (arms', st2) := RewriteArms(arms, own, 0, all, st1);
        (WrapConstrained(t, Reference(own)), st2.(synth := st2.synth + [Synthesized(own, TypeDef(Choice(arms')))])))
    decreases t
  {
    hide Reserve, RewriteGroup, RewriteArms, AllLiteral;
    if t.Constrained? {
      RewriteByKind(t.base, name, all, st);
    }
  }

  function Peeled(t: TypeExpression): TypeExpression {
    if t.Constrained? then Peeled(t.base) else t
  }

  /** What is found lies inside the position, so rewriting it ends. */
  lemma {:induction false} KindIsBelow(t: TypeExpression, all: bool)
    ensures Peeled(t) == t || Peeled(t) < t
    ensures match HoistKindOf(t, all)
            case Some(GroupKind(g)) => Peeled(t) == Group(g)
            case Some(ChoiceKind(arms)) => Peeled(t) == Choice(arms)
            case None => true
    decreases t
  {
    hide AllLiteral;
    if t.Constrained? {
      KindIsBelow(t.base, all);
    }
  }

  /** What a loop that has finished `done` still has to produce. */
  ghost function Collected<T>(done: seq<T>, rest: (seq<T>, State)): (seq<T>, State) {
    (done + rest.0, rest.1)
  }

  lemma CollectedStep<T>(done: seq<T>, item: T, rest: (seq<T>, State))
    ensures Collected(done, ([item] + rest.0, rest.1)) == Collected(done + [item], rest)
  {
    assert done + ([item] + rest.0) == (done + [item]) + rest.0;
  }

  lemma CollectedNothing<T>(rest: (seq<T>, State))
    ensures Collected([], rest) == rest
  {
    assert [] + rest.0 == rest.0;
  }

  lemma CollectedEnd<T>(done: seq<T>, st: State)
    ensures Collected(done, ([], st)) == (done, st)
  {
    assert done + [] == done;
  }

  class Hoister {
    var synth: seq<Rule>
    var used: set<string>
    const all: bool

    ghost function Now(): State
      reads this
    {
      State(synth, used)
    }

    constructor (rules: seq<Rule>, all: bool)
      ensures Now() == State([], KeysOf(rules)) && this.all == all
    {
      this.all := all;
      synth := [];
      used := KeysOf(rules);
    }

    /** Claims the first free name among `base`, `base_2`, `base_3`, ... */
    method Reserve(base: string) returns (name: string)
      modifies this
      ensures (name, Now()) == Hoist.Reserve(old(Now()), base)
    {
      hide CanonicalKey;
      name := base;
      var n: nat := 2;
      ghost var free := FirstFree(used, base, 1, used);
      while CanonicalKey(name) in used
        invariant n >= 2 && name == Candidate(base, n - 1) && n - 1 <= free && used == old(used) && synth == old(synth)
        decreases free - n
      {
        name := base + "_" + Decimal(n);
        n := n + 1;
      }
      used := used + {CanonicalKey(name)};
    }

    method PushRule(name: string, ruleType: RuleType)
      modifies this
      ensures Now() == old(Now()).(synth := old(synth) + [Rule(name, ruleType, 0, [])])
    {
      synth := synth + [Rule(name, ruleType, 0, [])];
    }

    method RewriteRule(rule: Rule) returns (r: Rule)
      modifies this
      ensures (r, Now()) == Hoist.RewriteRule(rule, all, old(Now()))
    {
      hide RewriteArms, RewriteEntries, Rewrite, Hoist.RewriteGroup, Collected;
      match rule.ruleType {
        case GroupDef(g) =>
          var g' := RewriteGroup(g, rule.name);
          r := rule.(ruleType := GroupDef(g'));
        case TypeDef(Group(g)) =>
          var g' := RewriteGroup(g, rule.name);
          r := rule.(ruleType := TypeDef(Group(g')));
        case TypeDef(t) =>
          var t' := RewriteChildren(t, rule.name);
          r := rule.(ruleType := TypeDef(t'));
        case TypeChoice(arms) =>
          var arms' := RewriteEach(arms, rule.name);
          r := rule.(ruleType := TypeChoice(arms'));
        case GroupChoice(groups) =>
          var done: seq<GroupExpression> := [];
          ghost var start := Now();
          assert groups[0..] == groups;
          CollectedNothing(RewriteGroups(groups, rule.name, 0, all, start));
          for i := 0 to |groups|
            invariant |done| == i
            invariant RewriteGroups(groups, rule.name, 0, all, start)
                 == Collected(done, RewriteGroups(groups[i..], rule.name, i, all, Now()))
          {
            var g := RewriteGroup(groups[i], rule.name + "_" + Decimal(i));
            ghost var rest := RewriteGroups(groups[i + 1..], rule.name, i + 1, all, Now());
            assert groups[i..][1..] == groups[i + 1..];
            CollectedStep(done, g, rest);
            done := done + [g];
          }
          assert groups[|groups|..] == [];
          CollectedEnd(done, Now());
          r := rule.(ruleType := GroupChoice(done));
        case ServiceDef(_) => r := rule;
      }
    }

    method RewriteGroup(g: GroupExpression, owner: string) returns (r: GroupExpression)
      modifies this
      ensures (r, Now()) == Hoist.RewriteGroup(g, owner, all, old(Now()))
      decreases g, 2
    {
      hide Rewrite, Collected;
      var done: seq<GroupEntry> := [];
      var es := g.entries;
      assert es[0..] == es;
      CollectedNothing(RewriteEntries(es, owner, 0, all, Now()));
      for i := 0 to |es|
        invariant |done| == i
        invariant RewriteEntries(es, owner, 0, all, old(Now()))
             == Collected(done, RewriteEntries(es[i..], owner, i, all, Now()))
      {
        var name := owner + "_" + EntrySuffix(es[i], i);
        var valueType := RewriteType(es[i].valueType, name);
        var e := es[i].(valueType := valueType);
        ghost var rest := RewriteEntries(es[i + 1..], owner, i + 1, all, Now());
        assert es[i..][1..] == es[i + 1..];
        CollectedStep(done, e, rest);
        done := done + [e];
      }
      assert es[|es|..] == [];
      CollectedEnd(done, Now());
      r := GroupExpression(done);
    }

    /** The arms of a choice, each under its own index. */
    method RewriteEach(arms: seq<TypeExpression>, name: string) returns (done: seq<TypeExpression>)
      modifies this
      ensures (done, Now()) == RewriteArms(arms, name, 0, all, old(Now()))
      decreases arms, 2
    {
      hide Rewrite, Collected;
      done := [];
      assert arms[0..] == arms;
      CollectedNothing(RewriteArms(arms, name, 0, all, Now()));
      for i := 0 to |arms|
        invariant |done| == i
        invariant RewriteArms(arms, name, 0, all, old(Now()))
               == Collected(done, RewriteArms(arms[i..], name, i, all, Now()))
      {
        var t := RewriteType(arms[i], name + "_" + Decimal(i));
        ghost var rest := RewriteArms(arms[i + 1..], name, i + 1, all, Now());
        assert arms[i..][1..] == arms[i + 1..];
        CollectedStep(done, t, rest);
        done := done + [t];
      }
      assert arms[|arms|..] == [];
      CollectedEnd(done, Now());
    }

    method RewriteType(t: TypeExpression, name: string) returns (r: TypeExpression)
      modifies this
      ensures (r, Now()) == Rewrite(t, name, all, old(Now()))
      decreases t, 1
    {
      hide Rewrite, RewriteInside, RewriteArms, RewriteEntries, Hoist.RewriteGroup, Hoist.Reserve, HoistKindOf,
        WrapConstrained;
      RewriteByKind(t, name, all, Now());
      KindIsBelow(t, all);
      match HoistKindOf(t, all) {
        case Some(GroupKind(g)) =>
          var own := Reserve(name);
          var g' := RewriteGroup(g, own);
          PushRule(own, GroupDef(g'));
          r := WrapConstrained(t, Reference(own));
        case Some(ChoiceKind(arms)) =>
          var own := Reserve(name);
          var arms' := RewriteEach(arms, own);
          PushRule(own, TypeDef(Choice(arms')));
          r := WrapConstrained(t, Reference(own));
        case None =>
          r := RewriteChildren(t, name);
      }
    }

    method RewriteChildren(t: TypeExpression, name: string) returns (r: TypeExpression)
      modifies this
      ensures (r, Now()) == RewriteInside(t, name, all, old(Now()))
      decreases t, 0
    {
      hide Rewrite, RewriteArms, Hoist.RewriteGroup;
      match t {
        case Array(element, occurrence) =>
          var element' := RewriteType(element, name + "_item");
          r := Array(element', occurrence);
        case Map(key, value, occurrence) =>
          var key' := RewriteType(key, name + "_key");
          var value' := RewriteType(value, name + "_value");
          r := Map(key', value', occurrence);
        case Tuple(g) =>
          var g' := RewriteGroup(g, name);
          r := Tuple(g');
        case Group(g) =>
          var g' := RewriteGroup(g, name);
          r := Group(g');
        case Choice(arms) =>
          var arms' := RewriteEach(arms, name);
          r := Choice(arms');
        case Constrained(base, constraints) =>
          var base' := RewriteChildren(base, name);
          r := Constrained(base', constraints);
        case _ => r := t;
      }
    }
  }

  /** The pass as a whole. */
  method HoistInlineComposites(rules: seq<Rule>, all: bool) returns (out: seq<Rule>)
    ensures out == Hoisted(rules, all)
  {
    hide Hoist.RewriteRule, KeysOf, Collected;
    var hoister := new Hoister(rules, all);
    ghost var start := hoister.Now();
    out := [];
    assert rules[0..] == rules;
    CollectedNothing(RewriteRules(rules, all, start));
    for i := 0 to |rules|
      invariant fresh(hoister) && hoister.all == all && |out| == i
      invariant RewriteRules(rules, all, start) == Collected(out, RewriteRules(rules[i..], all, hoister.Now()))
    {
      var rule := hoister.RewriteRule(rules[i]);
      ghost var rest := RewriteRules(rules[i + 1..], all, hoister.Now());
      assert rules[i..][1..] == rules[i + 1..];
      CollectedStep(out, rule, rest);
      out := out + [rule];
    }
    CollectedEnd(out, hoister.Now());
    out := out + hoister.synth;
  }
}
