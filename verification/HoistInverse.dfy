/** Hoisting loses nothing: putting every synthesized rule's body back where it is referenced
    gives the specification that was hoisted. */
module HoistInverse {
  import opened Basics
  import opened Bytes
  import opened Ast
  import opened Hoist
  import opened HoistNames
  import opened HoistShape

  // ---- putting bodies back ---------------------------------------------------------------------------

  /** What the rule of this name is, if there is one. */
  function Body(name: string, synth: seq<Rule>): Option<RuleType> {
    if synth == [] then None
    else if synth[|synth| - 1].name == name then Some(synth[|synth| - 1].ruleType)
    else Body(name, synth[..|synth| - 1])
  }

  /** Replaces each reference to a rule of `synth` by that rule's body, and so on in the body, `depth`
      bodies deep. */
  function Expand(t: TypeExpression, synth: seq<Rule>, depth: nat): TypeExpression
    decreases depth, t, 0
  {
    match t
    case Reference(n) =>
      if depth == 0 then t
      else (
        match Body(n, synth)
        case Some(GroupDef(g)) => Group(ExpandGroup(g, synth, depth - 1))
        case Some(TypeDef(body)) => Expand(body, synth, depth - 1)
        case _ => t)
    case Array(element, occurrence) => Array(Expand(element, synth, depth), occurrence)
    case Map(key, value, occurrence) => Map(Expand(key, synth, depth), Expand(value, synth, depth), occurrence)
    case Tuple(g) => Tuple(ExpandGroup(g, synth, depth))
    case Group(g) => Group(ExpandGroup(g, synth, depth))
    case Choice(arms) => Choice(ExpandArms(arms, synth, depth))
    case Constrained(base, constraints) => Constrained(Expand(base, synth, depth), constraints)
    case _ => t
  }

  function ExpandGroup(g: GroupExpression, synth: seq<Rule>, depth: nat): GroupExpression
    decreases depth, g, 0
  {
    GroupExpression(ExpandEntries(g.entries, synth, depth))
  }

  function ExpandEntries(es: seq<GroupEntry>, synth: seq<Rule>, depth: nat): (r: seq<GroupEntry>)
    ensures |r| == |es|
    decreases depth, es, 0
  {
    if es == [] then [] else [ExpandEntry(es[0], synth, depth)] + ExpandEntries(es[1..], synth, depth)
  }

  function ExpandEntry(e: GroupEntry, synth: seq<Rule>, depth: nat): GroupEntry
    decreases depth, e, 0
  {
    e.(valueType := Expand(e.valueType, synth, depth))
  }

  function ExpandArms(ts: seq<TypeExpression>, synth: seq<Rule>, depth: nat): (r: seq<TypeExpression>)
    ensures |r| == |ts|
    decreases depth, ts, 0
  {
    if ts == [] then [] else [Expand(ts[0], synth, depth)] + ExpandArms(ts[1..], synth, depth)
  }

  function ExpandGroups(gs: seq<GroupExpression>, synth: seq<Rule>, depth: nat): (r: seq<GroupExpression>)
    ensures |r| == |gs|
  {
    if gs == [] then [] else [ExpandGroup(gs[0], synth, depth)] + ExpandGroups(gs[1..], synth, depth)
  }

  function ExpandRule(rule: Rule, synth: seq<Rule>, depth: nat): Rule {
    rule.(ruleType := match rule.ruleType
                      case GroupDef(g) => GroupDef(ExpandGroup(g, synth, depth))
                      case TypeDef(t) => TypeDef(Expand(t, synth, depth))
                      case TypeChoice(arms) => TypeChoice(ExpandArms(arms, synth, depth))
                      case GroupChoice(groups) => GroupChoice(ExpandGroups(groups, synth, depth))
                      case ServiceDef(service) => ServiceDef(service))
  }

  function ExpandRules(rules: seq<Rule>, synth: seq<Rule>, depth: nat): (r: seq<Rule>)
    ensures |r| == |rules|
  {
    if rules == [] then [] else [ExpandRule(rules[0], synth, depth)] + ExpandRules(rules[1..], synth, depth)
  }

  // ---- references --------------------------------------------------------------------------------------

  /** Every reference in `t` is one of `names`. */
  ghost predicate RefersTo(t: TypeExpression, names: iset<string>)
    decreases t, 0
  {
    match t
    case Reference(n) => n in names
    case Array(element, _) => RefersTo(element, names)
    case Map(key, value, _) => RefersTo(key, names) && RefersTo(value, names)
    case Tuple(g) => GroupRefersTo(g, names)
    case Group(g) => GroupRefersTo(g, names)
    case Choice(arms) => forall a | a in arms :: RefersTo(a, names)
    case Constrained(base, _) => RefersTo(base, names)
    case _ => true
  }

  ghost predicate GroupRefersTo(g: GroupExpression, names: iset<string>)
    decreases g, 1
  {
    forall e | e in g.entries :: EntryRefersTo(e, names)
  }

  ghost predicate EntryRefersTo(e: GroupEntry, names: iset<string>)
    decreases e, 0
  {
    RefersTo(e.valueType, names)
  }

  ghost predicate RuleRefersTo(r: Rule, names: iset<string>) {
    match r.ruleType
    case GroupDef(g) => GroupRefersTo(g, names)
    case TypeDef(t) => RefersTo(t, names)
    case TypeChoice(arms) => forall a | a in arms :: RefersTo(a, names)
    case GroupChoice(groups) => forall g | g in groups :: GroupRefersTo(g, names)
    case ServiceDef(_) => true
  }

  function NamesOf(rules: seq<Rule>): set<string> {
    set r | r in rules :: r.name
  }

  /** A name that hoisting could make for a specification with these rules: one of theirs, an underscore
      and more, with a free key. */
  predicate CouldBeMade(name: string, names: set<string>) {
    && (exists d | d in names :: d + "_" <= name)
    && CanonicalKey(name) !in (set d | d in names :: CanonicalKey(d))
  }

  ghost function NeverMade(names: set<string>): iset<string> {
    iset n | !CouldBeMade(n, names)
  }

  predicate IsNamed(name: string, synth: seq<Rule>) {
    exists i :: 0 <= i < |synth| && synth[i].name == name
  }

  /** The names that no rule of `synth` has. */
  ghost function Outside(synth: seq<Rule>): iset<string> {
    iset n | !IsNamed(n, synth)
  }

  /** The rules have names of their own and are composites. */
  predicate Told(synth: seq<Rule>) {
    && (forall i, j :: 0 <= i < j < |synth| ==> synth[i].name != synth[j].name)
    && (forall i :: 0 <= i < |synth| ==> IsComposite(synth[i].ruleType))
  }

  lemma {:induction false} BodyAt(j: nat, synth: seq<Rule>)
    requires j < |synth| && Told(synth)
    ensures Body(synth[j].name, synth) == Some(synth[j].ruleType)
    decreases |synth|
  {
    if j < |synth| - 1 {
      assert synth[j].name != synth[|synth| - 1].name;
      BodyAt(j, synth[..|synth| - 1]);
    }
  }

  lemma {:induction false} NoBody(n: string, synth: seq<Rule>)
    requires n in Outside(synth)
    ensures Body(n, synth) == None
    decreases |synth|
  {
    if synth != [] {
      NoBody(n, synth[..|synth| - 1]);
    }
  }

  // ---- rewriting, then expanding ---------------------------------------------------------------------------

  /** Between `st` and `st'` rules were added that `synth` starts with, and `depth` is more than these. */
  predicate Reaches(st: State, st': State, synth: seq<Rule>, depth: nat) {
    st.synth <= st'.synth <= synth && depth > |st'.synth| - |st.synth| && Told(synth)
  }

  /** Two steps in turn reach what both together do. */
  lemma ReachesParts(st: State, st1: State, st2: State, synth: seq<Rule>, depth: nat)
    requires st.synth <= st1.synth <= st2.synth && Reaches(st, st2, synth, depth)
    ensures Reaches(st, st1, synth, depth) && Reaches(st1, st2, synth, depth)
  {
  }

  /** A reference stays exactly when it is to no rule of `synth`. */
  lemma ReferenceStays(n: string, synth: seq<Rule>, depth: nat)
    requires Told(synth) && depth > 0
    ensures Expand(Reference(n), synth, depth) == Reference(n) <==> n in Outside(synth)
  {
    hide ExpandGroup, ExpandArms;
    if n in Outside(synth) {
      NoBody(n, synth);
    } else {
      var j :| 0 <= j < |synth| && synth[j].name == n;
      BodyAt(j, synth);
    }
  }

  /** The reference left for a composite becomes its body, one level further down. */
  lemma PushedBody(st: State, st2: State, name: string, ruleType: RuleType, synth: seq<Rule>, depth: nat)
    requires IsComposite(ruleType) && st.synth <= st2.synth
    requires st2.synth + [Synthesized(name, ruleType)] <= synth && depth > |st2.synth| + 1 - |st.synth| && Told(synth)
    ensures Reaches(st, st2, synth, depth - 1)
    ensures Expand(Reference(name), synth, depth)
         == if ruleType.GroupDef? then Group(ExpandGroup(ruleType.group, synth, depth - 1))
            else Expand(ruleType.typ, synth, depth - 1)
  {
    hide ExpandGroup, ExpandArms;
    var j := |st2.synth|;
    assert (st2.synth + [Synthesized(name, ruleType)])[j] == synth[j];
    BodyAt(j, synth);
  }

  lemma {:induction false} ExpandRewrite(
      t: TypeExpression, name: string, all: bool, st: State, synth: seq<Rule>, depth: nat)
    requires Reaches(st, Rewrite(t, name, all, st).1, synth, depth)
    ensures Expand(Rewrite(t, name, all, st).0, synth, depth) == t <==> RefersTo(t, Outside(synth))
    decreases t, 1
  {
    hide RewriteInside, RewriteGroup, RewriteArms, Reserve, Hoistable, ExpandGroup, ExpandArms, GroupRefersTo, Told,
      FlatGroup, Flat, Grown;
    match t {
      case Constrained(base, constraints) => ExpandRewrite(base, name, all, st, synth, depth);
      case Group(g) =>
        var (own, st1) := Reserve(st, name);
        var (g', st2) := RewriteGroup(g, own, all, st1);
        ReserveAdds(st, name);
        RewriteGroupFlattens(g, own, all, st1);
        GrownIsLonger(st1, st2, all);
        PushedBody(st, st2, own, GroupDef(g'), synth, depth);
        ExpandRewriteGroup(g, own, all, st1, synth, depth - 1);
      case Choice(arms) =>
        if Hoistable(arms, all) {
          var (own, st1) := Reserve(st, name);
          var (arms', st2) := RewriteArms(arms, own, 0, all, st1);
          ReserveAdds(st, name);
          RewriteArmsFlattens(arms, own, 0, all, st1);
          GrownIsLonger(st1, st2, all);
          PushedBody(st, st2, own, TypeDef(Choice(arms')), synth, depth);
          ExpandRewriteArms(arms, own, 0, all, st1, synth, depth - 1);
        } else {
          ExpandRewriteInside(t, name, all, st, synth, depth);
        }
      case _ => ExpandRewriteInside(t, name, all, st, synth, depth);
    }
  }

  lemma ReserveAdds(st: State, name: string)
    ensures Reserve(st, name).1.synth == st.synth
  {
  }

  lemma GrownIsLonger(st: State, st': State, all: bool)
    requires Grown(st, st', all)
    ensures st.synth <= st'.synth
  {
  }

  lemma {:induction false} ExpandRewriteInside(
      t: TypeExpression, name: string, all: bool, st: State, synth: seq<Rule>, depth: nat)
    requires Reaches(st, RewriteInside(t, name, all, st).1, synth, depth)
    ensures Expand(RewriteInside(t, name, all, st).0, synth, depth) == t <==> RefersTo(t, Outside(synth))
    decreases t, 0
  {
    hide Rewrite, RewriteGroup, RewriteArms, ExpandGroup, ExpandArms, GroupRefersTo, Told, Body, Outside, Grown, Flat;
    match t {
      case Array(element, occurrence) => ExpandRewrite(element, name + "_item", all, st, synth, depth);
      case Map(key, value, occurrence) =>
        var st1 := Rewrite(key, name + "_key", all, st).1;
        var st2 := Rewrite(value, name + "_value", all, st1).1;
        RewriteFlattens(key, name + "_key", all, st);
        RewriteFlattens(value, name + "_value", all, st1);
        GrownIsLonger(st, st1, all);
        GrownIsLonger(st1, st2, all);
        ReachesParts(st, st1, st2, synth, depth);
        ExpandRewrite(key, name + "_key", all, st, synth, depth);
        ExpandRewrite(value, name + "_value", all, st1, synth, depth);
      case Tuple(g) => ExpandRewriteGroup(g, name, all, st, synth, depth);
      case Group(g) => ExpandRewriteGroup(g, name, all, st, synth, depth);
      case Choice(arms) => ExpandRewriteArms(arms, name, 0, all, st, synth, depth);
      case Constrained(base, constraints) => ExpandRewriteInside(base, name, all, st, synth, depth);
      case Reference(n) => ReferenceStays(n, synth, depth);
      case _ =>
    }
  }

  lemma {:induction false} ExpandRewriteGroup(
      g: GroupExpression, owner: string, all: bool, st: State, synth: seq<Rule>, depth: nat)
    requires Reaches(st, RewriteGroup(g, owner, all, st).1, synth, depth)
    ensures ExpandGroup(RewriteGroup(g, owner, all, st).0, synth, depth) == g <==> GroupRefersTo(g, Outside(synth))
    decreases g, 2
  {
    hide RewriteEntries, ExpandEntries, EntryRefersTo, Told, Outside;
    ExpandRewriteEntries(g.entries, owner, 0, all, st, synth, depth);
  }

  lemma {:induction false} ExpandRewriteEntries(
      es: seq<GroupEntry>, owner: string, i: nat, all: bool, st: State, synth: seq<Rule>, depth: nat)
    requires Reaches(st, RewriteEntries(es, owner, i, all, st).1, synth, depth)
    ensures ExpandEntries(RewriteEntries(es, owner, i, all, st).0, synth, depth) == es
       <==> forall e | e in es :: EntryRefersTo(e, Outside(synth))
    decreases es, 4
  {
    hide RewriteEntry, ExpandEntry, EntryRefersTo, Told, Outside, Grown, FlatEntry;
    if es != [] {
      var name := owner + "_" + EntrySuffix(es[0], i);
      var (e, st1) := RewriteEntry(es[0], name, all, st);
      var (rest, st2) := RewriteEntries(es[1..], owner, i + 1, all, st1);
      RewriteEntryFlattens(es[0], name, all, st);
      RewriteEntriesFlattens(es[1..], owner, i + 1, all, st1);
      GrownIsLonger(st, st1, all);
      GrownIsLonger(st1, st2, all);
      ReachesParts(st, st1, st2, synth, depth);
      ExpandRewriteEntry(es[0], name, all, st, synth, depth);
      ExpandRewriteEntries(es[1..], owner, i + 1, all, st1, synth, depth);
      assert ([e] + rest)[1..] == rest;
      SameHeadAndTail(ExpandEntry(e, synth, depth), ExpandEntries(rest, synth, depth), es);
      HeadAndTail(es, x => EntryRefersTo(x, Outside(synth)));
    }
  }

  lemma SameHeadAndTail<T>(head: T, tail: seq<T>, s: seq<T>)
    requires s != []
    ensures [head] + tail == s <==> head == s[0] && tail == s[1..]
  {
    assert s == [s[0]] + s[1..];
    if [head] + tail == s {
      assert ([head] + tail)[1..] == tail;
    }
  }

  lemma {:induction false} ExpandRewriteEntry(
      e: GroupEntry, name: string, all: bool, st: State, synth: seq<Rule>, depth: nat)
    requires Reaches(st, RewriteEntry(e, name, all, st).1, synth, depth)
    ensures ExpandEntry(RewriteEntry(e, name, all, st).0, synth, depth) == e <==> EntryRefersTo(e, Outside(synth))
    decreases e, 3
  {
    hide Rewrite, Expand, RefersTo, Told, Outside;
    ExpandRewrite(e.valueType, name, all, st, synth, depth);
  }

  lemma {:induction false} ExpandRewriteArms(
      ts: seq<TypeExpression>, name: string, i: nat, all: bool, st: State, synth: seq<Rule>, depth: nat)
    requires Reaches(st, RewriteArms(ts, name, i, all, st).1, synth, depth)
    ensures ExpandArms(RewriteArms(ts, name, i, all, st).0, synth, depth) == ts
       <==> forall t | t in ts :: RefersTo(t, Outside(synth))
    decreases ts, 4
  {
    hide Rewrite, Expand, RefersTo, Told, Outside, Grown, Flat;
    if ts != [] {
      var own := name + "_" + Decimal(i);
      var (t, st1) := Rewrite(ts[0], own, all, st);
      var (rest, st2) := RewriteArms(ts[1..], name, i + 1, all, st1);
      RewriteFlattens(ts[0], own, all, st);
      RewriteArmsFlattens(ts[1..], name, i + 1, all, st1);
      GrownIsLonger(st, st1, all);
      GrownIsLonger(st1, st2, all);
      ReachesParts(st, st1, st2, synth, depth);
      ExpandRewrite(ts[0], own, all, st, synth, depth);
      ExpandRewriteArms(ts[1..], name, i + 1, all, st1, synth, depth);
      assert ([t] + rest)[1..] == rest;
      SameHeadAndTail(Expand(t, synth, depth), ExpandArms(rest, synth, depth), ts);
      HeadAndTail(ts, x => RefersTo(x, Outside(synth)));
    }
  }

  lemma {:induction false} ExpandRewriteGroups(
      gs: seq<GroupExpression>, name: string, i: nat, all: bool, st: State, synth: seq<Rule>, depth: nat)
    requires Reaches(st, RewriteGroups(gs, name, i, all, st).1, synth, depth)
    ensures ExpandGroups(RewriteGroups(gs, name, i, all, st).0, synth, depth) == gs
       <==> forall g | g in gs :: GroupRefersTo(g, Outside(synth))
    decreases |gs|
  {
    hide RewriteGroup, ExpandGroup, GroupRefersTo, Told, Outside, Grown, FlatGroup;
    if gs != [] {
      var own := name + "_" + Decimal(i);
      var (g, st1) := RewriteGroup(gs[0], own, all, st);
      var (rest, st2) := RewriteGroups(gs[1..], name, i + 1, all, st1);
      RewriteGroupFlattens(gs[0], own, all, st);
      RewriteGroupsFlattens(gs[1..], name, i + 1, all, st1);
      GrownIsLonger(st, st1, all);
      GrownIsLonger(st1, st2, all);
      ReachesParts(st, st1, st2, synth, depth);
      ExpandRewriteGroup(gs[0], own, all, st, synth, depth);
      ExpandRewriteGroups(gs[1..], name, i + 1, all, st1, synth, depth);
      assert ([g] + rest)[1..] == rest;
      SameHeadAndTail(ExpandGroup(g, synth, depth), ExpandGroups(rest, synth, depth), gs);
      HeadAndTail(gs, x => GroupRefersTo(x, Outside(synth)));
    }
  }

  lemma ExpandRewriteRule(rule: Rule, all: bool, st: State, synth: seq<Rule>, depth: nat)
    requires Reaches(st, RewriteRule(rule, all, st).1, synth, depth)
    ensures ExpandRule(RewriteRule(rule, all, st).0, synth, depth) == rule <==> RuleRefersTo(rule, Outside(synth))
  {
    hide RewriteGroup, RewriteInside, RewriteArms, RewriteGroups, ExpandGroup, Expand, ExpandArms, ExpandGroups,
      GroupRefersTo, RefersTo, Told, Outside;
    match rule.ruleType {
      case GroupDef(g) => ExpandRewriteGroup(g, rule.name, all, st, synth, depth);
      case TypeDef(t) => ExpandRewriteInside(t, rule.name, all, st, synth, depth);
      case TypeChoice(arms) => ExpandRewriteArms(arms, rule.name, 0, all, st, synth, depth);
      case GroupChoice(groups) => ExpandRewriteGroups(groups, rule.name, 0, all, st, synth, depth);
      case ServiceDef(_) =>
    }
  }

  lemma {:induction false} ExpandRewriteRules(rules: seq<Rule>, all: bool, st: State, synth: seq<Rule>, depth: nat)
    requires Reaches(st, RewriteRules(rules, all, st).1, synth, depth)
    ensures ExpandRules(RewriteRules(rules, all, st).0, synth, depth) == rules
       <==> forall r | r in rules :: RuleRefersTo(r, Outside(synth))
    decreases |rules|
  {
    hide RewriteRule, ExpandRule, RuleRefersTo, Told, Outside, Grown, FlatRule;
    if rules != [] {
      var (rule, st1) := RewriteRule(rules[0], all, st);
      var (rest, st2) := RewriteRules(rules[1..], all, st1);
      RewriteRuleFlattens(rules[0], all, st);
      RewriteRulesFlattens(rules[1..], all, st1);
      GrownIsLonger(st, st1, all);
      GrownIsLonger(st1, st2, all);
      ReachesParts(st, st1, st2, synth, depth);
      ExpandRewriteRule(rules[0], all, st, synth, depth);
      ExpandRewriteRules(rules[1..], all, st1, synth, depth);
      assert ([rule] + rest)[1..] == rest;
      SameHeadAndTail(ExpandRule(rule, synth, depth), ExpandRules(rest, synth, depth), rules);
      HeadAndTail(rules, x => RuleRefersTo(x, Outside(synth)));
    }
  }

  // ---- main results ------------------------------------------------------------------------------------------

  /** The rules that hoisting adds. */
  function Made(rules: seq<Rule>, all: bool): seq<Rule> {
    var out := Hoisted(rules, all);
    out[|rules|..]
  }

  /** Putting the synthesized bodies back, as deep as there are rules, gives the original ones. */
  predicate ExpandsBack(rules: seq<Rule>, all: bool) {
    var synth := Made(rules, all);
    ExpandRules(Hoisted(rules, all)[..|rules|], synth, |synth| + 1) == rules
  }

  /** The synthesized rules are composites with names of their own, each one that could be made. */
  lemma SynthesizedSeparate(rules: seq<Rule>, all: bool)
    ensures Told(Made(rules, all)) && NeverMade(NamesOf(rules)) <= Outside(Made(rules, all))
  {
    hide RewriteRules, FlatRule, CanonicalKey, IsComposite;
    HoistedIsFlat(rules, all);
    NamesTellOrigin(rules, all);
    var out, names := Hoisted(rules, all), NamesOf(rules);
    var synth := Made(rules, all);
    forall i | 0 <= i < |synth| ensures CouldBeMade(synth[i].name, names) && IsComposite(synth[i].ruleType) {
      assert synth[i] == out[|rules| + i] && From(rules, synth[i].name);
      forall d | d in names ensures CanonicalKey(synth[i].name) != CanonicalKey(d) {
        var k :| 0 <= k < |rules| && rules[k].name == d;
        assert out[k].name == d;
      }
    }
    forall i, j | 0 <= i < j < |synth| ensures synth[i].name != synth[j].name {
      assert synth[i] == out[|rules| + i] && synth[j] == out[|rules| + j];
    }
  }

  /** Main result: a specification comes back, constraint wrappers included, exactly when it refers to no
      rule that hoisting makes for it. */
  lemma {:induction false} HoistedExpandsBack(rules: seq<Rule>, all: bool)
    ensures ExpandsBack(rules, all) <==> forall r | r in rules :: RuleRefersTo(r, Outside(Made(rules, all)))
  {
    hide RewriteRules, ExpandRules, RuleRefersTo, Told, FlatRule, NamesOf, Outside, KeysOf;
    var start := State([], KeysOf(rules));
    var (rewritten, st) := RewriteRules(rules, all, start);
    var out := Hoisted(rules, all);
    assert out[..|rules|] == rewritten && out[|rules|..] == st.synth;
    SynthesizedSeparate(rules, all);
    ExpandRewriteRules(rules, all, start, st.synth, |st.synth| + 1);
  }

  /** In particular when it refers to no name that hoisting could make from its rules' names. */
  lemma {:induction false} UnmadeNamesExpandBack(rules: seq<Rule>, all: bool)
    requires forall r | r in rules :: RuleRefersTo(r, NeverMade(NamesOf(rules)))
    ensures ExpandsBack(rules, all)
  {
    hide ExpandsBack, RuleRefersTo, Told, NamesOf, Outside, NeverMade;
    HoistedExpandsBack(rules, all);
    SynthesizedSeparate(rules, all);
    forall r | r in rules ensures RuleRefersTo(r, Outside(Made(rules, all))) {
      RuleRefersWidely(r, NeverMade(NamesOf(rules)), Outside(Made(rules, all)));
    }
  }

  // ---- when a name could be made -----------------------------------------------------------------------

  function Field(name: string, t: TypeExpression): GroupEntry {
    GroupEntry(Some(Bare(name)), t, None, [], [])
  }

  /** The rule `owner` with an empty group in the field `field`, and a reference to `name`. */
  function Spoiled(owner: string, field: string, name: string): Rule {
    var entries := [Field(field, Group(GroupExpression([]))), Field("", Reference(name))];
    Rule(owner, GroupDef(GroupExpression(entries)), 0, [])
  }

  ghost function Services(names: set<string>): seq<Rule> {
    if names == {} then []
    else
      var n :| n in names;
      [Rule(n, ServiceDef(""), 0, [])] + Services(names - {n})
  }

  lemma {:induction false} ServicesStay(names: set<string>, all: bool, st: State)
    ensures NamesOf(Services(names)) == names
    ensures forall r | r in Services(names) :: r.ruleType.ServiceDef?
    ensures RewriteRules(Services(names), all, st) == (Services(names), st)
  {
    hide RewriteRules, NamesOf, Services;
    ServicesNamed(names);
    ServicesUnchanged(Services(names), all, st);
  }

  lemma {:induction false} ServicesNamed(names: set<string>)
    ensures NamesOf(Services(names)) == names
    ensures forall r | r in Services(names) :: r.ruleType.ServiceDef?
    decreases names
  {
    if names != {} {
      var services := Services(names);
      var n := services[0].name;
      ServicesNamed(names - {n});
      assert services[1..] == Services(names - {n});
      assert services == [services[0]] + services[1..];
      assert NamesOf(services) == {n} + NamesOf(services[1..]);
    }
  }

  lemma {:induction false} ServicesUnchanged(rules: seq<Rule>, all: bool, st: State)
    requires forall r | r in rules :: r.ruleType.ServiceDef?
    ensures RewriteRules(rules, all, st) == (rules, st)
    decreases |rules|
  {
    if rules != [] {
      ServicesUnchanged(rules[1..], all, st);
      assert rules == [rules[0]] + rules[1..];
    }
  }

  lemma FreeIsReserved(st: State, name: string)
    requires CanonicalKey(name) !in st.used
    ensures ReservedName(st.used, name) == name
  {
    hide CanonicalKey;
  }

  lemma EmptyGroupRewrite(name: string, all: bool, st: State)
    requires CanonicalKey(name) !in st.used
    ensures var (t, st') := Rewrite(Group(GroupExpression([])), name, all, st);
            t == Reference(name) && st'.synth == st.synth + [Synthesized(name, GroupDef(GroupExpression([])))]
  {
    hide CanonicalKey, RewriteInside, FirstFree;
    var st1 := Reserve(st, name).1;
    FreeIsReserved(st, name);
    assert RewriteEntries([], name, 0, all, st1) == ([], st1);
    assert RewriteGroup(GroupExpression([]), name, all, st1) == (GroupExpression([]), st1);
  }

  lemma ReferenceRewrite(n: string, name: string, all: bool, st: State)
    ensures Rewrite(Reference(n), name, all, st) == (Reference(n), st)
  {
    assert RewriteInside(Reference(n), name, all, st) == (Reference(n), st);
  }

  lemma TwoEntries(e0: GroupEntry, e1: GroupEntry, owner: string, all: bool, st: State)
    ensures var (a, st1) := RewriteEntry(e0, owner + "_" + EntrySuffix(e0, 0), all, st);
            var (b, st2) := RewriteEntry(e1, owner + "_" + EntrySuffix(e1, 1), all, st1);
            RewriteEntries([e0, e1], owner, 0, all, st) == ([a, b], st2)
  {
    hide RewriteEntry, EntrySuffix;
    var (x, st1) := RewriteEntry(e0, owner + "_" + EntrySuffix(e0, 0), all, st);
    var (y, st2) := RewriteEntry(e1, owner + "_" + EntrySuffix(e1, 1), all, st1);
    assert [e0, e1][1..] == [e1] && [e1][1..] == [];
    assert RewriteEntries([], owner, 2, all, st2) == ([], st2);
    assert RewriteEntries([e1], owner, 1, all, st1) == ([y] + [], st2) && [y] + [] == [y];
    assert RewriteEntries([e1], owner, 1, all, st1) == ([y], st2);
    assert RewriteEntries([e0, e1], owner, 0, all, st) == ([x] + [y], st2) && [x] + [y] == [x, y];
  }

  /** The group gets its own name first, and that is the one referred to. */
  lemma {:induction false} SpoiledRewrite(owner: string, field: string, all: bool, used: set<string>)
    requires CanonicalKey(owner + "_" + field) !in used
    ensures var name := owner + "_" + field;
            var (r, st) := RewriteRule(Spoiled(owner, field, name), all, State([], used));
            && r.ruleType == GroupDef(GroupExpression([Field(field, Reference(name)), Field("", Reference(name))]))
            && st.synth == [Synthesized(name, GroupDef(GroupExpression([])))]
  {
    hide CanonicalKey, Rewrite, RewriteEntries, Synthesized;
    var name := owner + "_" + field;
    var st0 := State([], used);
    var e0, e1 := Field(field, Group(GroupExpression([]))), Field("", Reference(name));
    EmptyGroupRewrite(name, all, st0);
    var st1 := Rewrite(e0.valueType, name, all, st0).1;
    ReferenceRewrite(name, owner + "_" + "", all, st1);
    TwoEntries(e0, e1, owner, all, st0);
    assert [] + [Synthesized(name, GroupDef(GroupExpression([])))]
        == [Synthesized(name, GroupDef(GroupExpression([])))];
  }

  /** For any rule names and any name that could be made for them there is a specification with these
      rules that refers to no other name and does not come back. */
  lemma {:induction false} MadeNameSpoils(owner: string, field: string, names: set<string>, all: bool)
    requires owner in names && CouldBeMade(owner + "_" + field, names)
    ensures var rules := [Spoiled(owner, field, owner + "_" + field)] + Services(names - {owner});
            NamesOf(rules) == names && !ExpandsBack(rules, all)
  {
    hide CanonicalKey, RewriteRule, Services;
    var name := owner + "_" + field;
    var services := Services(names - {owner});
    var rules := [Spoiled(owner, field, name)] + services;
    assert rules[1..] == services;
    ServicesStay(names - {owner}, all, State([], {}));
    assert NamesOf(rules) == {owner} + NamesOf(services) == names;
    assert KeysOf(rules) == set d | d in names :: CanonicalKey(d);
    SpoiledRewrite(owner, field, all, KeysOf(rules));
    var (r, st) := RewriteRule(rules[0], all, State([], KeysOf(rules)));
    ServicesStay(names - {owner}, all, st);
    var start := State([], KeysOf(rules));
    assert RewriteRules(rules, all, start) == ([r] + services, st);
    assert Made(rules, all) == st.synth;
    HoistedExpandsBack(rules, all);
    SpoiledRefersToMade(owner, field, name, st.synth);
    assert rules[0] in rules;
  }

  lemma SpoiledRefersToMade(owner: string, field: string, name: string, synth: seq<Rule>)
    requires synth == [Synthesized(name, GroupDef(GroupExpression([])))]
    ensures !RuleRefersTo(Spoiled(owner, field, name), Outside(synth))
  {
    var e := Field("", Reference(name));
    assert synth[0].name == name;
    assert !EntryRefersTo(e, Outside(synth));
    assert e in Spoiled(owner, field, name).ruleType.group.entries;
  }

  /** The rules have these names, and refer to nothing but these and the others. */
  ghost predicate HasOnly(rules: seq<Rule>, names: set<string>, others: set<string>) {
    NamesOf(rules) == names && forall r | r in rules :: RuleRefersTo(r, Both(names, others))
  }

  /** Main result: every specification with these rules, and with references to them and to `others`,
      comes back exactly when none of the others is a name hoisting could make. */
  lemma {:induction false} ExpandsBackExactly(names: set<string>, others: set<string>, all: bool)
    ensures (forall rules | HasOnly(rules, names, others) :: ExpandsBack(rules, all))
       <==> forall n | n in others :: !CouldBeMade(n, names)
  {
    hide ExpandsBack, CanonicalKey, RuleRefersTo, NamesOf;
    if forall n | n in others :: !CouldBeMade(n, names) {
      forall rules | HasOnly(rules, names, others) ensures ExpandsBack(rules, all) {
        forall r | r in rules ensures RuleRefersTo(r, NeverMade(names)) {
          RuleRefersWidely(r, Both(names, others), NeverMade(names));
        }
        UnmadeNamesExpandBack(rules, all);
      }
    } else {
      var n :| n in others && CouldBeMade(n, names);
      var d :| d in names && d + "_" <= n;
      var field := n[|d| + 1..];
      assert n == d + "_" + field;
      var rules := [Spoiled(d, field, n)] + Services(names - {d});
      MadeNameSpoils(d, field, names, all);
      ServicesStay(names - {d}, all, State([], {}));
      forall r | r in rules ensures RuleRefersTo(r, Both(names, others)) {
        SpoiledRefers(r, d, field, n, Both(names, others));
      }
    }
  }

  ghost function Both(names: set<string>, others: set<string>): iset<string> {
    iset n | n in names || n in others
  }

  lemma SpoiledRefers(r: Rule, owner: string, field: string, name: string, names: iset<string>)
    requires name in names && (r == Spoiled(owner, field, name) || r.ruleType.ServiceDef?)
    ensures RuleRefersTo(r, names)
  {
  }

  /** For one: a rule `A` with an inline group at `x` and a reference to `A_x`. */
  lemma ForeignNameIsLost(all: bool)
    ensures !ExpandsBack([Spoiled("A", "x", "A_x")], all)
  {
    hide CanonicalKey;
    assert CanonicalKey("A_x") != CanonicalKey("A") by { KeyConcat("A", "_x"); KeyConcat("_", "x"); LetterKey(); }
    assert "A" + "_" <= "A_x" && "A" + "_" + "x" == "A_x";
    assert [Spoiled("A", "x", "A_x")] + Services({"A"} - {"A"}) == [Spoiled("A", "x", "A_x")];
    MadeNameSpoils("A", "x", {"A"}, all);
  }

  lemma LetterKey()
    ensures CanonicalKey("x") == "x" && "_" + "x" == "_x" && "A" + "_x" == "A_x"
  {
    assert "x"[1..] == "";
  }

  // ---- more names ------------------------------------------------------------------------------------------

  lemma {:induction false} RefersWidely(t: TypeExpression, names: iset<string>, more: iset<string>)
    requires RefersTo(t, names) && names <= more
    ensures RefersTo(t, more)
    decreases t, 0
  {
    hide GroupRefersTo;
    match t {
      case Array(element, _) => RefersWidely(element, names, more);
      case Map(key, value, _) =>
        RefersWidely(key, names, more);
        RefersWidely(value, names, more);
      case Tuple(g) => GroupRefersWidely(g, names, more);
      case Group(g) => GroupRefersWidely(g, names, more);
      case Choice(arms) =>
        forall a | a in arms ensures RefersTo(a, more) {
          RefersWidely(a, names, more);
        }
      case Constrained(base, _) => RefersWidely(base, names, more);
      case _ =>
    }
  }

  lemma {:induction false} GroupRefersWidely(g: GroupExpression, names: iset<string>, more: iset<string>)
    requires GroupRefersTo(g, names) && names <= more
    ensures GroupRefersTo(g, more)
    decreases g, 1
  {
    hide RefersTo;
    forall e | e in g.entries ensures EntryRefersTo(e, more) {
      assert EntryRefersTo(e, names);
      RefersWidely(e.valueType, names, more);
    }
  }

  lemma RuleRefersWidely(r: Rule, names: iset<string>, more: iset<string>)
    requires RuleRefersTo(r, names) && names <= more
    ensures RuleRefersTo(r, more)
  {
    hide RefersTo, GroupRefersTo;
    match r.ruleType {
      case GroupDef(g) => GroupRefersWidely(g, names, more);
      case TypeDef(t) => RefersWidely(t, names, more);
      case TypeChoice(arms) =>
        forall a | a in arms ensures RefersTo(a, more) {
          RefersWidely(a, names, more);
        }
      case GroupChoice(groups) =>
        forall g | g in groups ensures GroupRefersTo(g, more) {
          GroupRefersWidely(g, names, more);
        }
      case ServiceDef(_) =>
    }
  }
}
