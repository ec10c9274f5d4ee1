/** Hoisting inline composites to named rules (crates/csilgen-common/src/hoist.rs): the rewrite
    as functions that thread the hoister's state. */
module Hoist {
  import opened Basics
  import opened Ast
  import opened ChoiceShape

  // ---- names -------------------------------------------------------------------------------------

  predicate IsUpper(c: char) {
    'A' <= c <= 'Z'
  }

  predicate IsAlphanumeric(c: char) {
    'a' <= c <= 'z' || IsUpper(c) || '0' <= c <= '9'
  }

  function Lower(c: char): char {
    if IsUpper(c) then ((c as int) + 32) as char else c
  }

  /** Lower-case letters and digits only, so names that differ in case or separators agree. */
  function CanonicalKey(name: string): string {
    if name == [] then []
    else (if IsAlphanumeric(name[0]) then [Lower(name[0])] else []) + CanonicalKey(name[1..])
  }

  /** The `n`-th name tried for `base`: itself, then `base_2`, `base_3`, ... */
  function Candidate(base: string, n: nat): string {
    if n < 2 then base else base + "_" + Decimal(n)
  }

  lemma {:induction false} KeyConcat(a: string, b: string)
    ensures CanonicalKey(a + b) == CanonicalKey(a) + CanonicalKey(b)
    decreases |a|
  {
    hide IsAlphanumeric, Lower;
    if a == [] {
      assert a + b == b;
    } else {
      KeyConcat(a[1..], b);
      assert (a + b)[1..] == a[1..] + b;
    }
  }

  /** Separators and the case of letters do not matter to the key; all other characters do, and in their
      order. */
  lemma {:induction false} KeyByCharacter(a: string, c: char, b: string)
    ensures CanonicalKey(a + [c] + b)
         == if 'A' <= c <= 'Z' then CanonicalKey(a) + [(c as int - 'A' as int + 'a' as int) as char] + CanonicalKey(b)
            else if 'a' <= c <= 'z' || '0' <= c <= '9' then CanonicalKey(a) + [c] + CanonicalKey(b)
            else CanonicalKey(a) + CanonicalKey(b)
  {
    KeyConcat(a + [c], b);
    KeyConcat(a, [c]);
    assert [c][1..] == [];
  }

  lemma {:induction false} KeyOfDecimal(n: nat)
    ensures CanonicalKey(Decimal(n)) == Decimal(n) && Decimal(n) != []
  {
    KeyOfDigit(n % 10);
    if n >= 10 {
      KeyOfDecimal(n / 10);
      KeyConcat(Decimal(n / 10), [Digit(n % 10)]);
    }
  }

  lemma KeyOfDigit(d: nat)
    requires d < 10
    ensures CanonicalKey([Digit(d)]) == [Digit(d)]
  {
    assert [Digit(d)][1..] == [];
  }

  lemma {:induction false} DecimalInjective(m: nat, n: nat)
    requires Decimal(m) == Decimal(n)
    ensures m == n
  {
    KeyOfDecimal(m / 10);
    KeyOfDecimal(n / 10);
    assert Decimal(m)[|Decimal(m)| - 1] == Digit(m % 10);
    assert Decimal(n)[|Decimal(n)| - 1] == Digit(n % 10);
    assert m % 10 == n % 10;
    if m >= 10 && n >= 10 {
      assert Decimal(m)[..|Decimal(m)| - 1] == Decimal(m / 10);
      assert Decimal(n)[..|Decimal(n)| - 1] == Decimal(n / 10);
      DecimalInjective(m / 10, n / 10);
    }
  }

  /** Different attempts have different keys, so a free one turns up. */
  lemma CandidateKeysDiffer(base: string, m: nat, n: nat)
    requires 1 <= m && 1 <= n && CanonicalKey(Candidate(base, m)) == CanonicalKey(Candidate(base, n))
    ensures m == n
  {
    CandidateKey(base, m);
    CandidateKey(base, n);
    if m >= 2 && n >= 2 {
      var k := |CanonicalKey(base)|;
      assert CanonicalKey(Candidate(base, m))[k..] == Decimal(m);
      assert CanonicalKey(Candidate(base, n))[k..] == Decimal(n);
      DecimalInjective(m, n);
    }
  }

  lemma CandidateKey(base: string, n: nat)
    ensures CanonicalKey(Candidate(base, n)) == CanonicalKey(base) + (if n < 2 then [] else Decimal(n))
    ensures Decimal(n) != []
  {
    KeyOfDecimal(n);
    if n >= 2 {
      KeyConcat(base + "_", Decimal(n));
      KeyConcat(base, "_");
      assert "_"[1..] == [];
    }
  }

  // ---- the hoister's state -----------------------------------------------------------------------

  /** `synth`: rules made so far; `used`: canonical keys that are taken. */
  datatype State = State(synth: seq<Rule>, used: set<string>)

  /** The first candidate from the `n`-th on whose key is free; `left` are the taken keys that
      could still come up, so the search ends. */
  function FirstFree(used: set<string>, base: string, n: nat, ghost left: set<string>): (k: nat)
    requires n >= 1
    requires forall m :: m >= n && CanonicalKey(Candidate(base, m)) in used ==> CanonicalKey(Candidate(base, m)) in left
    ensures k >= n && CanonicalKey(Candidate(base, k)) !in used
    ensures forall m :: n <= m < k ==> CanonicalKey(Candidate(base, m)) in used
    decreases left
  {
    var key := CanonicalKey(Candidate(base, n));
    if key !in used then n
    else
      assert key in left;
      assert forall m :: m >= n + 1 && CanonicalKey(Candidate(base, m)) == key ==> false by {
        forall m | m >= n + 1 && CanonicalKey(Candidate(base, m)) == key ensures false {
          CandidateKeysDiffer(base, m, n);
        }
      }
      FirstFree(used, base, n + 1, left - {key})
  }

  function ReservedName(used: set<string>, base: string): (name: string)
    ensures CanonicalKey(name) !in used
  {
    Candidate(base, FirstFree(used, base, 1, used))
  }

  function Reserve(st: State, base: string): (string, State) {
    var name := ReservedName(st.used, base);
    (name, st.(used := st.used + {CanonicalKey(name)}))
  }

  function Synthesized(name: string, ruleType: RuleType): Rule {
    Rule(name, ruleType, 0, [])
  }

  // ---- rewriting --------------------------------------------------------------------------------------

  /** The name part of one entry: its field name if it has one, else its position. */
  function EntrySuffix(entry: GroupEntry, index: nat): string {
    match entry.key
    case Some(Bare(n)) => n
    case Some(LiteralKey(Text(n))) => n
    case _ => Decimal(index)
  }

  /** A choice is hoisted unless all its arms are literals and the generator keeps those. */
  predicate Hoistable(arms: seq<TypeExpression>, all: bool) {
    all || !AllLiteral(arms)
  }

  /** A position that may hold an inline composite: the composite, under whatever constraints
      the position puts on it, becomes a reference to a new rule. */
  function Rewrite(t: TypeExpression, name: string, all: bool, st: State): (TypeExpression, State)
    decreases t, 1
  {
    match t
    case Constrained(base, constraints) =>
      var (base', st') := Rewrite(base, name, all, st);
      (Constrained(base', constraints), st')
    case Group(g) =>
      var (synth, st1) := Reserve(st, name);
      var (g', st2) := RewriteGroup(g, synth, all, st1);
      (Reference(synth), st2.(synth := st2.synth + [Synthesized(synth, GroupDef(g'))]))
    case Choice(arms) =>
      if Hoistable(arms, all) then
        var (synth, st1) := Reserve(st, name);
        var (arms', st2) := RewriteArms(arms, synth, 0, all, st1);
        (Reference(synth), st2.(synth := st2.synth + [Synthesized(synth, TypeDef(Choice(arms')))]))
      else RewriteInside(t, name, all, st)
    case _ => RewriteInside(t, name, all, st)
  }

  /** The same position, its own shape kept: only what is nested in it is hoisted. */
  function RewriteInside(t: TypeExpression, name: string, all: bool, st: State): (TypeExpression, State)
    decreases t, 0
  {
    match t
    case Array(element, occurrence) =>
      var (element', st') := Rewrite(element, name + "_item", all, st);
      (Array(element', occurrence), st')
    case Map(key, value, occurrence) =>
      var (key', st1) := Rewrite(key, name + "_key", all, st);
      var (value', st2) := Rewrite(value, name + "_value", all, st1);
      (Map(key', value', occurrence), st2)
    case Tuple(g) =>
      var (g', st') := RewriteGroup(g, name, all, st);
      (Tuple(g'), st')
    case Group(g) =>
      var (g', st') := RewriteGroup(g, name, all, st);
      (Group(g'), st')
    case Choice(arms) =>
      var (arms', st') := RewriteArms(arms, name, 0, all, st);
      (Choice(arms'), st')
    case Constrained(base, constraints) =>
      var (base', st') := RewriteInside(base, name, all, st);
      (Constrained(base', constraints), st')
    case _ => (t, st)
  }

  function RewriteGroup(g: GroupExpression, owner: string, all: bool, st: State): (GroupExpression, State)
    decreases g, 2
  {
    var (entries, st') := RewriteEntries(g.entries, owner, 0, all, st);
    (GroupExpression(entries), st')
  }

  function RewriteEntries(
      es: seq<GroupEntry>, owner: string, i: nat, all: bool, st: State): (r: (seq<GroupEntry>, State))
    ensures |r.0| == |es|
    decreases es, 4
  {
    if es == [] then ([], st)
    else
      var (e, st1) := RewriteEntry(es[0], owner + "_" + EntrySuffix(es[0], i), all, st);
      var (rest, st2) := RewriteEntries(es[1..], owner, i + 1, all, st1);
      ([e] + rest, st2)
  }

  function RewriteEntry(e: GroupEntry, name: string, all: bool, st: State): (GroupEntry, State)
    decreases e, 3
  {
    var (valueType, st') := Rewrite(e.valueType, name, all, st);
    (e.(valueType := valueType), st')
  }

  function RewriteArms(
      ts: seq<TypeExpression>, name: string, i: nat, all: bool, st: State): (r: (seq<TypeExpression>, State))
    ensures |r.0| == |ts|
    decreases ts, 4
  {
    if ts == [] then ([], st)
    else
      var (t, st1) := Rewrite(ts[0], name + "_" + Decimal(i), all, st);
      var (rest, st2) := RewriteArms(ts[1..], name, i + 1, all, st1);
      ([t] + rest, st2)
  }

  function RewriteGroups(
      gs: seq<GroupExpression>, name: string, i: nat, all: bool, st: State): (r: (seq<GroupExpression>, State))
    ensures |r.0| == |gs|
    decreases |gs|
  {
    if gs == [] then ([], st)
    else
      var (g, st1) := RewriteGroup(gs[0], name + "_" + Decimal(i), all, st);
      var (rest, st2) := RewriteGroups(gs[1..], name, i + 1, all, st1);
      ([g] + rest, st2)
  }

  /** Service signatures are left alone. */
  function RewriteRule(rule: Rule, all: bool, st: State): (Rule, State) {
    match rule.ruleType
    case GroupDef(g) =>
      var (g', st') := RewriteGroup(g, rule.name, all, st);
      (rule.(ruleType := GroupDef(g')), st')
    case TypeDef(t) =>
      var (t', st') := RewriteInside(t, rule.name, all, st);
      (rule.(ruleType := TypeDef(t')), st')
    case TypeChoice(arms) =>
      var (arms', st') := RewriteArms(arms, rule.name, 0, all, st);
      (rule.(ruleType := TypeChoice(arms')), st')
    case GroupChoice(groups) =>
      var (groups', st') := RewriteGroups(groups, rule.name, 0, all, st);
      (rule.(ruleType := GroupChoice(groups')), st')
    case ServiceDef(_) => (rule, st)
  }

  function RewriteRules(rules: seq<Rule>, all: bool, st: State): (r: (seq<Rule>, State))
    ensures |r.0| == |rules|
    decreases |rules|
  {
    if rules == [] then ([], st)
    else
      var (rule, st1) := RewriteRule(rules[0], all, st);
      var (rest, st2) := RewriteRules(rules[1..], all, st1);
      ([rule] + rest, st2)
  }

  function KeysOf(rules: seq<Rule>): set<string> {
    set r | r in rules :: CanonicalKey(r.name)
  }

  /** The rules of the hoisted specification: the rewritten ones, then the synthesized ones. */
  function Hoisted(rules: seq<Rule>, all: bool): seq<Rule> {
    var (rewritten, st) := RewriteRules(rules, all, State([], KeysOf(rules)));
    rewritten + st.synth
  }
}
