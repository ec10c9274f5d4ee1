/** Folding `/=` rules onto the types they extend: `merge_type_choice_extensions` of
    crates/csilgen-core/src/ast.rs, following section 2.2.2 of RFC 8610. */
module MergeChoices {
  import opened Ast

  predicate IsExtension(r: Rule) {
    r.ruleType.TypeChoice?
  }

  /** The `/=` rules for a name, in order. */
  function Extensions(rules: seq<Rule>, name: string): seq<Rule> {
    if rules == [] then []
    else (if IsExtension(rules[0]) && rules[0].name == name then [rules[0]] else []) + Extensions(rules[1..], name)
  }

  /** The real definitions of a name, in order; the first is the base of its extensions. */
  function Definitions(rules: seq<Rule>, name: string): seq<Rule> {
    if rules == [] then []
    else (if !IsExtension(rules[0]) && rules[0].name == name then [rules[0]] else []) + Definitions(rules[1..], name)
  }

  /** All arms the `/=` rules add to a name, in declaration order. */
  function Arms(rules: seq<Rule>, name: string): seq<TypeExpression> {
    if rules == [] then []
    else
      (if IsExtension(rules[0]) && rules[0].name == name then rules[0].ruleType.arms else []) + Arms(rules[1..], name)
  }

  function Extended(base: TypeExpression, arms: seq<TypeExpression>): TypeExpression {
    if base.Choice? then Choice(base.arms + arms) else Choice([base] + arms)
  }

  function Collapsed(arms: seq<TypeExpression>): TypeExpression {
    if |arms| == 1 then arms[0] else Choice(arms)
  }

  /** What becomes of rule `r`, standing behind `before` in `all`: nothing, or one rule. */
  function Fate(r: Rule, before: seq<Rule>, all: seq<Rule>, collapse: bool): seq<Rule> {
    if !IsExtension(r) then
      if Extensions(all, r.name) != [] && Definitions(before, r.name) == [] && r.ruleType.TypeDef? then
        [r.(ruleType := TypeDef(Extended(r.ruleType.typ, Arms(all, r.name))))]
      else [r]
    else if Definitions(all, r.name) != [] then
      if Definitions(all, r.name)[0].ruleType.TypeDef? then [] else [r]
    else if Extensions(before, r.name) == [] then
      [r.(ruleType := if collapse then TypeDef(Collapsed(Arms(all, r.name))) else TypeChoice(Arms(all, r.name)))]
    else []
  }

  function Fold(rules: seq<Rule>, before: seq<Rule>, all: seq<Rule>, collapse: bool): seq<Rule>
    decreases |rules|
  {
    if rules == [] then []
    else Fate(rules[0], before, all, collapse) + Fold(rules[1..], before + [rules[0]], all, collapse)
  }

  /** The simple reading: each base gets its arms behind its own, in rule order; extensions of a
      base disappear; a name without a base is gathered in its first `/=` rule; an extension of
      something that is not a type stays where it is. Everything else stays in place. */
  function Merged(rules: seq<Rule>, collapse: bool): seq<Rule> {
    Fold(rules, [], rules, collapse)
  }

  // ---- lists put together -----------------------------------------------------------------------------

  lemma ListedConcat(a: seq<Rule>, b: seq<Rule>, name: string)
    ensures Extensions(a + b, name) == Extensions(a, name) + Extensions(b, name)
    ensures Definitions(a + b, name) == Definitions(a, name) + Definitions(b, name)
    ensures Arms(a + b, name) == Arms(a, name) + Arms(b, name)
  {
    hide *;
    ExtensionsConcat(a, b, name);
    DefinitionsConcat(a, b, name);
    ArmsConcat(a, b, name);
  }

  lemma {:induction false} ExtensionsConcat(a: seq<Rule>, b: seq<Rule>, name: string)
    ensures Extensions(a + b, name) == Extensions(a, name) + Extensions(b, name)
    decreases |a|
  {
    hide IsExtension;
    if a == [] {
      assert a + b == b;
    } else {
      ExtensionsConcat(a[1..], b, name);
      assert (a + b)[0] == a[0] && (a + b)[1..] == a[1..] + b;
      var head := if IsExtension(a[0]) && a[0].name == name then [a[0]] else [];
      assert head + (Extensions(a[1..], name) + Extensions(b, name))
          == (head + Extensions(a[1..], name)) + Extensions(b, name);
    }
  }

  lemma {:induction false} DefinitionsConcat(a: seq<Rule>, b: seq<Rule>, name: string)
    ensures Definitions(a + b, name) == Definitions(a, name) + Definitions(b, name)
    decreases |a|
  {
    hide IsExtension;
    if a == [] {
      assert a + b == b;
    } else {
      DefinitionsConcat(a[1..], b, name);
      assert (a + b)[0] == a[0] && (a + b)[1..] == a[1..] + b;
      var head := if !IsExtension(a[0]) && a[0].name == name then [a[0]] else [];
      assert head + (Definitions(a[1..], name) + Definitions(b, name))
          == (head + Definitions(a[1..], name)) + Definitions(b, name);
    }
  }

  lemma {:induction false} ArmsConcat(a: seq<Rule>, b: seq<Rule>, name: string)
    ensures Arms(a + b, name) == Arms(a, name) + Arms(b, name)
    decreases |a|
  {
    if a == [] {
      assert a + b == b;
    } else {
      ArmsConcat(a[1..], b, name);
      assert (a + b)[0] == a[0] && (a + b)[1..] == a[1..] + b;
      var head := if IsExtension(a[0]) && a[0].name == name then a[0].ruleType.arms else [];
      assert head + (Arms(a[1..], name) + Arms(b, name)) == (head + Arms(a[1..], name)) + Arms(b, name);
    }
  }

  lemma ListedOne(r: Rule, name: string)
    ensures Extensions([r], name) == if IsExtension(r) && r.name == name then [r] else []
    ensures Definitions([r], name) == if !IsExtension(r) && r.name == name then [r] else []
    ensures Arms([r], name) == if IsExtension(r) && r.name == name then r.ruleType.arms else []
  {
    assert [r][1..] == [];
  }

  lemma {:induction false} FoldConcat(a: seq<Rule>, b: seq<Rule>, before: seq<Rule>, all: seq<Rule>, collapse: bool)
    ensures Fold(a + b, before, all, collapse)
         == Fold(a, before, all, collapse) + Fold(b, before + a, all, collapse)
    decreases |a|
  {
    hide Fate;
    if a == [] {
      assert a + b == b && before + a == before;
    } else {
      FoldConcat(a[1..], b, before + [a[0]], all, collapse);
      assert (a + b)[1..] == a[1..] + b;
      assert before + [a[0]] + a[1..] == before + a;
    }
  }

  /** The extensions left after merging: none of a type, all of something else, and one rule
      with everything for a name without a base. */
  function Remaining(rules: seq<Rule>, before: seq<Rule>, all: seq<Rule>, collapse: bool, name: string): seq<Rule> {
    if Definitions(all, name) != [] then
      if Definitions(all, name)[0].ruleType.TypeDef? then [] else Extensions(rules, name)
    else if collapse || Extensions(before, name) != [] || Extensions(rules, name) == [] then []
    else [Extensions(rules, name)[0].(ruleType := TypeChoice(Arms(all, name)))]
  }

  lemma {:induction false} FoldExtensions(
      rules: seq<Rule>, before: seq<Rule>, all: seq<Rule>, collapse: bool, name: string)
    ensures Extensions(Fold(rules, before, all, collapse), name) == Remaining(rules, before, all, collapse, name)
    decreases |rules|
  {
    if rules != [] {
      var r := rules[0];
      FoldExtensions(rules[1..], before + [r], all, collapse, name);
      ListedConcat(Fate(r, before, all, collapse), Fold(rules[1..], before + [r], all, collapse), name);
      FateListed(r, before, all, collapse, name);
      ListedConcat(before, [r], name);
      ListedOne(r, name);
    }
  }

  /** What one rule leaves behind under a name. */
  lemma FateListed(r: Rule, before: seq<Rule>, all: seq<Rule>, collapse: bool, name: string)
    ensures var left := Fate(r, before, all, collapse);
            && |left| <= 1
            && (left != [] ==> left[0].name == r.name)
            && (!IsExtension(r) ==>
                  left != [] && !IsExtension(left[0]) && (left[0].ruleType.TypeDef? <==> r.ruleType.TypeDef?))
            && (IsExtension(r) && left != [] && (Definitions(all, r.name) != [] || !collapse) ==> IsExtension(left[0]))
            && (left != [] && name == r.name ==>
                  && Extensions(left, name) == (if IsExtension(left[0]) then left else [])
                  && Definitions(left, name) == (if IsExtension(left[0]) then [] else left))
            && (left == [] || name != r.name ==> Extensions(left, name) == [] && Definitions(left, name) == [])
  {
    hide Extended, Collapsed, Arms;
    var left := Fate(r, before, all, collapse);
    if left != [] {
      assert left == [left[0]];
      ListedOne(left[0], name);
    }
  }

  lemma {:induction false} FoldDefinitions(
      rules: seq<Rule>, before: seq<Rule>, all: seq<Rule>, collapse: bool, name: string)
    requires Definitions(rules, name) != [] ==> Definitions(all, name) != []
    ensures var kept := Definitions(Fold(rules, before, all, collapse), name);
            && (Definitions(all, name) != [] ==> |kept| == |Definitions(rules, name)|)
            && (Definitions(all, name) != [] && kept != [] ==>
                  (kept[0].ruleType.TypeDef? <==> Definitions(rules, name)[0].ruleType.TypeDef?))
            && (Definitions(all, name) == [] && !collapse ==> kept == [])
    decreases |rules|
  {
    hide Fate;
    if rules != [] {
      var r := rules[0];
      FoldDefinitions(rules[1..], before + [r], all, collapse, name);
      ListedConcat(Fate(r, before, all, collapse), Fold(rules[1..], before + [r], all, collapse), name);
      FateListed(r, before, all, collapse, name);
    }
  }

  lemma {:induction false} ArmsOfExtensions(rules: seq<Rule>, name: string)
    ensures forall r | r in Extensions(rules, name) :: IsExtension(r)
    ensures Extensions(rules, name) == [] ==> Arms(rules, name) == []
    ensures |Extensions(rules, name)| == 1 ==>
              IsExtension(Extensions(rules, name)[0]) && Arms(rules, name) == Extensions(rules, name)[0].ruleType.arms
    decreases |rules|
  {
    if rules != [] {
      ArmsOfExtensions(rules[1..], name);
    }
  }

  // ---- what becomes of a name ----------------------------------------------------------------------------

  /** The rules of this name, in order. */
  function Named(rules: seq<Rule>, name: string): seq<Rule> {
    if rules == [] then [] else (if rules[0].name == name then [rules[0]] else []) + Named(rules[1..], name)
  }

  /** The first `/=` rule of a name without a base, with all arms there are for it. */
  function Gathered(first: Rule, arms: seq<TypeExpression>, collapse: bool): Rule {
    first.(ruleType := if !collapse then TypeChoice(arms)
                       else if |arms| == 1 then TypeDef(arms[0])
                       else TypeDef(Choice(arms)))
  }

  /** A base with the arms of its extensions behind its own, or behind the type it was. */
  function Grown(base: Rule, arms: seq<TypeExpression>): Rule
    requires base.ruleType.TypeDef?
  {
    var own := if base.ruleType.typ.Choice? then base.ruleType.typ.arms else [base.ruleType.typ];
    base.(ruleType := TypeDef(Choice(own + arms)))
  }

  /** What the rules of a name should become: without extensions, or with a base that is no type, they
      stay; without a base, one rule has all arms; otherwise the base has them, the extensions go, and
      further definitions stay. */
  function Becomes(rules: seq<Rule>, name: string, collapse: bool): seq<Rule> {
    var bases, extensions, arms := Definitions(rules, name), Extensions(rules, name), Arms(rules, name);
    if extensions == [] then Named(rules, name)
    else if bases == [] then [Gathered(extensions[0], arms, collapse)]
    else if !bases[0].ruleType.TypeDef? then Named(rules, name)
    else [Grown(bases[0], arms)] + bases[1..]
  }

  /** The same from some rule on. */
  function BecomesFrom(rules: seq<Rule>, before: seq<Rule>, all: seq<Rule>, name: string, collapse: bool): seq<Rule> {
    var bases, extensions, arms := Definitions(rules, name), Extensions(rules, name), Arms(all, name);
    if Extensions(all, name) == [] then Named(rules, name)
    else if Definitions(all, name) == [] then
      if Extensions(before, name) != [] || extensions == [] then [] else [Gathered(extensions[0], arms, collapse)]
    else if !Definitions(all, name)[0].ruleType.TypeDef? then Named(rules, name)
    else if Definitions(before, name) != [] || bases == [] then bases
    else if !bases[0].ruleType.TypeDef? then bases
    else [Grown(bases[0], arms)] + bases[1..]
  }

  lemma {:induction false} NamedConcat(a: seq<Rule>, b: seq<Rule>, name: string)
    ensures Named(a + b, name) == Named(a, name) + Named(b, name)
    decreases |a|
  {
    if a == [] {
      assert a + b == b;
    } else {
      NamedConcat(a[1..], b, name);
      assert (a + b)[0] == a[0] && (a + b)[1..] == a[1..] + b;
      var head := if a[0].name == name then [a[0]] else [];
      assert head + (Named(a[1..], name) + Named(b, name)) == (head + Named(a[1..], name)) + Named(b, name);
    }
  }

  lemma NamedOne(r: Rule, name: string)
    ensures Named([r], name) == if r.name == name then [r] else []
  {
    assert [r][1..] == [];
  }

  /** What one rule becomes, and what is left to do behind it. */
  lemma {:induction false} FateBecomes(
      r: Rule, rest: seq<Rule>, before: seq<Rule>, all: seq<Rule>, name: string, collapse: bool)
    requires all == before + ([r] + rest)
    ensures BecomesFrom([r] + rest, before, all, name, collapse)
         == Named(Fate(r, before, all, collapse), name) + BecomesFrom(rest, before + [r], all, name, collapse)
  {
    hide Definitions, Extensions, Arms, Named;
    ListedConcat([r], rest, name);
    ListedConcat(before, [r], name);
    ListedConcat(before, [r] + rest, name);
    ListedOne(r, name);
    NamedConcat([r], rest, name);
    NamedOne(r, name);
    var left := Fate(r, before, all, collapse);
    if left != [] {
      assert left == [left[0]];
      NamedOne(left[0], name);
    }
    NamedNothing(name);
  }

  lemma NamedNothing(name: string)
    ensures Named([], name) == []
  {
  }

  lemma {:induction false} FoldBecomes(
      rules: seq<Rule>, before: seq<Rule>, all: seq<Rule>, name: string, collapse: bool)
    requires all == before + rules
    ensures Named(Fold(rules, before, all, collapse), name) == BecomesFrom(rules, before, all, name, collapse)
    decreases |rules|
  {
    hide Fate, BecomesFrom;
    if rules == [] {
      NothingBecomes(before, all, name, collapse);
    } else {
      var r, rest := rules[0], rules[1..];
      assert rules == [r] + rest && all == before + [r] + rest;
      FoldBecomes(rest, before + [r], all, name, collapse);
      FateBecomes(r, rest, before, all, name, collapse);
      NamedConcat(Fate(r, before, all, collapse), Fold(rest, before + [r], all, collapse), name);
    }
  }

  lemma NothingBecomes(before: seq<Rule>, all: seq<Rule>, name: string, collapse: bool)
    ensures BecomesFrom([], before, all, name, collapse) == []
  {
  }

  /** Main result: after merging, the rules of every name are what they should become. */
  lemma {:induction false} MergedByName(rules: seq<Rule>, name: string, collapse: bool)
    ensures Named(Merged(rules, collapse), name) == Becomes(rules, name, collapse)
  {
    hide Fold, Extensions, Definitions, Arms, Named;
    assert [] + rules == rules;
    FoldBecomes(rules, [], rules, name, collapse);
    ListedNothing(name);
    OnlyDefinitions(rules, name);
  }

  /** In particular a name that is only ever extended ends as one rule: its lone arm, or the choice of all
      its arms. */
  lemma {:induction false} OrphanCollapses(rules: seq<Rule>, name: string)
    requires Definitions(rules, name) == [] && Extensions(rules, name) != []
    ensures var arms, left := Arms(rules, name), Named(Merged(rules, true), name);
            |left| == 1 && left[0].ruleType == TypeDef(if |arms| == 1 then arms[0] else Choice(arms))
  {
    hide Merged, Extensions, Definitions, Arms, Named;
    MergedByName(rules, name, true);
  }

  lemma {:induction false} OnlyDefinitions(rules: seq<Rule>, name: string)
    ensures Extensions(rules, name) == [] ==> Named(rules, name) == Definitions(rules, name)
    decreases |rules|
  {
    if rules != [] {
      OnlyDefinitions(rules[1..], name);
    }
  }

  // ---- merging twice changes nothing ------------------------------------------------------------------

  lemma FateStable(r: Rule, before: seq<Rule>, rest: seq<Rule>, collapse: bool)
    requires var all := before + [r] + rest; Fate(r, before, all, collapse) != []
    ensures var all := before + [r] + rest;
            var left := Fate(r, before, all, collapse);
            Fate(left[0], Fold(before, [], all, collapse), Merged(all, collapse), collapse) == left
  {
    hide Fold, Extended, Collapsed, Extensions, Definitions, Arms;
    var all := before + [r] + rest;
    var left := Fate(r, before, all, collapse);
    var name, merged := r.name, Merged(all, collapse);
    ListedConcat(before + [r], rest, name);
    ListedConcat(before, [r], name);
    ListedOne(r, name);
    FoldExtensions(all, [], all, collapse, name);
    FoldExtensions(before, [], all, collapse, name);
    FoldDefinitions(all, [], all, collapse, name);
    FoldDefinitions(before, [], all, collapse, name);
    ArmsOfExtensions(merged, name);
    ListedNothing(name);
  }

  lemma ListedNothing(name: string)
    ensures Extensions([], name) == [] && Definitions([], name) == [] && Arms([], name) == []
  {
  }

  lemma {:induction false} FoldStable(rules: seq<Rule>, before: seq<Rule>, collapse: bool)
    ensures var all := before + rules;
            var left := Fold(rules, before, all, collapse);
            Fold(left, Fold(before, [], all, collapse), Merged(all, collapse), collapse) == left
    decreases |rules|
  {
    hide Fate, Merged;
    var all := before + rules;
    if rules != [] {
      var r, rest := rules[0], rules[1..];
      assert all == before + [r] + rest;
      var left := Fate(r, before, all, collapse);
      var kept, merged := Fold(before, [], all, collapse), Merged(all, collapse);
      FateListed(r, before, all, collapse, r.name);
      FoldStable(rest, before + [r], collapse);
      FoldConcat(before, [r], [], all, collapse);
      FoldOne(r, before, all, collapse);
      assert [] + before == before;
      FoldConcat(left, Fold(rest, before + [r], all, collapse), kept, merged, collapse);
      if left != [] {
        FateStable(r, before, rest, collapse);
        FoldOne(left[0], kept, merged, collapse);
        assert left == [left[0]];
      }
    }
  }

  lemma FoldOne(r: Rule, before: seq<Rule>, all: seq<Rule>, collapse: bool)
    ensures Fold([r], before, all, collapse) == Fate(r, before, all, collapse)
  {
    hide Fate;
    assert [r][1..] == [];
    assert Fate(r, before, all, collapse) + [] == Fate(r, before, all, collapse);
  }

  /** Merging is idempotent, in either mode, for any rules whatever. */
  lemma {:induction false} MergeIdempotent(rules: seq<Rule>, collapse: bool)
    ensures Merged(Merged(rules, collapse), collapse) == Merged(rules, collapse)
  {
    hide Fate;
    assert [] + rules == rules;
    FoldStable(rules, [], collapse);
  }
}
