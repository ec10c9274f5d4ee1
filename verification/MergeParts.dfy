/** Merging `/=` rules file by file and then once more over everything, as import resolution
    does, against merging everything in one pass. */
module MergeParts {
  import opened Ast
  import opened MergeChoices

  function Flat(parts: seq<seq<Rule>>): seq<Rule> {
    if parts == [] then [] else parts[0] + Flat(parts[1..])
  }

  /** Each part merged on its own, orphans kept as `/=` rules. */
  function MergedParts(parts: seq<seq<Rule>>): seq<Rule> {
    if parts == [] then [] else Merged(parts[0], false) + MergedParts(parts[1..])
  }

  /** Every extended name has at most one real definition, and it is a type. */
  ghost predicate OneTypeEach(rules: seq<Rule>) {
    forall name :: Extensions(rules, name) != [] ==>
      && |Definitions(rules, name)| <= 1
      && (Definitions(rules, name) != [] ==> Definitions(rules, name)[0].ruleType.TypeDef?)
  }

  /** Equal but for the order of a choice's arms. */
  predicate SameUpToArmOrder(r: Rule, s: Rule) {
    || r == s
    || (&& r.ruleType.TypeDef? && s.ruleType.TypeDef? && r.ruleType.typ.Choice? && s.ruleType.typ.Choice?
        && r.(ruleType := s.ruleType) == s
        && multiset(r.ruleType.typ.arms) == multiset(s.ruleType.typ.arms))
  }

  predicate AllSameUpToArmOrder(rs: seq<Rule>, ss: seq<Rule>) {
    |rs| == |ss| && forall i :: 0 <= i < |rs| ==> SameUpToArmOrder(rs[i], ss[i])
  }

  /** The arms a base's own part adds may be moved in front of the arms added by earlier parts. */
  predicate RuleInOrder(r: Rule, part: seq<Rule>, earlier: seq<Rule>) {
    IsExtension(r) || Arms(part, r.name) + Arms(earlier, r.name) == Arms(earlier, r.name) + Arms(part, r.name)
  }

  /** No definition stands in a later part than arms that extend it, unless swapping the two
      runs of arms makes no difference. */
  predicate InOrder(parts: seq<seq<Rule>>, earlier: seq<Rule>) {
    parts != [] ==>
      && (forall r | r in parts[0] :: RuleInOrder(r, parts[0], earlier))
      && InOrder(parts[1..], earlier + parts[0])
  }

  // ---- what merging a part leaves of a name -----------------------------------------------------------

  /** Merging a part keeps definitions, and keeps extensions only of names it does not define. */
  lemma PartListed(part: seq<Rule>, name: string)
    requires Definitions(part, name) != [] && Extensions(part, name) != []
         ==> Definitions(part, name)[0].ruleType.TypeDef?
    ensures var m := Merged(part, false);
            && (Definitions(m, name) == [] <==> Definitions(part, name) == [])
            && |Definitions(m, name)| == |Definitions(part, name)|
            && (Definitions(m, name) != [] ==>
                  (Definitions(m, name)[0].ruleType.TypeDef? <==> Definitions(part, name)[0].ruleType.TypeDef?))
            && (Extensions(m, name) == [] <==> Extensions(part, name) == [] || Definitions(part, name) != [])
            && Arms(m, name) == if Definitions(part, name) == [] then Arms(part, name) else []
  {
    hide Fold, Extensions, Definitions, Arms;
    FoldDefinitions(part, [], part, false, name);
    FoldExtensions(part, [], part, false, name);
    ArmsOfExtensions(Merged(part, false), name);
    ArmsOfExtensions(part, name);
    ListedNothing(name);
  }

  lemma FlatConcat(a: seq<seq<Rule>>, b: seq<seq<Rule>>)
    ensures Flat(a + b) == Flat(a) + Flat(b)
    ensures MergedParts(a + b) == MergedParts(a) + MergedParts(b)
    decreases |a|
  {
    hide Merged;
    if a == [] {
      assert a + b == b;
    } else {
      FlatConcat(a[1..], b);
      assert (a + b)[1..] == a[1..] + b;
    }
  }

  /** Names with no type definition of their own in any of these parts keep all their arms. */
  lemma {:induction false} PartsListed(parts: seq<seq<Rule>>, name: string)
    requires Definitions(Flat(parts), name) != [] && Extensions(Flat(parts), name) != [] ==>
               |Definitions(Flat(parts), name)| <= 1 && Definitions(Flat(parts), name)[0].ruleType.TypeDef?
    ensures var m, f := MergedParts(parts), Flat(parts);
            && |Definitions(m, name)| == |Definitions(f, name)|
            && (Definitions(m, name) != [] ==>
                  (Definitions(m, name)[0].ruleType.TypeDef? <==> Definitions(f, name)[0].ruleType.TypeDef?))
            && (Definitions(f, name) == [] ==> Arms(m, name) == Arms(f, name))
            && (Definitions(f, name) == [] ==> (Extensions(m, name) == [] <==> Extensions(f, name) == []))
            && (Extensions(f, name) == [] ==> Extensions(m, name) == [])
    decreases |parts|
  {
    hide Merged, Extensions, Definitions, Arms;
    ListedNothing(name);
    if parts != [] {
      var first, rest := parts[0], parts[1..];
      ListedConcat(first, Flat(rest), name);
      ListedConcat(Merged(first, false), MergedParts(rest), name);
      PartListed(first, name);
      PartsListed(rest, name);
    }
  }

  // ---- one rule ---------------------------------------------------------------------------------------

  /** Rule `r` of a part, behind `before` in it and `f1` ahead of the part, `f2` after it. */
  ghost predicate Placed(p1: seq<seq<Rule>>, before: seq<Rule>, r: Rule, after: seq<Rule>, p2: seq<seq<Rule>>) {
    OneTypeEach(Flat(p1) + (before + [r] + after) + Flat(p2))
  }

  /** How a name is listed in the whole and in the merged parts. */
  lemma WholeListed(p1: seq<seq<Rule>>, part: seq<Rule>, p2: seq<seq<Rule>>, name: string)
    requires OneTypeEach(Flat(p1) + part + Flat(p2))
    ensures var f1, f2, m1, m2, m := Flat(p1), Flat(p2), MergedParts(p1), MergedParts(p2), Merged(part, false);
            var all, allM := f1 + part + f2, m1 + m + m2;
            && Extensions(all, name) == Extensions(f1, name) + Extensions(part, name) + Extensions(f2, name)
            && Definitions(all, name) == Definitions(f1, name) + Definitions(part, name) + Definitions(f2, name)
            && Arms(all, name) == Arms(f1, name) + Arms(part, name) + Arms(f2, name)
            && Extensions(allM, name) == Extensions(m1, name) + Extensions(m, name) + Extensions(m2, name)
            && Definitions(allM, name) == Definitions(m1, name) + Definitions(m, name) + Definitions(m2, name)
            && Arms(allM, name) == Arms(m1, name) + Arms(m, name) + Arms(m2, name)
  {
    hide Merged, Flat, MergedParts, Extensions, Definitions, Arms;
    var f1, f2, m1, m2, m := Flat(p1), Flat(p2), MergedParts(p1), MergedParts(p2), Merged(part, false);
    ListedConcat(f1 + part, f2, name);
    ListedConcat(f1, part, name);
    ListedConcat(m1 + m, m2, name);
    ListedConcat(m1, m, name);
  }

  /** A type definition with arms behind its own, if it has extensions at all. */
  function WithArms(r: Rule, extended: bool, arms: seq<TypeExpression>): Rule
    requires extended ==> r.ruleType.TypeDef?
  {
    if extended then r.(ruleType := TypeDef(Extended(r.ruleType.typ, arms))) else r
  }

  /** Extending by the own part's arms and then by the others', against all at once. */
  lemma ExtendedTwice(r: Rule, own: bool, ownArms: seq<TypeExpression>, others: bool,
                      earlier: seq<TypeExpression>, later: seq<TypeExpression>)
    requires r.ruleType.TypeDef? && (own || others)
    requires (!own ==> ownArms == []) && (!others ==> earlier == [] && later == [])
    ensures var twice := WithArms(WithArms(r, own, ownArms), others, earlier + later);
            var direct := WithArms(r, true, earlier + ownArms + later);
            && SameUpToArmOrder(twice, direct)
            && (twice == direct <==> ownArms + earlier == earlier + ownArms)
  {
    var base := if r.ruleType.typ.Choice? then r.ruleType.typ.arms else [r.ruleType.typ];
    TwiceTyped(r, own, ownArms, others, earlier + later, base);
    var direct := WithArms(r, true, earlier + ownArms + later);
    assert direct.ruleType.typ == Choice(base + (earlier + ownArms + later));
    assert base + ownArms + (earlier + later) == base + (ownArms + earlier) + later;
    assert base + (earlier + ownArms + later) == base + (earlier + ownArms) + later;
    Cancel(base, ownArms + earlier, earlier + ownArms, later);
  }

  lemma TwiceTyped(r: Rule, own: bool, ownArms: seq<TypeExpression>, others: bool, otherArms: seq<TypeExpression>,
                   base: seq<TypeExpression>)
    requires r.ruleType.TypeDef? && (own || others) && (!own ==> ownArms == []) && (!others ==> otherArms == [])
    requires base == if r.ruleType.typ.Choice? then r.ruleType.typ.arms else [r.ruleType.typ]
    ensures WithArms(WithArms(r, own, ownArms), others, otherArms)
         == r.(ruleType := TypeDef(Choice(base + ownArms + otherArms)))
  {
    assert !own ==> base + ownArms == base;
    assert !others ==> base + ownArms + otherArms == base + ownArms;
  }

  lemma Cancel<T>(a: seq<T>, b: seq<T>, c: seq<T>, d: seq<T>)
    requires |b| == |c|
    ensures a + b + d == a + c + d <==> b == c
  {
    assert (a + b + d)[|a|..|a| + |b|] == b;
    assert (a + c + d)[|a|..|a| + |c|] == c;
  }

  lemma FateOfBase(r: Rule, before: seq<Rule>, all: seq<Rule>, collapse: bool)
    requires !IsExtension(r) && Definitions(before, r.name) == []
    requires Extensions(all, r.name) != [] ==> r.ruleType.TypeDef?
    ensures Fate(r, before, all, collapse) == [WithArms(r, Extensions(all, r.name) != [], Arms(all, r.name))]
  {
  }

  /** Under `OneTypeEach` an extended definition is the only one, and a type. */
  lemma OnlyDefinition(p1: seq<seq<Rule>>, before: seq<Rule>, r: Rule, after: seq<Rule>, p2: seq<seq<Rule>>)
    requires Placed(p1, before, r, after, p2) && !IsExtension(r)
    requires Extensions(Flat(p1) + (before + [r] + after) + Flat(p2), r.name) != []
    ensures r.ruleType.TypeDef?
    ensures Definitions(Flat(p1) + before, r.name) == [] && Definitions(before, r.name) == []
    ensures Definitions(Flat(p1), r.name) == [] && Definitions(Flat(p2), r.name) == []
    ensures Definitions(before + [r] + after, r.name) == [r]
  {
    hide Flat, Extensions, Definitions, Arms;
    var part, f1, f2, name := before + [r] + after, Flat(p1), Flat(p2), r.name;
    ListedConcat(f1 + part, f2, name);
    ListedConcat(f1, part, name);
    ListedConcat(before + [r], after, name);
    ListedConcat(before, [r], name);
    ListedOne(r, name);
    ListedConcat(f1, before, name);
  }

  /** Where the definition's name has extensions: what each way makes of it. */
  lemma BothFates(p1: seq<seq<Rule>>, before: seq<Rule>, r: Rule, after: seq<Rule>, p2: seq<seq<Rule>>, collapse: bool)
    requires Placed(p1, before, r, after, p2) && !IsExtension(r)
    requires Extensions(Flat(p1) + (before + [r] + after) + Flat(p2), r.name) != []
    ensures r.ruleType.TypeDef?
    ensures var part := before + [r] + after;
            var all, allM := Flat(p1) + part + Flat(p2), MergedParts(p1) + Merged(part, false) + MergedParts(p2);
            var left, direct := Fate(r, before, part, false), Fate(r, Flat(p1) + before, all, collapse);
            && left != []
            && var twice := Fate(left[0], MergedParts(p1) + Fold(before, [], part, false), allM, collapse);
               && left == [WithArms(r, Extensions(part, r.name) != [], Arms(part, r.name))]
               && twice == [WithArms(left[0], Extensions(allM, r.name) != [],
                   Arms(Flat(p1), r.name) + Arms(Flat(p2), r.name))]
               && direct == [WithArms(r, true, Arms(Flat(p1), r.name) + Arms(part, r.name) + Arms(Flat(p2), r.name))]
               && (Extensions(part, r.name) != [] || Extensions(allM, r.name) != [])
               && (Extensions(part, r.name) == [] ==> Arms(part, r.name) == [])
               && (Extensions(allM, r.name) == [] ==> Arms(Flat(p1), r.name) == [] && Arms(Flat(p2), r.name) == [])
  {
    hide Merged, Flat, MergedParts, Extensions, Definitions, Arms, Fold, Fate, OneTypeEach, Extended;
    var part, name := before + [r] + after, r.name;
    var f1, f2 := Flat(p1), Flat(p2);
    var m1, m, m2 := MergedParts(p1), Merged(part, false), MergedParts(p2);
    var all, allM, kept := f1 + part + f2, m1 + m + m2, Fold(before, [], part, false);
    WholeListed(p1, part, p2, name);
    OnlyDefinition(p1, before, r, after, p2);
    PartsListed(p1, name);
    PartsListed(p2, name);
    PartListed(part, name);
    ArmsOfExtensions(part, name);
    ArmsOfExtensions(f1, name);
    ArmsOfExtensions(f2, name);
    FoldDefinitions(before, [], part, false, name);
    ListedConcat(m1, kept, name);
    FateOfBase(r, before, part, false);
    FateOfBase(r, f1 + before, all, collapse);
    FateOfBase(WithArms(r, Extensions(part, name) != [], Arms(part, name)), m1 + kept, allM, collapse);
    assert Arms(f1, name) + [] + Arms(f2, name) == Arms(f1, name) + Arms(f2, name);
  }

  /** A definition: both ways it gets all arms, its own part's first in the one case and the
      earlier parts' first in the other. */
  lemma DefinitionTwice(
      p1: seq<seq<Rule>>, before: seq<Rule>, r: Rule, after: seq<Rule>, p2: seq<seq<Rule>>, collapse: bool)
    requires Placed(p1, before, r, after, p2) && !IsExtension(r)
    ensures var part := before + [r] + after;
            var all, allM := Flat(p1) + part + Flat(p2), MergedParts(p1) + Merged(part, false) + MergedParts(p2);
            var left, direct := Fate(r, before, part, false), Fate(r, Flat(p1) + before, all, collapse);
            && left != []
            && var twice := Fate(left[0], MergedParts(p1) + Fold(before, [], part, false), allM, collapse);
               && AllSameUpToArmOrder(twice, direct)
               && (twice == direct <==> RuleInOrder(r, part, Flat(p1)))
  {
    hide Merged, Flat, MergedParts, Extensions, Definitions, Arms, Fold, Fate, OneTypeEach, WithArms, SameUpToArmOrder;
    var part, name := before + [r] + after, r.name;
    var f1, f2 := Flat(p1), Flat(p2);
    var allM := MergedParts(p1) + Merged(part, false) + MergedParts(p2);
    if Extensions(f1 + part + f2, name) == [] {
      WholeListed(p1, part, p2, name);
      ArmsOfExtensions(f1, name);
      ArmsOfExtensions(part, name);
      NoArms(p1, before, r, after, p2);
      Unextended(r, before, part, false);
      Unextended(r, f1 + before, f1 + part + f2, collapse);
      Unextended(r, MergedParts(p1) + Fold(before, [], part, false), allM, collapse);
      SameAsItself(r);
    } else {
      BothFates(p1, before, r, after, p2, collapse);
      ExtendedTwice(r, Extensions(part, name) != [], Arms(part, name), Extensions(allM, name) != [], Arms(f1, name),
          Arms(f2, name));
    }
  }

  lemma SameAsItself(r: Rule)
    ensures SameUpToArmOrder(r, r)
  {
  }

  lemma Unextended(r: Rule, before: seq<Rule>, all: seq<Rule>, collapse: bool)
    requires !IsExtension(r) && Extensions(all, r.name) == []
    ensures Fate(r, before, all, collapse) == [r]
  {
  }

  lemma NoArms(p1: seq<seq<Rule>>, before: seq<Rule>, r: Rule, after: seq<Rule>, p2: seq<seq<Rule>>)
    requires Placed(p1, before, r, after, p2)
    requires Extensions(Flat(p1) + (before + [r] + after) + Flat(p2), r.name) == []
    ensures var part := before + [r] + after;
            && Extensions(part, r.name) == []
            && Extensions(MergedParts(p1) + Merged(part, false) + MergedParts(p2), r.name) == []
  {
    hide Merged, Flat, MergedParts, Extensions, Definitions, Arms;
    var part := before + [r] + after;
    WholeListed(p1, part, p2, r.name);
    PartsListed(p1, r.name);
    PartsListed(p2, r.name);
    PartListed(part, r.name);
  }

  /** An extension comes out the same both ways. */
  lemma ExtensionTwice(
      p1: seq<seq<Rule>>, before: seq<Rule>, r: Rule, after: seq<Rule>, p2: seq<seq<Rule>>, collapse: bool)
    requires Placed(p1, before, r, after, p2) && IsExtension(r)
    ensures var part := before + [r] + after;
            var all, allM := Flat(p1) + part + Flat(p2), MergedParts(p1) + Merged(part, false) + MergedParts(p2);
            var left, direct := Fate(r, before, part, false), Fate(r, Flat(p1) + before, all, collapse);
            if left == [] then direct == []
            else Fate(left[0], MergedParts(p1) + Fold(before, [], part, false), allM, collapse) == direct
  {
    hide Merged, Flat, MergedParts, Extensions, Definitions, Arms, Fold, Collapsed, Extended;
    var part, name := before + [r] + after, r.name;
    var f1 := Flat(p1);
    WholeListed(p1, part, p2, name);
    ListedConcat(before + [r], after, name);
    ListedConcat(before, [r], name);
    ListedOne(r, name);
    ListedConcat(f1, before, name);
    var kept := Fold(before, [], part, false);
    ListedConcat(MergedParts(p1), kept, name);
    FoldExtensions(before, [], part, false, name);
    ListedNothing(name);
    PartsListed(p1, name);
    PartsListed(p2, name);
    PartListed(part, name);
  }

  // ---- a part, and all parts ----------------------------------------------------------------------------

  lemma SameAppend(a: seq<Rule>, b: seq<Rule>, x: seq<Rule>, y: seq<Rule>)
    requires AllSameUpToArmOrder(a, b) && AllSameUpToArmOrder(x, y)
    ensures AllSameUpToArmOrder(a + x, b + y) && (a + x == b + y <==> a == b && x == y)
  {
    hide SameUpToArmOrder;
    if a + x == b + y {
      assert (a + x)[..|a|] == a && (a + x)[|a|..] == x;
      assert (b + y)[..|b|] == b && (b + y)[|b|..] == y;
    }
  }

  /** The rules of one part, from some point on. */
  lemma {:induction false} PartTwice(
      p1: seq<seq<Rule>>, before: seq<Rule>, rules: seq<Rule>, p2: seq<seq<Rule>>, collapse: bool)
    requires OneTypeEach(Flat(p1) + (before + rules) + Flat(p2))
    ensures var part := before + rules;
            var all, allM := Flat(p1) + part + Flat(p2), MergedParts(p1) + Merged(part, false) + MergedParts(p2);
            var twice := Fold(Fold(rules, before, part, false), MergedParts(p1) + Fold(before, [], part, false), allM,
                collapse);
            var direct := Fold(rules, Flat(p1) + before, all, collapse);
            && AllSameUpToArmOrder(twice, direct)
            && (twice == direct <==> forall r | r in rules :: RuleInOrder(r, part, Flat(p1)))
    decreases |rules|
  {
    hide Merged, Flat, MergedParts, Fate, OneTypeEach, RuleInOrder, SameUpToArmOrder;
    if rules != [] {
      var r, rest, part := rules[0], rules[1..], before + rules;
      var all, allM := Flat(p1) + part + Flat(p2), MergedParts(p1) + Merged(part, false) + MergedParts(p2);
      assert part == before + [r] + rest;
      PartTwice(p1, before + [r], rest, p2, collapse);
      var kept := Fold(before, [], part, false);
      var left, tail := Fate(r, before, part, false), Fold(rest, before + [r], part, false);
      assert [] + before == before;
      FoldConcat(before, [r], [], part, false);
      FoldOne(r, before, part, false);
      FateListed(r, before, part, false, r.name);
      FoldConcat(left, tail, MergedParts(p1) + kept, allM, collapse);
      assert MergedParts(p1) + kept + left == MergedParts(p1) + (kept + left);
      assert Flat(p1) + before + [r] == Flat(p1) + (before + [r]);
      RuleTwice(p1, before, r, rest, p2, collapse);
      SameAppend(Fold(left, MergedParts(p1) + kept, allM, collapse), Fate(r, Flat(p1) + before, all, collapse),
                 Fold(tail, MergedParts(p1) + (kept + left), allM, collapse),
                 Fold(rest, Flat(p1) + (before + [r]), all, collapse));
      assert rules == [r] + rest;
    }
  }

  /** Any one rule. */
  lemma RuleTwice(p1: seq<seq<Rule>>, before: seq<Rule>, r: Rule, after: seq<Rule>, p2: seq<seq<Rule>>, collapse: bool)
    requires Placed(p1, before, r, after, p2)
    ensures var part := before + [r] + after;
            var all, allM := Flat(p1) + part + Flat(p2), MergedParts(p1) + Merged(part, false) + MergedParts(p2);
            var twice := Fold(Fate(r, before, part, false), MergedParts(p1) + Fold(before, [], part, false), allM,
                collapse);
            var direct := Fate(r, Flat(p1) + before, all, collapse);
            && AllSameUpToArmOrder(twice, direct)
            && (twice == direct <==> RuleInOrder(r, part, Flat(p1)))
  {
    hide Merged, Flat, MergedParts, Fate, OneTypeEach, Arms;
    var part := before + [r] + after;
    var left := Fate(r, before, part, false);
    var kept, allM := MergedParts(p1) + Fold(before, [], part, false),
        MergedParts(p1) + Merged(part, false) + MergedParts(p2);
    FateListed(r, before, part, false, r.name);
    if left != [] {
      assert left == [left[0]];
      FoldOne(left[0], kept, allM, collapse);
    }
    if IsExtension(r) {
      ExtensionTwice(p1, before, r, after, p2, collapse);
    } else {
      DefinitionTwice(p1, before, r, after, p2, collapse);
    }
  }

  lemma {:induction false} PartsTwice(p1: seq<seq<Rule>>, p2: seq<seq<Rule>>, collapse: bool)
    requires OneTypeEach(Flat(p1 + p2))
    ensures var all, allM := Flat(p1 + p2), MergedParts(p1 + p2);
            var twice := Fold(MergedParts(p2), MergedParts(p1), allM, collapse);
            var direct := Fold(Flat(p2), Flat(p1), all, collapse);
            AllSameUpToArmOrder(twice, direct) && (twice == direct <==> InOrder(p2, Flat(p1)))
    decreases |p2|
  {
    hide Fold, Flat, MergedParts, Merged, OneTypeEach, RuleInOrder, SameUpToArmOrder, AllSameUpToArmOrder;
    if p2 == [] {
      NoParts();
      NothingSame();
      FoldNothing(MergedParts(p1), MergedParts(p1 + p2), collapse);
      FoldNothing(Flat(p1), Flat(p1 + p2), collapse);
    } else {
      var part, rest := p2[0], p2[1..];
      var all, allM := Flat(p1 + p2), MergedParts(p1 + p2);
      assert p2 == [part] + rest && p1 + p2 == p1 + [part] + rest;
      FlatSplit(p1, part, rest);
      PartsTwice(p1 + [part], rest, collapse);
      assert [] + part == part;
      PartTwice(p1, [], part, rest, collapse);
      FoldNothing([], part, false);
      assert MergedParts(p1) + [] == MergedParts(p1) && Flat(p1) + [] == Flat(p1);
      MergedIsFold(part);
      FoldConcat(Merged(part, false), MergedParts(rest), MergedParts(p1), allM, collapse);
      FoldConcat(part, Flat(rest), Flat(p1), all, collapse);
      SameAppend(Fold(Merged(part, false), MergedParts(p1), allM, collapse), Fold(part, Flat(p1), all, collapse),
                 Fold(MergedParts(rest), MergedParts(p1) + Merged(part, false), allM, collapse),
                 Fold(Flat(rest), Flat(p1) + part, all, collapse));
    }
  }

  lemma FlatSplit(p1: seq<seq<Rule>>, part: seq<Rule>, rest: seq<seq<Rule>>)
    ensures Flat([part] + rest) == part + Flat(rest)
         && MergedParts([part] + rest) == Merged(part, false) + MergedParts(rest)
    ensures Flat(p1 + [part]) == Flat(p1) + part && MergedParts(p1 + [part]) == MergedParts(p1) + Merged(part, false)
    ensures Flat(p1 + [part] + rest) == Flat(p1) + part + Flat(rest)
    ensures MergedParts(p1 + [part] + rest) == MergedParts(p1) + Merged(part, false) + MergedParts(rest)
  {
    hide Merged;
    assert ([part] + rest)[1..] == rest;
    FlatOne(part);
    FlatConcat(p1, [part]);
    FlatConcat(p1 + [part], rest);
  }

  lemma NoParts()
    ensures Flat([]) == [] && MergedParts([]) == []
  {
  }

  lemma NothingSame()
    ensures AllSameUpToArmOrder([], [])
  {
  }

  lemma FoldNothing(before: seq<Rule>, all: seq<Rule>, collapse: bool)
    ensures Fold([], before, all, collapse) == []
  {
  }

  lemma MergedIsFold(part: seq<Rule>)
    ensures Merged(part, false) == Fold(part, [], part, false)
  {
  }

  lemma FlatOne(part: seq<Rule>)
    ensures Flat([part]) == part && MergedParts([part]) == Merged(part, false)
  {
    hide Merged;
    assert [part][1..] == [];
    assert part + [] == part && Merged(part, false) + [] == Merged(part, false);
  }

  // ---- main results ----------------------------------------------------------------------------------------

  /** Merging file by file and then the whole gives the rules of one pass, up to the order of
      arms; and exactly those rules just when the arms are in order. */
  lemma {:induction false} PartwiseMerge(parts: seq<seq<Rule>>, collapse: bool)
    requires OneTypeEach(Flat(parts))
    ensures AllSameUpToArmOrder(Merged(MergedParts(parts), collapse), Merged(Flat(parts), collapse))
    ensures Merged(MergedParts(parts), collapse) == Merged(Flat(parts), collapse) <==> InOrder(parts, [])
  {
    assert [] + parts == parts;
    PartsTwice([], parts, collapse);
  }

  /** A base never in a later part than one of its extensions. */
  predicate BasesFirst(parts: seq<seq<Rule>>, earlier: seq<Rule>) {
    parts != [] ==>
      && (forall r | r in parts[0] && !IsExtension(r) :: Extensions(earlier, r.name) == [])
      && BasesFirst(parts[1..], earlier + parts[0])
  }

  lemma {:induction false} BasesFirstInOrder(parts: seq<seq<Rule>>, earlier: seq<Rule>)
    requires BasesFirst(parts, earlier)
    ensures InOrder(parts, earlier)
    decreases |parts|
  {
    hide Arms, Extensions;
    if parts != [] {
      BasesFirstInOrder(parts[1..], earlier + parts[0]);
      forall r | r in parts[0] ensures RuleInOrder(r, parts[0], earlier) {
        ArmsOfExtensions(earlier, r.name);
        assert IsExtension(r) || Arms(parts[0], r.name) + [] == [] + Arms(parts[0], r.name);
      }
    }
  }

  /** With every base in the same part as, or an earlier part than, its extensions, merging in
      stages changes nothing at all. */
  lemma {:induction false} PartwiseMergeExact(parts: seq<seq<Rule>>, collapse: bool)
    requires OneTypeEach(Flat(parts)) && BasesFirst(parts, [])
    ensures Merged(MergedParts(parts), collapse) == Merged(Flat(parts), collapse)
  {
    BasesFirstInOrder(parts, []);
    PartwiseMerge(parts, collapse);
  }

  lemma OutOfOrder(first: seq<Rule>, second: seq<Rule>, t: TypeExpression, a: TypeExpression, b: TypeExpression)
    requires a != b && first == [Rule("N", TypeChoice([a]), 0, [])]
    requires second == [Rule("N", TypeDef(t), 0, []), Rule("N", TypeChoice([b]), 0, [])]
    ensures !RuleInOrder(second[0], second, first)
  {
    hide Arms;
    ListedOne(first[0], "N");
    ListedOne(second[0], "N");
    ListedOne(second[1], "N");
    assert second == [second[0]] + [second[1]];
    ListedConcat([second[0]], [second[1]], "N");
    assert Arms(second, "N") == [b];
    assert ([b] + [a])[0] != ([a] + [b])[0];
  }

  lemma LateBreaksOrder(first: seq<Rule>, second: seq<Rule>, r: Rule)
    requires r in second && !RuleInOrder(r, second, first)
    ensures !InOrder([first, second], [])
  {
    hide RuleInOrder;
    assert [first, second][1..] == [second] && [] + first == first;
  }

  lemma OneTypeHere(first: seq<Rule>, second: seq<Rule>, t: TypeExpression, a: TypeExpression, b: TypeExpression)
    requires first == [Rule("N", TypeChoice([a]), 0, [])]
    requires second == [Rule("N", TypeDef(t), 0, []), Rule("N", TypeChoice([b]), 0, [])]
    ensures OneTypeEach(Flat([first, second]))
  {
    hide Extensions, Definitions, Arms, Flat;
    assert Flat([first, second]) == first + second by { FlatTwo(first, second); }
    assert second == [second[0]] + [second[1]];
    forall name ensures Definitions(first + second, name) == if name == "N" then [second[0]] else []
      ensures name != "N" ==> Extensions(first + second, name) == []
    {
      ListedConcat(first, second, name);
      ListedConcat([second[0]], [second[1]], name);
      ListedOne(first[0], name);
      ListedOne(second[0], name);
      ListedOne(second[1], name);
    }
  }

  lemma FlatTwo(first: seq<Rule>, second: seq<Rule>)
    ensures Flat([first, second]) == first + second
  {
    assert [first, second][1..] == [second] && [second][1..] == [];
    NoParts();
    assert Flat([second]) == second + Flat([]) == second;
  }

  /** Without that, the staged order really can differ: arms `a` for `N`, then `N` with `b`. */
  lemma {:induction false} StagesCanReorderArms(t: TypeExpression, a: TypeExpression, b: TypeExpression, collapse: bool)
    requires a != b
    ensures var parts := [[Rule("N", TypeChoice([a]), 0, [])],
                          [Rule("N", TypeDef(t), 0, []), Rule("N", TypeChoice([b]), 0, [])]];
            OneTypeEach(Flat(parts)) && Merged(MergedParts(parts), collapse) != Merged(Flat(parts), collapse)
  {
    var first := [Rule("N", TypeChoice([a]), 0, [])];
    var second := [Rule("N", TypeDef(t), 0, []), Rule("N", TypeChoice([b]), 0, [])];
    hide *;
    OneTypeHere(first, second, t, a, b);
    OutOfOrder(first, second, t, a, b);
    assert second[0] in second;
    LateBreaksOrder(first, second, second[0]);
    PartwiseMerge([first, second], collapse);
  }
}
