/** `merge_type_choice_extensions` as it runs: index maps over the rule vector, rule types
    swapped in place, and the rules folded away removed by descending index. */
module MergeCode {
  import opened Ast
  import opened MergeChoices

  /** Positions of a name's `/=` rules. */
  ghost predicate IndexesExtensions(rules: seq<Rule>, upTo: nat, name: string, idxs: seq<nat>)
    requires upTo <= |rules|
  {
    && (forall k :: 0 <= k < |idxs| ==> idxs[k] < upTo && IsExtension(rules[idxs[k]]) && rules[idxs[k]].name == name)
    && (forall k, l :: 0 <= k < l < |idxs| ==> idxs[k] < idxs[l])
    && (forall i :: 0 <= i < upTo && IsExtension(rules[i]) && rules[i].name == name ==> i in idxs)
  }

  /** The first real definition of each name. */
  ghost predicate IndexesBases(rules: seq<Rule>, upTo: nat, baseIndex: map<string, nat>)
    requires upTo <= |rules|
  {
    && (forall name :: name in baseIndex ==>
          && baseIndex[name] < upTo && !IsExtension(rules[baseIndex[name]]) && rules[baseIndex[name]].name == name
          && Definitions(rules[..baseIndex[name]], name) == [])
    && (forall i :: 0 <= i < upTo && !IsExtension(rules[i]) ==> rules[i].name in baseIndex)
  }

  lemma {:induction false} DefinitionsByIndex(rules: seq<Rule>, name: string)
    ensures Definitions(rules, name) == []
       <==> forall i :: 0 <= i < |rules| ==> IsExtension(rules[i]) || rules[i].name != name
    ensures Extensions(rules, name) == []
       <==> forall i :: 0 <= i < |rules| ==> !IsExtension(rules[i]) || rules[i].name != name
    decreases |rules|
  {
    if rules != [] {
      DefinitionsByIndex(rules[1..], name);
      assert forall i :: 1 <= i < |rules| ==> rules[i] == rules[1..][i - 1];
    }
  }

  lemma {:induction false} FirstDefinition(rules: seq<Rule>, t: nat, name: string)
    requires t < |rules| && !IsExtension(rules[t]) && rules[t].name == name && Definitions(rules[..t], name) == []
    ensures Definitions(rules, name) != [] && Definitions(rules, name)[0] == rules[t]
  {
    assert rules == rules[..t] + ([rules[t]] + rules[t + 1..]);
    ListedConcat(rules[..t], [rules[t]] + rules[t + 1..], name);
    ListedConcat([rules[t]], rules[t + 1..], name);
    ListedOne(rules[t], name);
  }

  /** Rules that do not extend `name` add nothing to its arms. */
  lemma {:induction false} ArmsUnchanged(rules: seq<Rule>, lo: nat, hi: nat, name: string)
    requires lo <= hi <= |rules| && forall i :: lo <= i < hi ==> !IsExtension(rules[i]) || rules[i].name != name
    ensures Arms(rules[..hi], name) == Arms(rules[..lo], name)
    decreases hi
  {
    if lo < hi {
      ArmsUnchanged(rules, lo, hi - 1, name);
      ArmsStep(rules, hi - 1, name);
    }
  }

  lemma ArmsStep(rules: seq<Rule>, i: nat, name: string)
    requires i < |rules|
    ensures Arms(rules[..i + 1], name)
         == Arms(rules[..i], name)
            + (if IsExtension(rules[i]) && rules[i].name == name then rules[i].ruleType.arms else [])
  {
    assert rules[..i + 1] == rules[..i] + [rules[i]];
    ListedConcat(rules[..i], [rules[i]], name);
    ListedOne(rules[i], name);
  }

  function FateAt(rules: seq<Rule>, i: nat, collapse: bool): seq<Rule>
    requires i < |rules|
  {
    Fate(rules[i], rules[..i], rules, collapse)
  }

  /** The vector while names are being folded: `done` names are finished, the others untouched. */
  ghost predicate Halfway(rules: seq<Rule>, collapse: bool, now: seq<Rule>, toRemove: set<nat>, done: set<string>) {
    && |now| == |rules|
    && (forall i :: 0 <= i < |rules| && rules[i].name in done ==>
          FateAt(rules, i, collapse) == if i in toRemove then [] else [now[i]])
    && (forall i :: 0 <= i < |rules| && rules[i].name !in done ==> i !in toRemove && now[i] == rules[i])
  }

  lemma OneMoreName(
      rules: seq<Rule>, collapse: bool, before: seq<Rule>, now: seq<Rule>, toRemove: set<nat>, dropped: set<nat>,
                    done: set<string>, name: string)
    requires Halfway(rules, collapse, before, toRemove, done) && name !in done && |now| == |rules|
    requires forall i :: i in dropped ==> i < |rules| && rules[i].name == name
    requires forall i :: 0 <= i < |rules| && rules[i].name != name ==> now[i] == before[i]
    requires forall i :: 0 <= i < |rules| && rules[i].name == name ==>
               FateAt(rules, i, collapse) == if i in dropped then [] else [now[i]]
    ensures Halfway(rules, collapse, now, toRemove + dropped, done + {name})
  {
    hide FateAt;
  }

  class RuleVector {
    var rules: seq<Rule>

    constructor (rules: seq<Rule>)
      ensures this.rules == rules
    {
      this.rules := rules;
    }

    method MergeTypeChoiceExtensions(collapseOrphans: bool)
      modifies this
      ensures rules == Merged(old(rules), collapseOrphans)
    {
      hide Fate;
      ghost var was := rules;
      var baseIndex := FindBases(rules);
      var extensionOrder, extensionsByName := GroupExtensions(rules);
      if |extensionOrder| == 0 {
        Untouched(rules, collapseOrphans);
        return;
      }
      var toRemove: set<nat> := {};
      ghost var done: set<string> := {};
      for k := 0 to |extensionOrder|
        invariant Halfway(was, collapseOrphans, rules, toRemove, done)
        invariant done == (set n | n in extensionOrder[..k])
      {
        var name := extensionOrder[k];
        assert name !in extensionOrder[..k];
        var dropped := FoldName(was, baseIndex, name, extensionsByName[name], collapseOrphans, toRemove, done);
        toRemove := toRemove + dropped;
        done := done + {name};
        assert extensionOrder[..k + 1] == extensionOrder[..k] + [name];
      }
      assert extensionOrder[..|extensionOrder|] == extensionOrder;
      forall i | 0 <= i < |was|
        ensures FateAt(was, i, collapseOrphans) == if i in toRemove then [] else [rules[i]]
      {
        if was[i].name !in done {
          NoExtensionsNoChange(was, i, collapseOrphans);
        }
      }
      RemoveAll(was, toRemove, collapseOrphans);
    }

    /** Folds one name's `/=` rules and says which of them are to go. */
    method FoldName(
        ghost was: seq<Rule>, baseIndex: map<string, nat>, name: string, idxs: seq<nat>, collapseOrphans: bool,
                    ghost toRemove: set<nat>, ghost done: set<string>) returns (dropped: set<nat>)
      requires IndexesBases(was, |was|, baseIndex) && IndexesExtensions(was, |was|, name, idxs) && idxs != []
      requires Halfway(was, collapseOrphans, rules, toRemove, done) && name !in done
      modifies this
      ensures Halfway(was, collapseOrphans, rules, toRemove + dropped, done + {name})
    {
      hide Fate, FateAt, Extended, Collapsed, Definitions, Extensions, Arms;
      ghost var before := rules;
      var combined := CombineArms(rules, was, name, idxs);
      DefinitionsByIndex(was, name);
      assert was[idxs[0]].name == name;
      if name in baseIndex {
        var target := baseIndex[name];
        match rules[target].ruleType {
          case TypeDef(typ) =>
            rules := rules[target := rules[target].(ruleType := TypeDef(Extended(typ, combined)))];
            dropped := set i | i in idxs;
          case _ =>
            dropped := {};
        }
        forall i | 0 <= i < |was| && was[i].name == name
          ensures FateAt(was, i, collapseOrphans) == if i in dropped then [] else [rules[i]]
        {
          FateWithBase(was, target, i, collapseOrphans);
          assert i in idxs <==> IsExtension(was[i]);
        }
      } else {
        var keep := idxs[0];
        var kept := if collapseOrphans then TypeDef(Collapsed(combined)) else TypeChoice(combined);
        rules := rules[keep := rules[keep].(ruleType := kept)];
        dropped := set i | i in idxs[1..];
        forall i | 0 <= i < |was| && was[i].name == name
          ensures FateAt(was, i, collapseOrphans) == if i in dropped then [] else [rules[i]]
        {
          FateOfOrphan(was, keep, i, collapseOrphans, baseIndex, idxs);
        }
      }
      OneMoreName(was, collapseOrphans, before, rules, toRemove, dropped, done, name);
    }

    /** Removes by descending index, so earlier indices stay good. */
    method RemoveAll(ghost was: seq<Rule>, toRemove: set<nat>, ghost collapse: bool)
      requires |rules| == |was|
      requires forall i :: 0 <= i < |was| ==> FateAt(was, i, collapse) == if i in toRemove then [] else [rules[i]]
      modifies this
      ensures rules == Merged(was, collapse)
    {
      hide Fate;
      ghost var folded := rules;
      assert was[|was|..] == [] && was[..|was|] == was;
      for idx := |rules| downto 0
        invariant |rules| >= idx && rules[..idx] == folded[..idx]
        invariant rules[idx..] == Fold(was[idx..], was[..idx], was, collapse)
      {
        ghost var before := rules;
        assert was[idx..][0] == was[idx] && was[idx..][1..] == was[idx + 1..]
            && was[..idx] + [was[idx]] == was[..idx + 1];
        assert before[idx] == before[..idx + 1][idx] == folded[idx];
        if idx in toRemove {
          rules := rules[..idx] + rules[idx + 1..];
          assert rules[idx..] == [] + before[idx + 1..];
        } else {
          assert rules[idx..] == [folded[idx]] + before[idx + 1..];
        }
      }
      assert was[0..] == was && was[..0] == [];
      assert rules[0..] == rules;
    }
  }

  method FindBases(rules: seq<Rule>) returns (baseIndex: map<string, nat>)
    ensures IndexesBases(rules, |rules|, baseIndex)
  {
    baseIndex := map[];
    for idx := 0 to |rules|
      invariant IndexesBases(rules, idx, baseIndex)
    {
      if !rules[idx].ruleType.TypeChoice? && rules[idx].name !in baseIndex {
        DefinitionsByIndex(rules[..idx], rules[idx].name);
        baseIndex := baseIndex[rules[idx].name := idx];
      }
    }
  }

  lemma NoneIndexed(rules: seq<Rule>, idx: nat, name: string)
    requires idx <= |rules| && forall i :: 0 <= i < idx && IsExtension(rules[i]) ==> rules[i].name != name
    ensures IndexesExtensions(rules, idx, name, [])
  {
  }

  lemma IndexOneMore(rules: seq<Rule>, idx: nat, name: string, idxs: seq<nat>)
    requires idx < |rules| && IndexesExtensions(rules, idx, name, idxs) && IsExtension(rules[idx])
         && rules[idx].name == name
    ensures IndexesExtensions(rules, idx + 1, name, idxs + [idx])
  {
    assert forall i :: i in idxs ==> i in idxs + [idx];
    assert (idxs + [idx])[|idxs|] == idx;
  }

  lemma IndexUnchanged(rules: seq<Rule>, idx: nat, name: string, idxs: seq<nat>)
    requires idx < |rules| && IndexesExtensions(rules, idx, name, idxs)
         && (!IsExtension(rules[idx]) || rules[idx].name != name)
    ensures IndexesExtensions(rules, idx + 1, name, idxs)
  {
  }

  method GroupExtensions(rules: seq<Rule>) returns (order: seq<string>, byName: map<string, seq<nat>>)
    ensures forall j, k :: 0 <= j < k < |order| ==> order[j] != order[k]
    ensures forall name :: name in order <==> name in byName
    ensures forall name :: name in byName ==>
              byName[name] != [] && IndexesExtensions(rules, |rules|, name, byName[name])
    ensures forall i :: 0 <= i < |rules| && IsExtension(rules[i]) ==> rules[i].name in byName
  {
    hide IndexesExtensions;
    order, byName := [], map[];
    for idx := 0 to |rules|
      invariant forall j, k :: 0 <= j < k < |order| ==> order[j] != order[k]
      invariant forall name :: name in order <==> name in byName
      invariant forall name :: name in byName ==>
                  byName[name] != [] && IndexesExtensions(rules, idx, name, byName[name])
      invariant forall i :: 0 <= i < idx && IsExtension(rules[i]) ==> rules[i].name in byName
    {
      if rules[idx].ruleType.TypeChoice? {
        var name := rules[idx].name;
        if name !in byName {
          order := order + [name];
          byName := byName[name := []];
          NoneIndexed(rules, idx, name);
        }
        IndexOneMore(rules, idx, name, byName[name]);
        byName := byName[name := byName[name] + [idx]];
      }
      forall name | name in byName && (!IsExtension(rules[idx]) || name != rules[idx].name)
        ensures IndexesExtensions(rules, idx + 1, name, byName[name])
      {
        IndexUnchanged(rules, idx, name, byName[name]);
      }
    }
  }

  /** The arms of the indexed rules, in order. */
  method CombineArms(
      now: seq<Rule>, ghost was: seq<Rule>, name: string, idxs: seq<nat>) returns (combined: seq<TypeExpression>)
    requires |now| == |was| && forall i :: 0 <= i < |was| && was[i].name == name ==> now[i] == was[i]
    requires IndexesExtensions(was, |was|, name, idxs)
    ensures combined == Arms(was, name)
  {
    combined := [];
    ghost var reached: nat := 0;
    for k := 0 to |idxs|
      invariant reached == if k == 0 then 0 else idxs[k - 1] + 1
      invariant combined == Arms(was[..reached], name)
    {
      Between(was, name, idxs, k);
      ArmsUnchanged(was, reached, idxs[k], name);
      ArmsStep(was, idxs[k], name);
      combined := combined + now[idxs[k]].ruleType.arms;
      reached := idxs[k] + 1;
    }
    Between(was, name, idxs, |idxs|);
    ArmsUnchanged(was, reached, |was|, name);
    assert was[..|was|] == was;
  }

  /** Between two listed positions there is no further rule of that name. */
  lemma Between(rules: seq<Rule>, name: string, idxs: seq<nat>, k: nat)
    requires IndexesExtensions(rules, |rules|, name, idxs) && k <= |idxs|
    ensures var lo := if k == 0 then 0 else idxs[k - 1] + 1;
            var hi := if k == |idxs| then |rules| else idxs[k];
            lo <= hi && forall i :: lo <= i < hi ==> !IsExtension(rules[i]) || rules[i].name != name
  {
    var lo := if k == 0 then 0 else idxs[k - 1] + 1;
    var hi := if k == |idxs| then |rules| else idxs[k];
    forall l | 0 <= l < |idxs| ensures idxs[l] < lo || idxs[l] >= hi {
      if l < k {
        assert idxs[l] <= idxs[k - 1];
      }
    }
    assert forall i :: lo <= i < hi ==> i !in idxs;
  }

  lemma {:induction false} FateWithBase(rules: seq<Rule>, target: nat, i: nat, collapse: bool)
    requires target < |rules| && i < |rules| && rules[i].name == rules[target].name
    requires !IsExtension(rules[target]) && Definitions(rules[..target], rules[target].name) == []
    requires Extensions(rules, rules[target].name) != [] || i != target
    ensures FateAt(rules, i, collapse)
         == if !rules[target].ruleType.TypeDef? then [rules[i]]
            else if IsExtension(rules[i]) then []
            else if i == target then
              [rules[i].(ruleType := TypeDef(Extended(rules[i].ruleType.typ, Arms(rules, rules[i].name))))]
            else [rules[i]]
  {
    hide Extended, Arms, Extensions, Definitions;
    FirstDefinition(rules, target, rules[target].name);
    DefinitionsByIndex(rules[..i], rules[i].name);
    DefinitionsByIndex(rules[..target], rules[i].name);
    if target < i {
      assert rules[..i][target] == rules[target];
    } else if i < target {
      assert rules[..target][i] == rules[i];
    }
  }

  lemma {:induction false} FateOfOrphan(
      rules: seq<Rule>, keep: nat, i: nat, collapse: bool, baseIndex: map<string, nat>, idxs: seq<nat>)
    requires i < |rules| && IndexesBases(rules, |rules|, baseIndex) && rules[i].name !in baseIndex
    requires IndexesExtensions(rules, |rules|, rules[i].name, idxs) && idxs != [] && keep == idxs[0]
    ensures i in idxs && (i in idxs[1..] <==> i != keep)
    ensures var arms := Arms(rules, rules[i].name);
            FateAt(rules, i, collapse)
            == if i != keep then []
               else [rules[i].(ruleType := if collapse then TypeDef(Collapsed(arms)) else TypeChoice(arms))]
  {
    hide Collapsed, Arms, Extensions, Definitions;
    DefinitionsByIndex(rules, rules[i].name);
    DefinitionsByIndex(rules[..i], rules[i].name);
    if i != keep {
      assert keep < i && rules[..i][keep] == rules[keep];
    } else {
      Between(rules, rules[i].name, idxs, 0);
    }
  }

  lemma NoExtensionsNoChange(rules: seq<Rule>, i: nat, collapse: bool)
    requires i < |rules| && !IsExtension(rules[i])
    requires forall j :: 0 <= j < |rules| && IsExtension(rules[j]) ==> rules[j].name != rules[i].name
    ensures FateAt(rules, i, collapse) == [rules[i]]
  {
    DefinitionsByIndex(rules, rules[i].name);
  }

  lemma Untouched(rules: seq<Rule>, collapse: bool)
    requires forall i :: 0 <= i < |rules| ==> !IsExtension(rules[i])
    ensures Merged(rules, collapse) == rules
  {
    FoldUntouched(rules, [], rules, collapse);
  }

  lemma {:induction false} FoldUntouched(rules: seq<Rule>, before: seq<Rule>, all: seq<Rule>, collapse: bool)
    requires forall i :: 0 <= i < |all| ==> !IsExtension(all[i])
    requires forall i :: 0 <= i < |rules| ==> !IsExtension(rules[i])
    ensures Fold(rules, before, all, collapse) == rules
    decreases |rules|
  {
    if rules != [] {
      DefinitionsByIndex(all, rules[0].name);
      FoldUntouched(rules[1..], before + [rules[0]], all, collapse);
    }
  }
}
