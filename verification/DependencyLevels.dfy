/**
 Levels of a workflow: the in-degree loop of Workflow and the shrinking-set loop of
 AsyncWorkflow, both specified by the length of each rule's dependency chain.
 */
module DependencyLevels {
  import opened Common
  import opened Text
  import opened Chains
  import opened Rules
  import opened PrioritySort

  ghost predicate AtDepth(g: Graph, id: int, k: nat)
    requires Closed(g)
  {
    id in g && Ends(g, id) && Depth(g, id) == k
  }

  /** The rules whose chain has exactly `k` edges, in insertion order. */
  ghost function Stratum(g: Graph, rules: seq<Rule>, k: nat): seq<Rule>
    requires Closed(g)
  {
    if rules == [] then []
    else
      var n := |rules| - 1;
      Stratum(g, rules[..n], k) + if AtDepth(g, rules[n].id, k) then [rules[n]] else []
  }

  /** What is left after `k` levels: rules with at least `k` edges ahead of them, or with no end. */
  ghost predicate LeftAfter(g: Graph, id: int, k: nat)
    requires Closed(g)
  {
    id in g && !(Ends(g, id) && Depth(g, id) < k)
  }

  /** Among what is left after `k` levels, the rules without a dependency left are those of depth `k`. */
  lemma FreeIffAtDepth(g: Graph, rest: set<int>, id: int, k: nat)
    requires Closed(g) && (forall v :: v in rest <==> LeftAfter(g, v, k)) && id in g
    ensures id in rest && (g[id].None? || g[id].value !in rest) <==> AtDepth(g, id, k)
  {
    DepthStep(g, id);
    if g[id].Some? {
      var u: int := g[id].value;
      assert u in rest <==> LeftAfter(g, u, k);
    }
  }

  /** If nothing of depth `k` exists, whatever is left after `k` levels never ends. */
  lemma StuckMeansCycle(g: Graph, id: int, k: nat)
    requires Closed(g) && LeftAfter(g, id, k) && forall v :: !AtDepth(g, v, k)
    ensures HasCycle(g)
  {
    if Ends(g, id) {
      var u := DepthReached(g, id, k);
      assert AtDepth(g, u, k);
    }
    CycleIffSomeWalkNeverEnds(g);
  }

  // ----- the in-degree loop of Workflow::buildDependencyLevels -----

  ghost predicate Part(rules: seq<Rule>, part: map<int, Rule>)
  {
    forall id :: id in part ==> id in ById(rules) && part[id] == ById(rules)[id]
  }

  /** The number of dependencies of rule `id` that are among `rest`: none or one. */
  ghost function Open(g: Graph, rest: set<int>, id: int): int
    requires id in g
  {
    if g[id].Some? && g[id].value in rest then 1 else 0
  }

  /** A rule still in the map counts one open dependency exactly while that dependency is in the map. */
  ghost predicate Degrees(g: Graph, part: map<int, Rule>, inDegree: map<int, int>)
  {
    forall id :: id in part ==> id in g && id in inDegree && inDegree[id] == Open(g, part.Keys, id)
  }

  method BuildRuleMap(rules: seq<Rule>) returns (ruleMap: map<int, Rule>, inDegree: map<int, int>)
    ensures ruleMap == ById(rules)
    ensures inDegree.Keys == ruleMap.Keys && forall id :: id in inDegree ==> inDegree[id] == 0
  {
    ruleMap, inDegree := map[], map[];
    for i := 0 to |rules|
      invariant ruleMap == ById(rules[..i])
      invariant inDegree.Keys == ruleMap.Keys && forall id :: id in inDegree ==> inDegree[id] == 0
    {
      assert rules[..i + 1][..i] == rules[..i];
      ruleMap := ruleMap[rules[i].id := rules[i]];
      inDegree := inDegree[rules[i].id := 0];
    }
    assert rules[..|rules|] == rules;
  }

  /** The name is compared as a C string here and as a whole string everywhere else, which is why dependency names are free of NUL. */
  method CountDependencies(rules: seq<Rule>) returns (ruleMap: map<int, Rule>, inDegree: map<int, int>)
    requires Valid(rules)
    ensures ruleMap == ById(rules)
    ensures Degrees(GraphOf(rules), ruleMap, inDegree)
  {
    ruleMap, inDegree := BuildRuleMap(rules);
    ghost var g := GraphOf(rules);
    forall j | 0 <= j < |rules|
      ensures rules[j].id in ruleMap
    {
      ByIdHas(rules, j);
    }
    for i := 0 to |rules|
      invariant inDegree.Keys == ruleMap.Keys
      invariant forall j :: 0 <= j < i ==> inDegree[rules[j].id] == Open(g, ruleMap.Keys, rules[j].id)
      invariant forall j :: i <= j < |rules| ==> inDegree[rules[j].id] == 0
    {
      var rule := rules[i];
      ByIdHas(rules, i);
      SearchByName(rules, ruleMap, rule.id);
      if rule.dependsOn.Some? {
        CStringKeeps(rule.dependsOn.value);
      }
      if rule.dependsOn.Some? && exists id :: id in ruleMap && ruleMap[id].name == CString(rule.dependsOn.value) {
        inDegree := inDegree[rule.id := inDegree[rule.id] + 1];
      }
    }
    forall id | id in ruleMap
      ensures id in g && inDegree[id] == Open(g, ruleMap.Keys, id)
    {
      var i := ByIdOnly(rules, id);
    }
  }

  method ReadyRules(rules: seq<Rule>, ruleMap: map<int, Rule>, inDegree: map<int, int>, ghost k: nat) returns (level: seq<Rule>)
    requires Valid(rules) && Part(rules, ruleMap)
    requires Closed(GraphOf(rules)) && Degrees(GraphOf(rules), ruleMap, inDegree)
    requires forall v :: v in ruleMap <==> LeftAfter(GraphOf(rules), v, k)
    ensures level == Stratum(GraphOf(rules), rules, k)
  {
    level := [];
    ghost var g := GraphOf(rules);
    for i := 0 to |rules|
      invariant level == Stratum(g, rules[..i], k)
    {
      assert rules[..i + 1][..i] == rules[..i];
      ByIdHas(rules, i);
      FreeIffAtDepth(g, ruleMap.Keys, rules[i].id, k);
      if rules[i].id in ruleMap && inDegree[rules[i].id] == 0 {
        level := level + [rules[i]];
      }
    }
    assert rules[..|rules|] == rules;
  }

  /** One finished rule: every remaining rule that names it loses one open dependency. */
  method Release(rules: seq<Rule>, ruleMap: map<int, Rule>, inDegree: map<int, int>, done: Rule) returns (after: map<int, int>)
    requires Valid(rules) && Part(rules, ruleMap) && done.id in ById(rules) && done == ById(rules)[done.id]
    requires done.id !in ruleMap
    requires forall id :: id in ruleMap ==> id in inDegree && inDegree[id] == Open(GraphOf(rules), ruleMap.Keys + {done.id}, id)
    ensures Degrees(GraphOf(rules), ruleMap, after)
  {
    after := inDegree;
    ghost var g := GraphOf(rules);
    var todo := ruleMap.Keys;
    while todo != {}
      invariant todo <= ruleMap.Keys
      invariant forall id :: id in ruleMap ==> id in after
      invariant forall id :: id in todo ==> after[id] == inDegree[id]
      invariant forall id :: id in ruleMap && id !in todo ==> after[id] == Open(g, ruleMap.Keys, id)
      decreases todo
    {
      ghost var _ := Member(todo);
      var id :| id in todo;
      todo := todo - {id};
      EdgeIsName(rules, id, done.id);
      if ruleMap[id].dependsOn.Some? && ruleMap[id].dependsOn.value == done.name {
        after := after[id := after[id] - 1];
      }
    }
  }

  method Retire(rules: seq<Rule>, ruleMap: map<int, Rule>, inDegree: map<int, int>, level: seq<Rule>)
    returns (rest: map<int, Rule>, degrees: map<int, int>)
    requires Valid(rules) && Part(rules, ruleMap) && Degrees(GraphOf(rules), ruleMap, inDegree)
    requires forall i :: 0 <= i < |level| ==> level[i].id in ById(rules) && level[i] == ById(rules)[level[i].id]
    requires forall i, j :: 0 <= i < j < |level| ==> level[i].id != level[j].id
    requires forall i :: 0 <= i < |level| ==> level[i].id in ruleMap
    ensures forall id :: id in rest <==> id in ruleMap && forall i :: 0 <= i < |level| ==> level[i].id != id
    ensures Part(rules, rest) && Degrees(GraphOf(rules), rest, degrees)
  {
    rest, degrees := ruleMap, inDegree;
    for n := 0 to |level|
      invariant forall id :: id in rest <==> id in ruleMap && forall i :: 0 <= i < n ==> level[i].id != id
      invariant Part(rules, rest) && Degrees(GraphOf(rules), rest, degrees)
    {
      rest := rest - {level[n].id};
      degrees := Release(rules, rest, degrees, level[n]);
    }
  }

  lemma {:induction false} StratumMember(g: Graph, rules: seq<Rule>, k: nat, r: Rule)
    requires Closed(g)
    ensures r in Stratum(g, rules, k) <==> r in rules && AtDepth(g, r.id, k)
  {
    if rules != [] {
      var n := |rules| - 1;
      StratumMember(g, rules[..n], k, r);
      assert rules == rules[..n] + [rules[n]];
    }
  }

  lemma {:induction false} StratumDistinct(g: Graph, rules: seq<Rule>, k: nat, i: nat, j: nat)
    requires Closed(g) && Valid(rules) && i < j < |Stratum(g, rules, k)|
    ensures Stratum(g, rules, k)[i].id != Stratum(g, rules, k)[j].id
  {
    var n := |rules| - 1;
    var before := Stratum(g, rules[..n], k);
    if j < |before| {
      StratumDistinct(g, rules[..n], k, i, j);
    } else {
      StratumMember(g, rules[..n], k, before[i]);
      var m :| 0 <= m < n && rules[..n][m] == before[i];
    }
  }

  lemma DistinctIdsPermute(s: seq<Rule>, t: seq<Rule>)
    requires multiset(s) == multiset(t)
    requires forall i, j :: 0 <= i < j < |s| ==> s[i].id != s[j].id
    ensures forall i, j :: 0 <= i < j < |t| ==> t[i].id != t[j].id
  {
    forall i, j | 0 <= i < j < |t|
      ensures t[i].id != t[j].id
    {
      if t[i].id == t[j].id {
        assert t[i] in multiset(s) && t[j] in multiset(s);
        assert t[i] == t[j];
        assert t == t[..i] + [t[i]] + t[i + 1..j] + [t[j]] + t[j + 1..];
        assert multiset(t)[t[i]] >= 2;
        OnceOnly(s, t[i]);
      }
    }
  }

  lemma {:induction false} OnceOnly(s: seq<Rule>, x: Rule)
    requires forall i, j :: 0 <= i < j < |s| ==> s[i].id != s[j].id
    ensures multiset(s)[x] <= 1
  {
    if s != [] {
      var n := |s| - 1;
      OnceOnly(s[..n], x);
      assert s == s[..n] + [s[n]];
      assert s[n] == x ==> x !in s[..n];
    }
  }

  /** The rules of a sorted level are exactly the rules of its depth, each once. */
  lemma SortedStratum(g: Graph, rules: seq<Rule>, k: nat, r: Rule)
    requires Closed(g) && Valid(rules)
    ensures var level := SortByPriority(Stratum(g, rules, k));
            && (r in level <==> r in rules && AtDepth(g, r.id, k))
            && forall i, j :: 0 <= i < j < |level| ==> level[i].id != level[j].id
  {
    var s := Stratum(g, rules, k);
    var level := SortByPriority(s);
    StratumMember(g, rules, k, r);
    assert r in level <==> r in multiset(level);
    forall i, j | 0 <= i < j < |s|
      ensures s[i].id != s[j].id
    {
      StratumDistinct(g, rules, k, i, j);
    }
    DistinctIdsPermute(s, level);
  }

  lemma LevelIsPart(g: Graph, rules: seq<Rule>, k: nat, level: seq<Rule>)
    requires Closed(g) && Valid(rules) && level == SortByPriority(Stratum(g, rules, k))
    ensures forall i, j :: 0 <= i < j < |level| ==> level[i].id != level[j].id
    ensures forall i :: 0 <= i < |level| ==>
      level[i].id in ById(rules) && level[i] == ById(rules)[level[i].id] && AtDepth(g, level[i].id, k)
    ensures forall id :: id in ById(rules) && AtDepth(g, id, k) ==> exists i :: 0 <= i < |level| && level[i].id == id
  {
    forall i | 0 <= i < |level|
      ensures level[i].id in ById(rules) && level[i] == ById(rules)[level[i].id] && AtDepth(g, level[i].id, k)
    {
      SortedStratum(g, rules, k, level[i]);
      var j :| 0 <= j < |rules| && rules[j] == level[i];
      ByIdHas(rules, j);
    }
    forall id | id in ById(rules) && AtDepth(g, id, k)
      ensures exists i :: 0 <= i < |level| && level[i].id == id
    {
      var j := ByIdOnly(rules, id);
      SortedStratum(g, rules, k, rules[j]);
    }
    if level != [] {
      SortedStratum(g, rules, k, level[0]);
    }
  }

  ghost predicate IsStratum(g: Graph, rules: seq<Rule>, level: seq<Rule>, k: nat)
    requires Closed(g)
  {
    level == SortByPriority(Stratum(g, rules, k)) && level != []
  }

  ghost predicate InStrata(g: Graph, rules: seq<Rule>, levels: seq<seq<Rule>>)
    requires Closed(g)
  {
    forall k {:trigger IsStratum(g, rules, levels[k], k)} :: 0 <= k < |levels| ==> IsStratum(g, rules, levels[k], k)
  }

  lemma OneMoreStratum(g: Graph, rules: seq<Rule>, levels: seq<seq<Rule>>, level: seq<Rule>)
    requires Closed(g) && InStrata(g, rules, levels) && IsStratum(g, rules, level, |levels|)
    ensures InStrata(g, rules, levels + [level])
  {
    var more := levels + [level];
    forall k | 0 <= k < |more|
      ensures IsStratum(g, rules, more[k], k)
    {
      if k < |levels| {
        assert IsStratum(g, rules, levels[k], k);
      }
    }
  }

  ghost predicate Above(g: Graph, id: int, k: nat)
    requires Closed(g)
  {
    id in g ==> Ends(g, id) && Depth(g, id) < k
  }

  /** Level `k` holds the rules of depth `k` in stable priority order, and no rule is deeper than the last level. */
  ghost predicate Layered(g: Graph, rules: seq<Rule>, levels: seq<seq<Rule>>)
    requires Closed(g)
  {
    && InStrata(g, rules, levels)
    && forall id :: Above(g, id, |levels|)
  }

  /** One turn of the loop: the ready rules in priority order are taken out; if there are none, there is a cycle. */
  method TakeLevel(rules: seq<Rule>, ruleMap: map<int, Rule>, inDegree: map<int, int>, ghost k: nat)
    returns (level: seq<Rule>, rest: map<int, Rule>, degrees: map<int, int>)
    requires Valid(rules) && Closed(GraphOf(rules)) && ruleMap != map[]
    requires Part(rules, ruleMap) && Degrees(GraphOf(rules), ruleMap, inDegree)
    requires forall v :: v in ruleMap <==> LeftAfter(GraphOf(rules), v, k)
    ensures level == SortByPriority(Stratum(GraphOf(rules), rules, k))
    ensures level == [] ==> HasCycle(GraphOf(rules))
    ensures level != [] ==> Part(rules, rest) && Degrees(GraphOf(rules), rest, degrees) && rest.Keys < ruleMap.Keys
    ensures level != [] ==> forall v :: v in rest <==> LeftAfter(GraphOf(rules), v, k + 1)
  {
    ghost var g := GraphOf(rules);
    level := ReadyRules(rules, ruleMap, inDegree, k);
    if level == [] {
      NothingReady(g, rules, ruleMap, k);
      return level, ruleMap, inDegree;
    }
    level := SortByPriority(level);
    LevelIsPart(g, rules, k, level);
    LevelWasLeft(g, rules, ruleMap, level, k);
    rest, degrees := Retire(rules, ruleMap, inDegree, level);
    LeftAfterLevel(g, rules, ruleMap.Keys, rest.Keys, level, k);
  }

  /**
   Ordering fails exactly when the dependency graph has a cycle; otherwise the levels are the
   rules sorted by the length of their dependency chain, each level in stable priority order.
   */
  method BuildDependencyLevels(rules: seq<Rule>) returns (r: Result<seq<seq<Rule>>>)
    requires Valid(rules)
    ensures Closed(GraphOf(rules))
    ensures r.Failure? <==> HasCycle(GraphOf(rules))
    ensures r.Success? ==> Layered(GraphOf(rules), rules, r.value)
  {
    ghost var g := GraphOf(rules);
    GraphClosed(rules);
    var ruleMap, inDegree := CountDependencies(rules);
    var levels := [];
    while ruleMap != map[]
      invariant Part(rules, ruleMap) && Degrees(g, ruleMap, inDegree)
      invariant forall v :: v in ruleMap <==> LeftAfter(g, v, |levels|)
      invariant InStrata(g, rules, levels)
      decreases ruleMap.Keys
    {
      var level;
      level, ruleMap, inDegree := TakeLevel(rules, ruleMap, inDegree, |levels|);
      if level == [] {
        return Failure("Circular dependency detected in workflow");
      }
      OneMoreStratum(g, rules, levels, level);
      levels := levels + [level];
    }
    NothingLeft(g, |levels|);
    return Success(levels);
  }

  lemma LevelWasLeft(g: Graph, rules: seq<Rule>, ruleMap: map<int, Rule>, level: seq<Rule>, k: nat)
    requires Closed(g)
    requires forall v :: v in ruleMap <==> LeftAfter(g, v, k)
    requires forall i :: 0 <= i < |level| ==> AtDepth(g, level[i].id, k)
    ensures forall i :: 0 <= i < |level| ==> level[i].id in ruleMap
  {
    forall i | 0 <= i < |level|
      ensures level[i].id in ruleMap
    {
      assert LeftAfter(g, level[i].id, k);
    }
  }

  lemma LeftAfterLevel(g: Graph, rules: seq<Rule>, before: set<int>, rest: set<int>, level: seq<Rule>, k: nat)
    requires Closed(g) && g.Keys == ById(rules).Keys && level != []
    requires forall v :: v in before <==> LeftAfter(g, v, k)
    requires forall i :: 0 <= i < |level| ==> AtDepth(g, level[i].id, k)
    requires forall id :: id in ById(rules) && AtDepth(g, id, k) ==> exists i :: 0 <= i < |level| && level[i].id == id
    requires forall id :: id in rest <==> id in before && forall i :: 0 <= i < |level| ==> level[i].id != id
    ensures forall v :: v in rest <==> LeftAfter(g, v, k + 1)
    ensures rest < before
  {
    forall v
      ensures v in rest <==> LeftAfter(g, v, k + 1)
    {
      assert LeftAfter(g, v, k + 1) <==> LeftAfter(g, v, k) && !AtDepth(g, v, k);
    }
    assert LeftAfter(g, level[0].id, k);
    assert level[0].id in before && level[0].id !in rest;
  }

  lemma NothingLeft(g: Graph, k: nat)
    requires Closed(g) && forall v :: !LeftAfter(g, v, k)
    ensures !HasCycle(g) && forall id :: Above(g, id, k)
  {
    forall id
      ensures Above(g, id, k)
    {
      assert !LeftAfter(g, id, k);
    }
    assert forall id :: id in g ==> Above(g, id, k);
    CycleIffSomeWalkNeverEnds(g);
  }

  lemma NothingReady(g: Graph, rules: seq<Rule>, ruleMap: map<int, Rule>, k: nat)
    requires Valid(rules) && g == GraphOf(rules) && Closed(g) && Part(rules, ruleMap) && ruleMap != map[]
    requires forall v :: v in ruleMap <==> LeftAfter(g, v, k)
    requires Stratum(g, rules, k) == []
    ensures HasCycle(g)
  {
    var id := Member(ruleMap.Keys);
    forall v
      ensures !AtDepth(g, v, k)
    {
      if AtDepth(g, v, k) {
        var i := ByIdOnly(rules, v);
        StratumMember(g, rules, k, rules[i]);
      }
    }
    StuckMeansCycle(g, id, k);
  }

  // ----- what the levels mean -----

  /** The execution order: the levels one after another. */
  function Flatten(levels: seq<seq<Rule>>): seq<Rule>
  {
    if levels == [] then [] else levels[0] + Flatten(levels[1..])
  }

  method ResolveExecutionOrder(levels: seq<seq<Rule>>) returns (order: seq<Rule>)
    ensures order == Flatten(levels)
  {
    order := [];
    for k := 0 to |levels|
      invariant order + Flatten(levels[k..]) == Flatten(levels)
    {
      var level := levels[k];
      ghost var before, rest := order, Flatten(levels[k + 1..]);
      for i := 0 to |level|
        invariant order == before + level[..i]
      {
        Regroup(before, level[..i], [level[i]]);
        assert level[..i + 1] == level[..i] + [level[i]];
        order := order + [level[i]];
      }
      assert level[..|level|] == level;
      assert levels[k..][1..] == levels[k + 1..];
      Regroup(before, level, rest);
    }
  }

  /** Each rule sits in the level whose number is the length of its chain, and in no other. */
  lemma LevelOfRule(rules: seq<Rule>, levels: seq<seq<Rule>>, r: Rule, k: nat)
    requires Valid(rules) && Closed(GraphOf(rules)) && Layered(GraphOf(rules), rules, levels) && r in rules && k < |levels|
    ensures r.id in GraphOf(rules) && Ends(GraphOf(rules), r.id)
    ensures r in levels[k] <==> Depth(GraphOf(rules), r.id) == k
  {
    var i :| 0 <= i < |rules| && rules[i] == r;
    ByIdHas(rules, i);
    assert Above(GraphOf(rules), r.id, |levels|);
    assert IsStratum(GraphOf(rules), rules, levels[k], k);
    SortedStratum(GraphOf(rules), rules, k, r);
  }

  lemma DependencyDepth(rules: seq<Rule>, r: Rule, d: Rule)
    requires Valid(rules) && Closed(GraphOf(rules)) && r in rules && d in rules && r.dependsOn == Some(d.name)
    requires r.id in GraphOf(rules) && Ends(GraphOf(rules), r.id)
    ensures d.id in GraphOf(rules) && Ends(GraphOf(rules), d.id)
    ensures Depth(GraphOf(rules), r.id) == Depth(GraphOf(rules), d.id) + 1
  {
    var i :| 0 <= i < |rules| && rules[i] == r;
    var j :| 0 <= j < |rules| && rules[j] == d;
    ByIdHas(rules, i);
    ByIdHas(rules, j);
    EdgeIsName(rules, r.id, d.id);
    DepthStep(GraphOf(rules), r.id);
  }

  /** A dependency is always in the level just before. */
  lemma DependencyIsEarlier(rules: seq<Rule>, levels: seq<seq<Rule>>, r: Rule, d: Rule, k: nat)
    requires Valid(rules) && Closed(GraphOf(rules)) && Layered(GraphOf(rules), rules, levels)
    requires r in rules && d in rules && r.dependsOn == Some(d.name)
    requires k < |levels| && r in levels[k]
    ensures k > 0 && d in levels[k - 1]
  {
    LevelOfRule(rules, levels, r, k);
    DependencyDepth(rules, r, d);
    LevelOfRule(rules, levels, d, k - 1);
  }

  /** Within a level priorities ascend, and rules of equal priority keep their insertion order. */
  lemma LevelIsStablySorted(rules: seq<Rule>, levels: seq<seq<Rule>>, k: nat, p: int)
    requires Closed(GraphOf(rules)) && Layered(GraphOf(rules), rules, levels) && k < |levels|
    ensures Sorted(levels[k])
    ensures WithPriority(levels[k], p) == WithPriority(Stratum(GraphOf(rules), rules, k), p)
  {
    assert IsStratum(GraphOf(rules), rules, levels[k], k);
    SortSorted(Stratum(GraphOf(rules), rules, k));
    SortStable(Stratum(GraphOf(rules), rules, k), p);
  }

  lemma {:induction false} FlattenCount(g: Graph, rules: seq<Rule>, levels: seq<seq<Rule>>, k: nat, r: Rule)
    requires Closed(g) && k <= |levels| && InStrata(g, rules, levels)
    ensures multiset(Flatten(levels[k..]))[r] == if DepthBetween(g, r.id, k, |levels|) then multiset(rules)[r] else 0
    decreases |levels| - k
  {
    if k < |levels| {
      FlattenCount(g, rules, levels, k + 1, r);
      StratumCount(g, rules, k, r);
      assert IsStratum(g, rules, levels[k], k);
      var rest := levels[k + 1..];
      assert levels[k..][1..] == rest;
      assert multiset(levels[k])[r] == multiset(Stratum(g, rules, k))[r];
      assert multiset(levels[k] + Flatten(rest))[r] == multiset(levels[k])[r] + multiset(Flatten(rest))[r];
    }
  }

  ghost predicate DepthBetween(g: Graph, id: int, lo: nat, hi: nat)
    requires Closed(g)
  {
    id in g && Ends(g, id) && lo <= Depth(g, id) < hi
  }

  lemma {:induction false} StratumCount(g: Graph, rules: seq<Rule>, k: nat, r: Rule)
    requires Closed(g)
    ensures multiset(Stratum(g, rules, k))[r] == if AtDepth(g, r.id, k) then multiset(rules)[r] else 0
  {
    if rules != [] {
      var n := |rules| - 1;
      StratumCount(g, rules[..n], k, r);
      assert rules == rules[..n] + [rules[n]];
    }
  }

  /** The execution order is a permutation of the rules: nothing is dropped, nothing runs twice. */
  lemma OrderIsPermutation(rules: seq<Rule>, levels: seq<seq<Rule>>)
    requires Valid(rules) && Closed(GraphOf(rules)) && Layered(GraphOf(rules), rules, levels)
    ensures multiset(Flatten(levels)) == multiset(rules)
  {
    var g := GraphOf(rules);
    assert levels[0..] == levels;
    forall r
      ensures multiset(Flatten(levels))[r] == multiset(rules)[r]
    {
      FlattenCount(g, rules, levels, 0, r);
      if r in rules {
        var i :| 0 <= i < |rules| && rules[i] == r;
        ByIdHas(rules, i);
        assert Above(g, r.id, |levels|);
        assert DepthBetween(g, r.id, 0, |levels|);
      }
    }
  }

  // ----- the shrinking-set loop of AsyncWorkflow::executeParallelAsync -----

  /** The ids of depth `k`. */
  ghost function IdsAtDepth(g: Graph, k: nat): set<int>
    requires Closed(g)
  {
    set id | id in g && AtDepth(g, id, k)
  }

  ghost predicate IsDepth(g: Graph, level: set<int>, k: nat)
    requires Closed(g)
  {
    level == IdsAtDepth(g, k) && level != {}
  }

  /** Level `k` holds exactly the ids of depth `k`, and none is empty. */
  ghost predicate InDepths(g: Graph, levels: seq<set<int>>)
    requires Closed(g)
  {
    forall k {:trigger IsDepth(g, levels[k], k)} :: 0 <= k < |levels| ==> IsDepth(g, levels[k], k)
  }

  lemma OneMoreDepth(g: Graph, levels: seq<set<int>>, level: set<int>)
    requires Closed(g) && InDepths(g, levels) && IsDepth(g, level, |levels|)
    ensures InDepths(g, levels + [level])
  {
    var more := levels + [level];
    forall k | 0 <= k < |more|
      ensures IsDepth(g, more[k], k)
    {
      if k < |levels| {
        assert IsDepth(g, levels[k], k);
      }
    }
  }

  /** One pass over what remains: the rules whose dependency is not in it, in any order of the map. */
  method UnblockedRules(rules: seq<Rule>, remaining: map<int, Rule>, ghost k: nat) returns (level: set<int>)
    requires Valid(rules) && Part(rules, remaining) && Closed(GraphOf(rules))
    requires forall v :: v in remaining <==> LeftAfter(GraphOf(rules), v, k)
    ensures level == IdsAtDepth(GraphOf(rules), k)
  {
    level := {};
    ghost var g := GraphOf(rules);
    var todo := remaining.Keys;
    while todo != {}
      invariant todo <= remaining.Keys
      invariant forall id :: id in level <==> id in remaining && id !in todo && AtDepth(g, id, k)
      decreases todo
    {
      ghost var _ := Member(todo);
      var id :| id in todo;
      todo := todo - {id};
      SearchByName(rules, remaining, id);
      FreeIffAtDepth(g, remaining.Keys, id, k);
      var satisfied := true;
      if remaining[id].dependsOn.Some? && exists other :: other in remaining && remaining[other].name == remaining[id].dependsOn.value {
        satisfied := false;
      }
      if satisfied {
        level := level + {id};
      }
    }
    forall id
      ensures id in level <==> id in IdsAtDepth(g, k)
    {
      assert AtDepth(g, id, k) ==> LeftAfter(g, id, k);
    }
  }

  /** One turn of the loop: without a cycle it always removes something. */
  method TakeUnblocked(rules: seq<Rule>, remaining: map<int, Rule>, ghost k: nat) returns (level: set<int>, rest: map<int, Rule>)
    requires Valid(rules) && Part(rules, remaining) && Closed(GraphOf(rules)) && !HasCycle(GraphOf(rules)) && remaining != map[]
    requires forall v :: v in remaining <==> LeftAfter(GraphOf(rules), v, k)
    ensures level == IdsAtDepth(GraphOf(rules), k) && level != {}
    ensures Part(rules, rest) && |rest| < |remaining|
    ensures forall v :: v in rest <==> LeftAfter(GraphOf(rules), v, k + 1)
  {
    ghost var g := GraphOf(rules);
    level := UnblockedRules(rules, remaining, k);
    AcyclicMakesProgress(g, remaining, k);
    ghost var x := Member(level);
    rest := remaining - level;
    assert x in remaining && x !in rest && rest.Keys < remaining.Keys;
    Smaller(rest.Keys, remaining.Keys);
    forall v
      ensures v in rest <==> LeftAfter(g, v, k + 1)
    {
      assert LeftAfter(g, v, k + 1) <==> LeftAfter(g, v, k) && !AtDepth(g, v, k);
    }
  }

  /** Without a cycle the loop ends, and its levels hold, one by one, the same rules as Workflow's levels. */
  method AsyncLevels(rules: seq<Rule>) returns (levels: seq<set<int>>)
    requires Valid(rules) && Closed(GraphOf(rules)) && !HasCycle(GraphOf(rules))
    ensures InDepths(GraphOf(rules), levels)
    ensures forall id :: Above(GraphOf(rules), id, |levels|)
  {
    ghost var g := GraphOf(rules);
    var remaining := ById(rules);
    levels := [];
    while remaining != map[]
      invariant Part(rules, remaining)
      invariant forall v :: v in remaining <==> LeftAfter(g, v, |levels|)
      invariant InDepths(g, levels)
      decreases |remaining|
    {
      var level;
      level, remaining := TakeUnblocked(rules, remaining, |levels|);
      if level != {} {
        OneMoreDepth(g, levels, level);
        levels := levels + [level];
      }
    }
    NothingLeft(g, |levels|);
  }

  lemma AcyclicMakesProgress(g: Graph, remaining: map<int, Rule>, k: nat)
    requires Closed(g) && !HasCycle(g) && remaining != map[]
    requires forall v :: v in remaining <==> LeftAfter(g, v, k)
    ensures IdsAtDepth(g, k) != {}
    ensures forall v :: v in IdsAtDepth(g, k) ==> v in remaining
  {
    var id := Member(remaining.Keys);
    if IdsAtDepth(g, k) == {} {
      assert forall v :: !AtDepth(g, v, k) by {
        forall v
          ensures !AtDepth(g, v, k)
        {
          assert v !in IdsAtDepth(g, k);
        }
      }
      StuckMeansCycle(g, id, k);
    }
    forall v | v in IdsAtDepth(g, k)
      ensures v in remaining
    {
      assert LeftAfter(g, v, k);
    }
  }

  lemma Smaller(a: set<int>, b: set<int>)
    requires a < b
    ensures |a| < |b|
  {
    var x := Member(b - a);
    assert a <= b - {x};
    SubsetSize(a, b - {x});
  }

  /** Level by level, the two builders agree on which rules they hold. */
  lemma BuildersAgree(rules: seq<Rule>, levels: seq<seq<Rule>>, async: seq<set<int>>, k: nat, r: Rule)
    requires Valid(rules) && Closed(GraphOf(rules)) && Layered(GraphOf(rules), rules, levels)
    requires InDepths(GraphOf(rules), async)
    requires forall id :: Above(GraphOf(rules), id, |async|)
    requires r in rules
    ensures |levels| == |async|
    ensures k < |levels| ==> (r in levels[k] <==> r.id in async[k])
  {
    var g := GraphOf(rules);
    if |levels| < |async| {
      assert IsDepth(g, async[|levels|], |levels|);
      var id := Member(async[|levels|]);
      var above := Above(g, id, |levels|);
      assert false;
    }
    if |async| < |levels| {
      assert IsStratum(g, rules, levels[|async|], |async|);
      var x := levels[|async|][0];
      SortedStratum(g, rules, |async|, x);
      var above := Above(g, x.id, |async|);
      assert false;
    }
    if k < |levels| {
      assert IsDepth(g, async[k], k);
      LevelOfRule(rules, levels, r, k);
    }
  }

  /** The rules the loop would still hold after `k` passes, cycle or not. */
  ghost function RemainingAfter(g: Graph, k: nat): set<int>
  {
    if k == 0 then g.Keys
    else
      var rest := RemainingAfter(g, k - 1);
      set id | id in rest && id in g && g[id].Some? && g[id].value in rest
  }

  lemma {:induction false} RemainingIsLeft(g: Graph, k: nat, id: int)
    requires Closed(g)
    ensures id in RemainingAfter(g, k) <==> LeftAfter(g, id, k)
  {
    if k > 0 && id in g {
      var rest := RemainingAfter(g, k - 1);
      forall v
        ensures v in rest <==> LeftAfter(g, v, k - 1)
      {
        RemainingIsLeft(g, k - 1, v);
      }
      FreeIffAtDepth(g, rest, id, k - 1);
      assert LeftAfter(g, id, k) <==> LeftAfter(g, id, k - 1) && !AtDepth(g, id, k - 1);
    } else if k > 0 {
      RemainingIsLeft(g, k - 1, id);
    }
  }

  /** The asynchronous loop terminates exactly on the workflows without a cycle; on the others it spins forever. */
  lemma AsyncLoopEndsIffAcyclic(g: Graph)
    requires Closed(g)
    ensures (exists k :: RemainingAfter(g, k) == {}) <==> !HasCycle(g)
  {
    CycleIffSomeWalkNeverEnds(g);
    if k :| RemainingAfter(g, k) == {} {
      forall v | v in g
        ensures Ends(g, v)
      {
        RemainingIsLeft(g, k, v);
      }
    }
    if !HasCycle(g) {
      var k := DepthBound(g, g.Keys);
      forall v
        ensures v !in RemainingAfter(g, k)
      {
        RemainingIsLeft(g, k, v);
      }
      assert RemainingAfter(g, k) == {};
    }
  }

  lemma {:induction false} DepthBound(g: Graph, s: set<int>) returns (k: nat)
    requires Closed(g) && s <= g.Keys && forall v :: v in s ==> Ends(g, v)
    ensures forall v :: v in s ==> Depth(g, v) < k
  {
    if s == {} {
      k := 0;
    } else {
      var x := Member(s);
      k := DepthBound(g, s - {x});
      k := if k > Depth(g, x) then k else Depth(g, x) + 1;
    }
  }
}
