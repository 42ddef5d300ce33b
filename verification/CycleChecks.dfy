/**
 The walks along the dependency graph: the depth-first cycle check of a workflow, the chain
 walks of a rule and the check the rule builder makes.  Each is stated about the graph alone,
 so all of them, and the level builders, speak about the same cycles.
 */
module CycleChecks {
  import opened Common
  import opened Chains
  import opened Rules
  import opened DependencyLevels

  // ----- Workflow::checkCircularDependencies -----

  datatype Visit = Unvisited | Visiting | Visited

  /** The graph the depth-first search sees: -1 doubles as its "not found" value. */
  function DfsGraph(rules: seq<Rule>): Graph
  {
    Ignore(GraphOf(rules), -1)
  }

  /** Finished nodes start walks that end. */
  ghost predicate FinishedEnd(h: Graph, state: map<int, Visit>)
    requires Closed(h)
  {
    state.Keys == h.Keys && forall v :: v in h && state[v] == Visited ==> Ends(h, v)
  }

  /** The nodes being visited are the ones the search came along to reach `id`. */
  ghost predicate OnPath(h: Graph, state: map<int, Visit>, id: int)
    requires Closed(h) && state.Keys == h.Keys
  {
    forall v :: v in h && state[v] == Visiting ==> Reaches(h, v, id)
  }

  function Pending(state: map<int, Visit>): set<int>
  {
    set v | v in state && state[v] == Unvisited
  }

  lemma ReachesOn(h: Graph, v: int, id: int, next: int)
    requires Closed(h) && v in h && id in h && h[id] == Some(next)
    requires v == id || Reaches(h, v, id)
    ensures Reaches(h, v, next)
  {
    assert Walk(h, v, 0) == Some(v);
    var k: nat :| Walk(h, v, k) == Some(id);
    assert Walk(h, v, k + 1) == Some(next);
  }

  /** Looking the dependency up by name in the id map, as the search does. */
  method LookUpDependency(rules: seq<Rule>, ruleMap: map<int, Rule>, id: int) returns (depId: int)
    requires Valid(rules) && ruleMap == ById(rules) && id in ruleMap
    ensures depId == -1 <==> DfsGraph(rules)[id] == None
    ensures depId != -1 ==> DfsGraph(rules)[id] == Some(depId)
  {
    depId := -1;
    SearchByName(rules, ruleMap, id);
    GraphClosed(rules);
    var rule := ruleMap[id];
    if rule.dependsOn.Some? && exists x :: x in ruleMap && ruleMap[x].name == rule.dependsOn.value {
      var x :| x in ruleMap && ruleMap[x].name == rule.dependsOn.value;
      EdgeIsName(rules, id, x);
      depId := x;
    }
  }

  method Dfs(rules: seq<Rule>, ruleMap: map<int, Rule>, state: map<int, Visit>, id: int)
    returns (found: bool, after: map<int, Visit>)
    requires Valid(rules) && ruleMap == ById(rules) && Closed(DfsGraph(rules))
    requires FinishedEnd(DfsGraph(rules), state) && id in state && state[id] == Unvisited
    requires OnPath(DfsGraph(rules), state, id)
    ensures found ==> HasCycle(DfsGraph(rules))
    ensures !found ==> FinishedEnd(DfsGraph(rules), after) && after[id] == Visited
    ensures !found ==> forall v :: v in state ==> after[v] == state[v] || (state[v] == Unvisited && after[v] == Visited)
    decreases Pending(state)
  {
    ghost var h := DfsGraph(rules);
    after := state[id := Visiting];
    assert id in Pending(state) && id !in Pending(after) && Pending(after) < Pending(state);
    var depId := LookUpDependency(rules, ruleMap, id);
    DepthStep(h, id);
    if depId != -1 {
      forall v | v in h && after[v] == Visiting
        ensures Reaches(h, v, depId)
      {
        ReachesOn(h, v, id, depId);
      }
      if after[depId] == Visiting {
        assert Reaches(h, depId, depId);
        return true, after;
      }
      if after[depId] == Unvisited {
        ghost var before := after;
        found, after := Dfs(rules, ruleMap, after, depId);
        if found {
          return true, after;
        }
        assert after[id] == before[id];
      }
    }
    after := after[id := Visited];
    found := false;
  }

  /** The check throws exactly when the graph it sees has a cycle, whatever order the map is visited in. */
  method CheckCircularDependencies(rules: seq<Rule>) returns (throws: bool)
    requires Valid(rules)
    ensures Closed(DfsGraph(rules)) && (throws <==> HasCycle(DfsGraph(rules)))
  {
    ghost var h := DfsGraph(rules);
    GraphClosed(rules);
    IgnoreClosed(GraphOf(rules), -1);
    var ruleMap := ById(rules);
    var state := map id | id in ruleMap :: Unvisited;
    var todo := ruleMap.Keys;
    while todo != {}
      invariant todo <= ruleMap.Keys
      invariant FinishedEnd(h, state)
      invariant forall v :: v in state ==> state[v] != Visiting
      invariant forall v :: v in state && v !in todo ==> state[v] == Visited
      decreases todo
    {
      ghost var _ := Member(todo);
      var id :| id in todo;
      todo := todo - {id};
      if state[id] == Unvisited {
        throws, state := Dfs(rules, ruleMap, state, id);
        if throws {
          return;
        }
      }
    }
    CycleIffSomeWalkNeverEnds(h);
    throws := false;
  }

  /** The search throws exactly if some rule's chain never ends and never comes to a rule numbered -1. */
  lemma DfsMissesExactly(rules: seq<Rule>)
    requires Valid(rules)
    ensures Closed(GraphOf(rules)) && Closed(DfsGraph(rules))
    ensures HasCycle(DfsGraph(rules)) <==>
            exists id :: id in GraphOf(rules) && !Ends(GraphOf(rules), id) && !Reaches(GraphOf(rules), id, -1)
  {
    GraphClosed(rules);
    IgnoreClosed(GraphOf(rules), -1);
    CycleIgnoring(GraphOf(rules), -1);
  }

  /**
   The workflows that get past the check and still have a cycle, so that ordering them throws
   and the asynchronous loop never ends: some chain is endless, and every endless chain comes
   to a rule numbered -1.
   */
  lemma SlipsThroughIff(rules: seq<Rule>)
    requires Valid(rules)
    ensures Closed(GraphOf(rules)) && Closed(DfsGraph(rules))
    ensures !HasCycle(DfsGraph(rules)) && HasCycle(GraphOf(rules)) <==>
            && (exists id :: id in GraphOf(rules) && !Ends(GraphOf(rules), id))
            && (forall id :: id in GraphOf(rules) && !Ends(GraphOf(rules), id) ==> Reaches(GraphOf(rules), id, -1))
    ensures HasCycle(GraphOf(rules)) <==> forall k :: RemainingAfter(GraphOf(rules), k) != {}
  {
    DfsMissesExactly(rules);
    CycleIffSomeWalkNeverEnds(GraphOf(rules));
    AsyncLoopEndsIffAcyclic(GraphOf(rules));
  }

  /**
   Two rules that depend on each other escape the search when one of them is numbered -1; on
   them the level builder throws and the asynchronous loop never ends.
   */
  lemma SentinelHidesACycle()
    ensures var rules := [Rule(-1, "a", Some("b"), 0, true), Rule(1, "b", Some("a"), 0, true)];
            && Valid(rules)
            && Closed(GraphOf(rules)) && HasCycle(GraphOf(rules))
            && Closed(DfsGraph(rules)) && !HasCycle(DfsGraph(rules))
            && forall k :: RemainingAfter(GraphOf(rules), k) != {}
  {
    var a, b := Rule(-1, "a", Some("b"), 0, true), Rule(1, "b", Some("a"), 0, true);
    var rules := [a, b];
    assert rules[..1] == [a];
    assert [a][..0] == [];
    ByIdHas(rules, 0);
    ByIdHas(rules, 1);
    GraphClosed(rules);
    IgnoreClosed(GraphOf(rules), -1);
    var g, h := GraphOf(rules), DfsGraph(rules);
    EdgeIsName(rules, -1, 1);
    EdgeIsName(rules, 1, -1);
    assert g[-1] == Some(1) && g[1] == Some(-1);
    assert Walk(g, -1, 0) == Some(-1) && Walk(g, -1, 1) == Some(1) && Walk(g, -1, 2) == Some(-1);
    DepthStep(h, 1);
    DepthStep(h, -1);
    forall v | v in h
      ensures Ends(h, v)
    {
      var i := ByIdOnly(rules, v);
    }
    CycleIffSomeWalkNeverEnds(h);
    AsyncLoopEndsIffAcyclic(g);
  }

  // ----- Rule::hasCircularDependency and Rule::getDependencyChain -----

  /** The graph the chain walks see: they stop on reaching id 0. */
  function ChainGraph(rules: seq<Rule>): Graph
  {
    Ignore(GraphOf(rules), 0)
  }

  lemma ChainGraphStep(rules: seq<Rule>, id: int)
    requires Valid(rules) && id in ById(rules)
    ensures Closed(ChainGraph(rules)) && id in ChainGraph(rules)
    ensures var next := DependencyId(rules, ById(rules)[id]);
            ChainGraph(rules)[id] == if next == Some(0) then None else next
  {
    GraphClosed(rules);
    IgnoreClosed(GraphOf(rules), 0);
  }

  /** The walk from `s` passes through `id`. */
  ghost predicate Meets(h: Graph, s: int, id: int)
    requires Closed(h) && s in h
  {
    exists k :: Walk(h, s, k) == Some(id)
  }

  lemma NeverAfterStop(h: Graph, s: int, k: nat, self: int)
    requires Closed(h) && s in h && Walk(h, s, k).None?
    requires forall i :: 0 <= i < k ==> Walk(h, s, i) != Some(self)
    ensures !Meets(h, s, self)
  {
    forall m: nat
      ensures Walk(h, s, m) != Some(self)
    {
      if m >= k {
        WalkStops(h, s, k, m);
      }
    }
  }

  lemma FirstKnown(rules: seq<Rule>, rule: Rule)
    requires Valid(rules)
    ensures Closed(ChainGraph(rules))
    ensures var first := DependencyId(rules, rule); first.Some? ==> first.value in ById(rules) && first.value in ChainGraph(rules)
  {
    GraphClosed(rules);
    IgnoreClosed(GraphOf(rules), 0);
    if DependencyId(rules, rule).Some? {
      var i := IdOfNameOnly(rules, rule.dependsOn.value);
      ByIdHas(rules, i);
    }
  }

  /** For a rule of the list, starting at its dependency is the same as starting at the rule. */
  lemma FromDependency(rules: seq<Rule>, rule: Rule)
    requires Valid(rules) && rule in rules
    ensures Closed(ChainGraph(rules)) && rule.id in ChainGraph(rules)
    ensures var h, first := ChainGraph(rules), DependencyId(rules, rule);
            if first == None || first == Some(0) then Ends(h, rule.id) && Length(h, rule.id) == 1
            else
              && first.value in h
              && (!Ends(h, rule.id) <==> !Ends(h, first.value) || Meets(h, first.value, rule.id))
              && (Ends(h, rule.id) ==> Length(h, rule.id) == Length(h, first.value) + 1)
  {
    var h, first := ChainGraph(rules), DependencyId(rules, rule);
    InGraph(rules, rule);
    ChainGraphStep(rules, rule.id);
    FirstKnown(rules, rule);
    DepthStep(h, rule.id);
    assert Walk(h, rule.id, 0) == Some(rule.id) && Walk(h, rule.id, 1) == h[rule.id];
    if first != None && first != Some(0) {
      if Meets(h, first.value, rule.id) {
        var k: nat :| Walk(h, first.value, k) == Some(rule.id);
        WalkAdd(h, rule.id, 1, k);
        RepeatNeverEnds(h, rule.id, 0, k + 1);
      }
    }
  }

  /**
   True exactly when the chain from the rule's dependency never ends or comes back to the rule.
   For a rule of the list that is when its own chain never ends.
   */
  method HasCircularDependency(rules: seq<Rule>, rule: Rule) returns (circular: bool)
    requires Valid(rules)
    ensures Closed(ChainGraph(rules))
    ensures var h, first := ChainGraph(rules), DependencyId(rules, rule);
            && (first.Some? ==> first.value in h)
            && (circular <==> first.Some? && first.value != 0 && (!Ends(h, first.value) || Meets(h, first.value, rule.id)))
    ensures rule in rules ==> rule.id in ChainGraph(rules) && (circular <==> !Ends(ChainGraph(rules), rule.id))
  {
    ghost var h := ChainGraph(rules);
    FirstKnown(rules, rule);
    if rule in rules {
      FromDependency(rules, rule);
    }
    var first := DependencyId(rules, rule);
    if first == None {
      return false;
    }
    circular := WalkFrom(rules, rule.id, first.value);
  }

  /** The walk itself, from the first dependency on. */
  method WalkFrom(rules: seq<Rule>, self: int, s: int) returns (circular: bool)
    requires Valid(rules) && Closed(ChainGraph(rules)) && s in ChainGraph(rules)
    ensures circular <==> s != 0 && (!Ends(ChainGraph(rules), s) || Meets(ChainGraph(rules), s, self))
  {
    ghost var h := ChainGraph(rules);
    var ruleMap := ById(rules);
    var visited: set<int> := {};
    var current := s;
    ghost var k := 0;
    assert Walk(h, s, 0) == Some(s);
    while current != 0
      invariant s == 0 ==> current == 0
      invariant s != 0 ==> Walk(h, s, k) == if current == 0 then None else Some(current)
      invariant visited <= h.Keys
      invariant forall v :: v in visited ==> exists j :: 0 <= j < k && Walk(h, s, j) == Some(v)
      invariant forall i :: 0 <= i < k ==> Walk(h, s, i) != Some(self)
      decreases h.Keys - visited
    {
      if current == self {
        assert Meets(h, s, self);
        return true;
      }
      if current in visited {
        ghost var j :| 0 <= j < k && Walk(h, s, j) == Some(current);
        RepeatNeverEnds(h, s, j, k);
        return true;
      }
      visited := visited + {current};
      ChainGraphStep(rules, current);
      assert Walk(h, s, k + 1) == h[current];
      var next := DependencyId(rules, ruleMap[current]);
      if next == None {
        NeverAfterStop(h, s, k + 1, self);
        return false;
      }
      current := next.value;
      k := k + 1;
    }
    if s != 0 {
      NeverAfterStop(h, s, k, self);
    }
    return false;
  }

  ghost predicate Follows(h: Graph, id: int, chain: seq<int>)
    requires Closed(h) && id in h
  {
    forall i :: 0 <= i < |chain| ==> Walk(h, id, i) == Some(chain[i])
  }

  lemma MetAgain(h: Graph, s: int, tail: seq<int>, x: int)
    requires Closed(h) && s in h && Follows(h, s, tail) && Walk(h, s, |tail|) == Some(x) && x in tail
    ensures !Ends(h, s)
  {
    var j :| 0 <= j < |tail| && tail[j] == x;
    RepeatNeverEnds(h, s, j, |tail|);
  }

  /** The walk from `s`: all of it if it ends, otherwise up to the first node met again.  Id 0 stands for no dependency. */
  ghost predicate IsTail(h: Graph, s: int, tail: seq<int>)
    requires Closed(h) && s in h
  {
    if s == 0 then tail == []
    else
      && Follows(h, s, tail)
      && (Ends(h, s) ==> |tail| == Length(h, s))
      && (!Ends(h, s) ==> |tail| > 0 && tail[|tail| - 1] in tail[..|tail| - 1])
  }

  method ChainFrom(rules: seq<Rule>, s: int) returns (tail: seq<int>)
    requires Valid(rules) && Closed(ChainGraph(rules)) && s in ChainGraph(rules)
    ensures IsTail(ChainGraph(rules), s, tail)
  {
    ghost var h := ChainGraph(rules);
    tail := [];
    var ruleMap := ById(rules);
    var visited: set<int> := {};
    var current := s;
    assert Walk(h, s, 0) == Some(s);
    while current != 0
      invariant s == 0 ==> tail == [] && current == 0
      invariant s != 0 ==> Follows(h, s, tail) && Walk(h, s, |tail|) == if current == 0 then None else Some(current)
      invariant visited <= h.Keys && forall v :: v in visited ==> v in tail
      decreases h.Keys - visited
    {
      if current in visited {
        MetAgain(h, s, tail, current);
        tail := tail + [current];
        return;
      }
      tail := tail + [current];
      visited := visited + {current};
      ChainGraphStep(rules, current);
      assert Walk(h, s, |tail|) == h[current];
      var next := DependencyId(rules, ruleMap[current]);
      if next == None {
        LengthIs(h, s, |tail|);
        return;
      }
      current := next.value;
    }
    if s != 0 {
      LengthIs(h, s, |tail|);
    }
  }

  /** The rule's id and then the walk from its dependency on, if it has one. */
  ghost predicate IsChain(rules: seq<Rule>, rule: Rule, chain: seq<int>)
    requires Closed(ChainGraph(rules))
  {
    var h, first := ChainGraph(rules), DependencyId(rules, rule);
    && |chain| > 0 && chain[0] == rule.id
    && if first == None then chain[1..] == [] else first.value in h && IsTail(h, first.value, chain[1..])
  }

  /**
   The chain, for any rule and any list.  For a rule of the list whose chain ends it is the
   whole chain, so its length is one more than the rule's depth.
   */
  method GetDependencyChain(rules: seq<Rule>, rule: Rule) returns (chain: seq<int>)
    requires Valid(rules)
    ensures Closed(ChainGraph(rules)) && IsChain(rules, rule, chain)
    ensures rule in rules ==> rule.id in ChainGraph(rules) && Follows(ChainGraph(rules), rule.id, chain)
    ensures rule in rules && Ends(ChainGraph(rules), rule.id) ==> |chain| == Length(ChainGraph(rules), rule.id)
  {
    FirstKnown(rules, rule);
    chain := [rule.id];
    var first := DependencyId(rules, rule);
    if first != None {
      var tail := ChainFrom(rules, first.value);
      chain := chain + tail;
      assert chain[1..] == tail;
    }
    if rule in rules {
      ChainOfListed(rules, rule, chain);
    }
  }

  lemma ChainOfListed(rules: seq<Rule>, rule: Rule, chain: seq<int>)
    requires Valid(rules) && rule in rules && Closed(ChainGraph(rules)) && IsChain(rules, rule, chain)
    ensures rule.id in ChainGraph(rules) && Follows(ChainGraph(rules), rule.id, chain)
    ensures Ends(ChainGraph(rules), rule.id) ==> |chain| == Length(ChainGraph(rules), rule.id)
  {
    var h, first := ChainGraph(rules), DependencyId(rules, rule);
    FromDependency(rules, rule);
    InGraph(rules, rule);
    ChainGraphStep(rules, rule.id);
    assert Walk(h, rule.id, 0) == Some(rule.id) && Walk(h, rule.id, 1) == h[rule.id];
    if first != None && first != Some(0) {
      forall i | 1 <= i < |chain|
        ensures Walk(h, rule.id, i) == Some(chain[i])
      {
        WalkAdd(h, rule.id, 1, i - 1);
        assert chain[1..][i - 1] == chain[i];
      }
    }
  }

  /** The chain walks call a chain endless exactly if it never ends and never comes to a rule numbered 0. */
  lemma ChainWalksMissExactly(rules: seq<Rule>, id: int)
    requires Valid(rules) && id in GraphOf(rules)
    ensures Closed(GraphOf(rules)) && Closed(ChainGraph(rules)) && id in ChainGraph(rules)
    ensures !Ends(ChainGraph(rules), id) <==> !Ends(GraphOf(rules), id) && !Reaches(GraphOf(rules), id, 0)
  {
    GraphClosed(rules);
    IgnoreClosed(GraphOf(rules), 0);
    EndsIgnoring(GraphOf(rules), 0, id);
  }

  // ----- Rule::Builder::dependsOn -----

  /** The builder never follows the dependency of the rule numbered 0. */
  function BuilderGraph(rules: seq<Rule>): Graph
  {
    var g := GraphOf(rules);
    map v | v in g :: if v == 0 then None else g[v]
  }

  /** Once a walk repeats, it visits nothing new. */
  lemma {:induction false} NothingNew(h: Graph, v: int, j: nat, k: nat, m: nat) returns (i: nat)
    requires Closed(h) && v in h && j < k && Walk(h, v, j).Some? && Walk(h, v, k) == Walk(h, v, j)
    ensures i < k && Walk(h, v, m) == Walk(h, v, i)
    decreases m
  {
    if m < k {
      i := m;
    } else {
      WalkAdd(h, v, k, m - k);
      WalkAdd(h, v, j, m - k);
      i := NothingNew(h, v, j, k, j + (m - k));
    }
  }

  /**
   Declaring a dependency throws exactly when the chain from the named rule, as far as the
   given rules know it, leads back to the rule under construction.
   */
  method BuilderDependsOn(rules: seq<Rule>, self: int, name: string) returns (throws: bool)
    requires Valid(rules)
    ensures Closed(BuilderGraph(rules))
    ensures var start := IdOfName(rules, name);
            && (start.Some? ==> start.value in BuilderGraph(rules))
            && (throws <==> start.Some? && Meets(BuilderGraph(rules), start.value, self))
  {
    ghost var h := BuilderGraph(rules);
    GraphClosed(rules);
    var start := IdOfName(rules, name);
    if start == None {
      return false;
    }
    var s: int := start.value;
    ghost var n := IdOfNameOnly(rules, name);
    ByIdHas(rules, n);
    assert Walk(h, s, 0) == Some(s);
    if s == self {
      assert Meets(h, s, self);
      return true;
    }
    var ruleMap := ById(rules);
    var visited: set<int> := {};
    var current := s;
    ghost var k := 0;
    while current != 0
      invariant Walk(h, s, k) == Some(current)
      invariant visited <= h.Keys
      invariant forall i :: 0 <= i <= k ==> Walk(h, s, i) != Some(self)
      invariant forall v :: v in visited ==> exists j :: 0 <= j <= k && Walk(h, s, j) == Some(v)
      decreases h.Keys - visited
    {
      assert Walk(h, s, k + 1) == h[current];
      var next := DependencyId(rules, ruleMap[current]);
      if next == None {
        NeverAfterStop(h, s, k + 1, self);
        return false;
      }
      if next.value == self {
        assert Walk(h, s, k + 1) == Some(self);
        assert Meets(h, s, self);
        return true;
      }
      if next.value in visited {
        ghost var j :| 0 <= j <= k && Walk(h, s, j) == Some(next.value);
        forall m: nat
          ensures Walk(h, s, m) != Some(self)
        {
          var i := NothingNew(h, s, j, k + 1, m);
        }
        assert !Meets(h, s, self);
        return false;
      }
      current := next.value;
      visited := visited + {current};
      k := k + 1;
    }
    assert Walk(h, s, k + 1) == h[current];
    NeverAfterStop(h, s, k + 1, self);
    return false;
  }

  /** The walk along the whole graph comes to id 0 in fewer than `k` steps. */
  ghost predicate MeetsZero(g: Graph, s: int, k: nat)
    requires Closed(g) && s in g
  {
    exists j :: 0 <= j < k && Walk(g, s, j) == Some(0)
  }

  lemma {:induction false} BuilderWalk(rules: seq<Rule>, s: int, k: nat)
    requires Closed(GraphOf(rules)) && Closed(BuilderGraph(rules)) && s in GraphOf(rules)
    ensures Walk(BuilderGraph(rules), s, k) == if MeetsZero(GraphOf(rules), s, k) then None else Walk(GraphOf(rules), s, k)
  {
    var g, h := GraphOf(rules), BuilderGraph(rules);
    if k > 0 {
      BuilderWalk(rules, s, k - 1);
      assert MeetsZero(g, s, k) <==> MeetsZero(g, s, k - 1) || Walk(g, s, k - 1) == Some(0);
      if !MeetsZero(g, s, k - 1) && Walk(g, s, k - 1).Some? {
        var v: int := Walk(g, s, k - 1).value;
        assert h[v] == if v == 0 then None else g[v];
      }
    }
  }

  /** The builder misses a way back exactly if it leads through a rule numbered 0 before it arrives. */
  lemma BuilderMissesExactly(rules: seq<Rule>, s: int, self: int)
    requires Valid(rules) && s in GraphOf(rules)
    ensures Closed(GraphOf(rules)) && Closed(BuilderGraph(rules))
    ensures Meets(BuilderGraph(rules), s, self) <==> exists k: nat :: Walk(GraphOf(rules), s, k) == Some(self) && !MeetsZero(GraphOf(rules), s, k)
  {
    GraphClosed(rules);
    if Meets(BuilderGraph(rules), s, self) {
      var k: nat :| Walk(BuilderGraph(rules), s, k) == Some(self);
      BuilderWalk(rules, s, k);
      assert Walk(GraphOf(rules), s, k) == Some(self) && !MeetsZero(GraphOf(rules), s, k);
    }
    if k: nat :| Walk(GraphOf(rules), s, k) == Some(self) && !MeetsZero(GraphOf(rules), s, k) {
      BuilderWalk(rules, s, k);
      assert Walk(BuilderGraph(rules), s, k) == Some(self);
    }
  }

  /** Away from the two reserved ids all the walks, and the level builders, see one and the same graph. */
  lemma ChecksShareTheGraph(rules: seq<Rule>)
    requires Valid(rules)
    ensures -1 !in GraphOf(rules) ==> DfsGraph(rules) == GraphOf(rules)
    ensures 0 !in GraphOf(rules) ==> ChainGraph(rules) == GraphOf(rules) && BuilderGraph(rules) == GraphOf(rules)
  {
    GraphClosed(rules);
    IgnoreClosed(GraphOf(rules), -1);
    IgnoreClosed(GraphOf(rules), 0);
  }

  /**
   Five views of one question.  On a valid workflow without the reserved ids: the depth-first
   check throws, the level builder throws, some rule reports a circular dependency, and the
   asynchronous level loop never ends, all in exactly the same cases.
   */
  lemma ViewsAgree(rules: seq<Rule>)
    requires Valid(rules) && -1 !in GraphOf(rules) && 0 !in GraphOf(rules)
    ensures Closed(GraphOf(rules)) && Closed(DfsGraph(rules)) && Closed(ChainGraph(rules))
    ensures HasCycle(DfsGraph(rules)) <==> HasCycle(GraphOf(rules))
    ensures HasCycle(GraphOf(rules)) <==> exists v :: v in ChainGraph(rules) && !Ends(ChainGraph(rules), v)
    ensures HasCycle(GraphOf(rules)) <==> forall k :: RemainingAfter(GraphOf(rules), k) != {}
  {
    GraphClosed(rules);
    ChecksShareTheGraph(rules);
    CycleIffSomeWalkNeverEnds(GraphOf(rules));
    AsyncLoopEndsIffAcyclic(GraphOf(rules));
  }
}
