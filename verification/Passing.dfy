/**
 Which rules of a workflow succeed: the ones whose whole dependency chain is active and
 passes.  Sequential execution reports exactly that.
 */
module Passing {
  import opened Common
  import opened Chains
  import opened Rules
  import opened Results
  import opened DependencyLevels
  import opened SequentialExecution

  /** A validated workflow: every dependency exists, and no two rules share a context key. */
  ghost predicate Validated(rules: seq<Rule>)
  {
    && Valid(rules)
    && Closed(GraphOf(rules))
    && (forall i :: 0 <= i < |rules| && rules[i].dependsOn.Some? ==>
          rules[i].id in GraphOf(rules) && GraphOf(rules)[rules[i].id].Some?)
    && (forall i, j :: 0 <= i < j < |rules| ==> ResultKey(rules[i]) != ResultKey(rules[j]))
  }

  ghost predicate Healthy(rules: seq<Rule>, verdict: int -> bool, id: int)
  {
    id in ById(rules) && ById(rules)[id].active && verdict(id)
  }

  /** The rule `k` edges along the chain from `id`, if there is one, is healthy. */
  ghost predicate HealthyAt(rules: seq<Rule>, verdict: int -> bool, id: int, k: nat)
    requires Closed(GraphOf(rules)) && id in GraphOf(rules)
  {
    Walk(GraphOf(rules), id, k).Some? ==> Healthy(rules, verdict, Walk(GraphOf(rules), id, k).value)
  }

  /** Every rule on the chain from `id` on is active and passes by itself. */
  ghost predicate Passes(rules: seq<Rule>, verdict: int -> bool, id: int)
    requires Closed(GraphOf(rules)) && id in GraphOf(rules)
  {
    forall k :: HealthyAt(rules, verdict, id, k)
  }

  ghost predicate DependencyPasses(rules: seq<Rule>, verdict: int -> bool, id: int)
    requires Closed(GraphOf(rules)) && id in GraphOf(rules)
  {
    GraphOf(rules)[id].Some? ==> Passes(rules, verdict, GraphOf(rules)[id].value)
  }

  lemma PassesStep(rules: seq<Rule>, verdict: int -> bool, id: int)
    requires Closed(GraphOf(rules)) && id in GraphOf(rules)
    ensures Passes(rules, verdict, id) <==> Healthy(rules, verdict, id) && DependencyPasses(rules, verdict, id)
  {
    var g := GraphOf(rules);
    assert Walk(g, id, 0) == Some(id);
    assert HealthyAt(rules, verdict, id, 0) <==> Healthy(rules, verdict, id);
    if Passes(rules, verdict, id) && g[id].Some? {
      forall k: nat
        ensures HealthyAt(rules, verdict, g[id].value, k)
      {
        ShiftedStep(rules, verdict, id, k);
        assert HealthyAt(rules, verdict, id, k + 1);
      }
    }
    if Healthy(rules, verdict, id) && DependencyPasses(rules, verdict, id) {
      forall k: nat
        ensures HealthyAt(rules, verdict, id, k)
      {
        if k > 0 {
          ShiftedStep(rules, verdict, id, k - 1);
          assert g[id].Some? ==> HealthyAt(rules, verdict, g[id].value, k - 1);
        }
      }
    }
  }

  lemma ShiftedStep(rules: seq<Rule>, verdict: int -> bool, id: int, k: nat)
    requires Closed(GraphOf(rules)) && id in GraphOf(rules)
    ensures var g := GraphOf(rules);
            HealthyAt(rules, verdict, id, k + 1) <==> (g[id].Some? ==> HealthyAt(rules, verdict, g[id].value, k))
  {
    var g := GraphOf(rules);
    assert Walk(g, id, 0) == Some(id) && Walk(g, id, 1) == g[id];
    if g[id].Some? {
      WalkAdd(g, id, 1, k);
    } else {
      WalkStops(g, id, 1, k + 1);
    }
  }

  /** Dependencies come before the rules that name them. */
  ghost predicate DependenciesFirst(rules: seq<Rule>, order: seq<Rule>)
  {
    forall i, j :: 0 <= i < |order| && 0 <= j < |rules| && order[i].dependsOn == Some(rules[j].name) ==> rules[j] in order[..i]
  }

  /**
   What is known of the execution of single rules: a rule's own verdict is fixed, a rule of
   `cached` is answered from its cache and leaves the context alone, any other records its
   result, and neither touches other top-level results.
   */
  ghost predicate Answers<W(!new)>(run: Oracle<W>, rules: seq<Rule>, verdict: int -> bool, cached: set<int>)
  {
    forall i, env: Env<W> :: 0 <= i < |rules| && rules[i].active ==> AnswersAt(run, rules, verdict, cached, rules[i], env)
  }

  ghost predicate AnswersAt<W>(run: Oracle<W>, rules: seq<Rule>, verdict: int -> bool, cached: set<int>, rule: Rule, env: Env<W>)
  {
    var (result, after) := run(rule, env);
    && result.ruleId == rule.id && !result.skipped && result.IsSuccess() == verdict(rule.id)
    && (if rule.id in cached then after.context == env.context
        else ResultKey(rule) in after.context && after.context[ResultKey(rule)] == result)
    && OthersKept(rules, rule, env.context, after.context)
  }

  ghost predicate OthersKept(rules: seq<Rule>, rule: Rule, before: Context, after: Context)
  {
    forall j :: 0 <= j < |rules| && rules[j] != rule ==> Succeeded(after, rules[j]) == Succeeded(before, rules[j])
  }

  /** Nothing is answered from a cache. */
  ghost predicate Steady<W(!new)>(run: Oracle<W>, rules: seq<Rule>, verdict: int -> bool)
  {
    Answers(run, rules, verdict, {})
  }

  /** The rules that a later dependency check can see succeed: a hidden one leaves no trace. */
  function Seen(verdict: int -> bool, hidden: set<int>): int -> bool
  {
    id => verdict(id) && id !in hidden
  }

  /** A loop that records every result itself hides nothing; the plain one hides what the caches answer. */
  function Hidden(cached: set<int>, store: bool): set<int>
  {
    if store then {} else cached
  }

  lemma SeenPasses(rules: seq<Rule>, verdict: int -> bool, hidden: set<int>, id: int)
    requires Closed(GraphOf(rules)) && id in GraphOf(rules)
    ensures Passes(rules, Seen(verdict, hidden), id) ==> Passes(rules, verdict, id)
    ensures hidden == {} && Passes(rules, verdict, id) ==> Passes(rules, Seen(verdict, hidden), id)
  {
    forall k: nat
      ensures HealthyAt(rules, Seen(verdict, hidden), id, k) ==> HealthyAt(rules, verdict, id, k)
      ensures hidden == {} && HealthyAt(rules, verdict, id, k) ==> HealthyAt(rules, Seen(verdict, hidden), id, k)
    {
    }
  }

  lemma SeenDependencyPasses(rules: seq<Rule>, verdict: int -> bool, hidden: set<int>, id: int)
    requires Closed(GraphOf(rules)) && id in GraphOf(rules)
    ensures DependencyPasses(rules, Seen(verdict, hidden), id) ==> DependencyPasses(rules, verdict, id)
    ensures hidden == {} && DependencyPasses(rules, verdict, id) ==> DependencyPasses(rules, Seen(verdict, hidden), id)
  {
    if GraphOf(rules)[id].Some? {
      SeenPasses(rules, verdict, hidden, GraphOf(rules)[id].value);
    }
  }

  predicate Succeeded(context: Context, rule: Rule)
  {
    ResultKey(rule) in context && context[ResultKey(rule)].IsSuccess()
  }

  /** The context marks as successful exactly the passing rules among those already done. */
  ghost predicate Truthful(rules: seq<Rule>, verdict: int -> bool, done: seq<Rule>, context: Context)
    requires Validated(rules)
  {
    forall j :: 0 <= j < |rules| ==> TruthfulAt(rules, verdict, done, rules[j], context)
  }

  ghost predicate TruthfulAt(rules: seq<Rule>, verdict: int -> bool, done: seq<Rule>, rule: Rule, context: Context)
    requires Closed(GraphOf(rules))
  {
    rule.id in GraphOf(rules) && (Succeeded(context, rule) <==> rule in done && Passes(rules, verdict, rule.id))
  }

  /** The rules a sequential run reports: active, with a dependency that passed. */
  ghost function Reported(rules: seq<Rule>, verdict: int -> bool, order: seq<Rule>): (r: seq<Rule>)
    requires Closed(GraphOf(rules)) && forall i :: 0 <= i < |order| ==> order[i].id in GraphOf(rules)
    ensures forall x :: x in r <==> x in order && x.active && DependencyPasses(rules, verdict, x.id)
  {
    if order == [] then []
    else
      assert forall x :: x in order <==> x == order[0] || x in order[1..];
      (if order[0].active && DependencyPasses(rules, verdict, order[0].id) then [order[0]] else []) +
      Reported(rules, verdict, order[1..])
  }

  /** One result per reported rule, in order, successful exactly when the rule's whole chain passes. */
  ghost predicate Matches(rules: seq<Rule>, verdict: int -> bool, results: seq<RuleResult>, reported: seq<Rule>)
    requires Closed(GraphOf(rules)) && forall i :: 0 <= i < |reported| ==> reported[i].id in GraphOf(rules)
  {
    && |results| == |reported|
    && forall i :: 0 <= i < |results| ==>
         results[i].ruleId == reported[i].id && (results[i].IsSuccess() <==> Passes(rules, verdict, reported[i].id))
  }

  /** In a truthful context, looking the dependency up gives the same answer as the graph. */
  lemma DependencyMetIffPasses(rules: seq<Rule>, verdict: int -> bool, done: seq<Rule>, rule: Rule, context: Context)
    requires Validated(rules) && rule in rules && Truthful(rules, verdict, done, context)
    requires forall j :: 0 <= j < |rules| && rule.dependsOn == Some(rules[j].name) ==> rules[j] in done
    ensures rule.id in GraphOf(rules)
    ensures DependencyMet(rule, context) <==> DependencyPasses(rules, verdict, rule.id)
  {
    var g := GraphOf(rules);
    InGraph(rules, rule);
    if rule.dependsOn.Some? {
      var d: int := g[rule.id].value;
      var j := ByIdOnly(rules, d);
      EdgeIsName(rules, rule.id, d);
      assert rule.dependsOn == Some(rules[j].name) && rules[j].name != "";
      assert ResultKey(rules[j]) == rule.dependsOn.value;
      assert TruthfulAt(rules, verdict, done, rules[j], context);
      assert Succeeded(context, rules[j]) <==> DependencyMet(rule, context);
    }
  }

  /** After a turn that ran the rule, the context shows its success exactly if the result was good and not hidden. */
  lemma ShownAfterRun<W(!new)>(run: Oracle<W>, rules: seq<Rule>, verdict: int -> bool, cached: set<int>, rule: Rule, env: Env<W>, store: bool)
    requires Validated(rules) && rule in rules && rule.active && Answers(run, rules, verdict, cached)
    requires DependencyMet(rule, env.context) && !Succeeded(env.context, rule)
    ensures var now := Turn(run, rule, env, store);
            && |now.results| == 1 && now.results[0].ruleId == rule.id && now.results[0].IsSuccess() == verdict(rule.id)
            && Succeeded(now.env.context, rule) == Seen(verdict, Hidden(cached, store))(rule.id)
            && OthersKept(rules, rule, env.context, now.env.context)
  {
    var i :| 0 <= i < |rules| && rules[i] == rule;
    assert AnswersAt(run, rules, verdict, cached, rules[i], env);
    var now := Turn(run, rule, env, store).env.context;
    forall j | 0 <= j < |rules| && rules[j] != rule
      ensures Succeeded(now, rules[j]) == Succeeded(env.context, rules[j])
    {
      assert ResultKey(rules[j]) != ResultKey(rule);
    }
  }

  lemma TruthfulAfterRun(rules: seq<Rule>, seen: int -> bool, done: seq<Rule>, rule: Rule, before: Context, after: Context)
    requires Validated(rules) && rule in rules && rule.active && Truthful(rules, seen, done, before)
    requires rule.id in GraphOf(rules) && DependencyPasses(rules, seen, rule.id)
    requires Succeeded(after, rule) == seen(rule.id) && OthersKept(rules, rule, before, after)
    ensures Truthful(rules, seen, done + [rule], after)
  {
    PassesStep(rules, seen, rule.id);
    InGraph(rules, rule);
    forall j | 0 <= j < |rules|
      ensures TruthfulAt(rules, seen, done + [rule], rules[j], after)
    {
      assert TruthfulAt(rules, seen, done, rules[j], before);
    }
  }

  lemma TruthfulAfterSkip(rules: seq<Rule>, verdict: int -> bool, done: seq<Rule>, rule: Rule, context: Context)
    requires Validated(rules) && rule in rules && Truthful(rules, verdict, done, context)
    requires rule.id in GraphOf(rules) && !(rule.active && DependencyPasses(rules, verdict, rule.id))
    ensures Truthful(rules, verdict, done + [rule], context)
  {
    InGraph(rules, rule);
    PassesStep(rules, verdict, rule.id);
    forall j | 0 <= j < |rules|
      ensures TruthfulAt(rules, verdict, done + [rule], rules[j], context)
    {
      assert TruthfulAt(rules, verdict, done, rules[j], context);
    }
  }

  ghost predicate NoRepeats(order: seq<Rule>)
  {
    forall i, j :: 0 <= i < j < |order| ==> order[i] != order[j]
  }

  /** The rule itself if its turn reports it. */
  ghost function ReportedNow(rules: seq<Rule>, seen: int -> bool, rule: Rule): seq<Rule>
    requires Closed(GraphOf(rules)) && rule.id in GraphOf(rules)
  {
    if rule.active && DependencyPasses(rules, seen, rule.id) then [rule] else []
  }

  lemma TurnMatches<W(!new)>(run: Oracle<W>, rules: seq<Rule>, verdict: int -> bool, cached: set<int>, done: seq<Rule>, rule: Rule, env: Env<W>, store: bool)
    requires Validated(rules) && Answers(run, rules, verdict, cached) && rule in rules && rule !in done
    requires Truthful(rules, Seen(verdict, Hidden(cached, store)), done, env.context)
    requires forall j :: 0 <= j < |rules| && rule.dependsOn == Some(rules[j].name) ==> rules[j] in done
    ensures rule.id in GraphOf(rules)
    ensures var now, seen := Turn(run, rule, env, store), Seen(verdict, Hidden(cached, store));
            && Truthful(rules, seen, done + [rule], now.env.context)
            && Matches(rules, verdict, now.results, ReportedNow(rules, seen, rule))
  {
    var seen := Seen(verdict, Hidden(cached, store));
    DependencyMetIffPasses(rules, seen, done, rule, env.context);
    if rule.active && DependencyMet(rule, env.context) {
      var j :| 0 <= j < |rules| && rules[j] == rule;
      assert TruthfulAt(rules, seen, done, rules[j], env.context);
      ShownAfterRun(run, rules, verdict, cached, rule, env, store);
      TruthfulAfterRun(rules, seen, done, rule, env.context, Turn(run, rule, env, store).env.context);
      SeenDependencyPasses(rules, verdict, Hidden(cached, store), rule.id);
      PassesStep(rules, verdict, rule.id);
      InGraph(rules, rule);
    } else {
      TruthfulAfterSkip(rules, seen, done, rule, env.context);
    }
  }

  lemma MatchesAppend(rules: seq<Rule>, verdict: int -> bool, r1: seq<RuleResult>, s1: seq<Rule>, r2: seq<RuleResult>, s2: seq<Rule>)
    requires Closed(GraphOf(rules)) && (forall i :: 0 <= i < |s1| ==> s1[i].id in GraphOf(rules)) && (forall i :: 0 <= i < |s2| ==> s2[i].id in GraphOf(rules))
    requires Matches(rules, verdict, r1, s1) && Matches(rules, verdict, r2, s2)
    ensures Matches(rules, verdict, r1 + r2, s1 + s2)
  {
  }

  ghost predicate GoodOrder(rules: seq<Rule>, order: seq<Rule>)
  {
    && NoRepeats(order) && DependenciesFirst(rules, order)
    && forall i :: 0 <= i < |order| ==> order[i] in rules && order[i].id in GraphOf(rules)
  }

  lemma {:induction false} PassFrom<W(!new)>(run: Oracle<W>, rules: seq<Rule>, verdict: int -> bool, cached: set<int>, order: seq<Rule>, n: nat, env: Env<W>, store: bool)
    requires Validated(rules) && Answers(run, rules, verdict, cached) && n <= |order| && GoodOrder(rules, order)
    requires Truthful(rules, Seen(verdict, Hidden(cached, store)), order[..n], env.context)
    ensures Matches(rules, verdict, Rest(run, order, n, env, store).results,
                    Reported(rules, Seen(verdict, Hidden(cached, store)), order[n..]))
    decreases |order| - n
  {
    var seen := Seen(verdict, Hidden(cached, store));
    if n < |order| {
      var rule := order[n];
      var now := Turn(run, rule, env, store);
      assert order[..n + 1] == order[..n] + [rule];
      TurnMatches(run, rules, verdict, cached, order[..n], rule, env, store);
      PassFrom(run, rules, verdict, cached, order, n + 1, now.env, store);
      MatchesAppend(rules, verdict, now.results, ReportedNow(rules, seen, rule),
                    Rest(run, order, n + 1, now.env, store).results, Reported(rules, seen, order[n + 1..]));
      ReportedStep(rules, seen, order, n);
    }
  }

  lemma ReportedStep(rules: seq<Rule>, seen: int -> bool, order: seq<Rule>, n: nat)
    requires Closed(GraphOf(rules)) && n < |order| && forall i :: 0 <= i < |order| ==> order[i].id in GraphOf(rules)
    ensures Reported(rules, seen, order[n..]) == ReportedNow(rules, seen, order[n]) + Reported(rules, seen, order[n + 1..])
  {
    assert order[n..][0] == order[n] && order[n..][1..] == order[n + 1..];
  }

  /** A whole pass from an empty context, by the plain loop or by one that records results itself. */
  lemma PassReports<W(!new)>(run: Oracle<W>, rules: seq<Rule>, levels: seq<seq<Rule>>, verdict: int -> bool, cached: set<int>, world: W, store: bool)
    requires Validated(rules) && Layered(GraphOf(rules), rules, levels) && Answers(run, rules, verdict, cached)
    ensures GoodOrder(rules, Flatten(levels))
    ensures Matches(rules, verdict, Pass(run, Flatten(levels), Env(map[], world), store).results,
                    Reported(rules, Seen(verdict, Hidden(cached, store)), Flatten(levels)))
  {
    var order := Flatten(levels);
    OrderFacts(rules, levels);
    forall j | 0 <= j < |rules|
      ensures TruthfulAt(rules, Seen(verdict, Hidden(cached, store)), [], rules[j], map[])
    {
      InGraph(rules, rules[j]);
    }
    assert order[..0] == [] && order[0..] == order;
    PassFrom(run, rules, verdict, cached, order, 0, Env(map[], world), store);
  }

  lemma {:induction false} SameReported(rules: seq<Rule>, v: int -> bool, w: int -> bool, order: seq<Rule>)
    requires Closed(GraphOf(rules)) && forall i :: 0 <= i < |order| ==> order[i].id in GraphOf(rules)
    requires forall i :: 0 <= i < |order| ==> ReportedNow(rules, v, order[i]) == ReportedNow(rules, w, order[i])
    ensures Reported(rules, v, order) == Reported(rules, w, order)
  {
    if order != [] {
      SameReported(rules, v, w, order[1..]);
      assert ReportedNow(rules, v, order[0]) == ReportedNow(rules, w, order[0]);
    }
  }

  lemma NothingHidden(rules: seq<Rule>, verdict: int -> bool, order: seq<Rule>)
    requires Closed(GraphOf(rules)) && forall i :: 0 <= i < |order| ==> order[i].id in GraphOf(rules)
    ensures Reported(rules, Seen(verdict, {}), order) == Reported(rules, verdict, order)
  {
    forall i | 0 <= i < |order|
      ensures ReportedNow(rules, Seen(verdict, {}), order[i]) == ReportedNow(rules, verdict, order[i])
    {
      SeenDependencyPasses(rules, verdict, {}, order[i].id);
    }
    SameReported(rules, Seen(verdict, {}), verdict, order);
  }

  /**
   Sequential execution reports one result per active rule whose dependency passed, and the
   result is a success exactly when the whole dependency chain is active and passes.
   */
  lemma SequentialReportsPassing<W(!new)>(run: Oracle<W>, rules: seq<Rule>, levels: seq<seq<Rule>>, verdict: int -> bool, world: W)
    requires Validated(rules) && Layered(GraphOf(rules), rules, levels) && Steady(run, rules, verdict)
    ensures forall i :: 0 <= i < |Flatten(levels)| ==> Flatten(levels)[i].id in GraphOf(rules)
    ensures Matches(rules, verdict, Pass(run, Flatten(levels), Env(map[], world), false).results,
                    Reported(rules, verdict, Flatten(levels)))
  {
    PassReports(run, rules, levels, verdict, {}, world, false);
    NothingHidden(rules, verdict, Flatten(levels));
  }

  // ----- when a cache hit makes a difference -----

  /** Results, not only verdicts, are fixed. */
  ghost predicate Fixed<W(!new)>(run: Oracle<W>, rules: seq<Rule>, outcome: int -> RuleResult)
  {
    forall rule, env: Env<W> :: rule in rules && rule.active ==> run(rule, env).0 == outcome(rule.id)
  }

  function VerdictOf(outcome: int -> RuleResult): int -> bool
  {
    id => outcome(id).IsSuccess()
  }

  /** No active rule whose dependency chain passes depends directly on a rule that is answered from its cache. */
  ghost predicate NoCachedDependency(rules: seq<Rule>, verdict: int -> bool, cached: set<int>)
    requires Closed(GraphOf(rules))
  {
    forall id :: id in GraphOf(rules) ==> DependencyNotCached(rules, verdict, cached, id)
  }

  ghost predicate DependencyNotCached(rules: seq<Rule>, verdict: int -> bool, cached: set<int>, id: int)
    requires Closed(GraphOf(rules)) && id in GraphOf(rules)
  {
    id in ById(rules) && ById(rules)[id].active && DependencyPasses(rules, verdict, id) && GraphOf(rules)[id].Some? ==>
      GraphOf(rules)[id].value !in cached
  }

  /** Then nothing that matters is hidden: a passing rule with a dependent is seen along its whole chain. */
  lemma {:induction false} ChainIsSeen(rules: seq<Rule>, verdict: int -> bool, cached: set<int>, id: int, k: nat)
    requires Closed(GraphOf(rules)) && id in GraphOf(rules) && NoCachedDependency(rules, verdict, cached)
    requires Passes(rules, verdict, id) && id !in cached
    ensures HealthyAt(rules, Seen(verdict, cached), id, k)
    decreases k
  {
    PassesStep(rules, verdict, id);
    assert Walk(GraphOf(rules), id, 0) == Some(id);
    if k > 0 {
      ShiftedStep(rules, Seen(verdict, cached), id, k - 1);
      assert DependencyNotCached(rules, verdict, cached, id);
      if GraphOf(rules)[id].Some? {
        ChainIsSeen(rules, verdict, cached, GraphOf(rules)[id].value, k - 1);
      }
    }
  }

  lemma SeenWhenNotCached(rules: seq<Rule>, verdict: int -> bool, cached: set<int>, rule: Rule)
    requires Valid(rules) && Closed(GraphOf(rules)) && rule in rules && rule.id in GraphOf(rules)
    requires NoCachedDependency(rules, verdict, cached)
    ensures ReportedNow(rules, Seen(verdict, cached), rule) == ReportedNow(rules, verdict, rule)
  {
    InGraph(rules, rule);
    SeenDependencyPasses(rules, verdict, cached, rule.id);
    var edge := GraphOf(rules)[rule.id];
    if rule.active && DependencyPasses(rules, verdict, rule.id) && edge.Some? {
      assert DependencyNotCached(rules, verdict, cached, rule.id);
      forall k: nat
        ensures HealthyAt(rules, Seen(verdict, cached), edge.value, k)
      {
        ChainIsSeen(rules, verdict, cached, edge.value, k);
      }
    }
  }

  /** A rule the plain loop drops and the traced one reports. */
  lemma DroppedRule(rules: seq<Rule>, verdict: int -> bool, cached: set<int>, id: int, order: seq<Rule>)
    requires Validated(rules) && id in GraphOf(rules) && !DependencyNotCached(rules, verdict, cached, id)
    requires GoodOrder(rules, order) && ById(rules)[id] in order
    ensures ById(rules)[id] in Reported(rules, verdict, order) && ById(rules)[id] !in Reported(rules, Seen(verdict, cached), order)
  {
    var d: int := GraphOf(rules)[id].value;
    var i := ByIdOnly(rules, id);
    PassesStep(rules, Seen(verdict, cached), d);
  }

  lemma {:induction false} ResultsAreOutcomes<W(!new)>(run: Oracle<W>, rules: seq<Rule>, outcome: int -> RuleResult, cached: set<int>, order: seq<Rule>, n: nat, env: Env<W>, store: bool)
    requires Answers(run, rules, VerdictOf(outcome), cached) && Fixed(run, rules, outcome)
    requires n <= |order| && forall i :: 0 <= i < |order| ==> order[i] in rules
    ensures forall x :: x in Rest(run, order, n, env, store).results ==> x == outcome(x.ruleId)
    decreases |order| - n
  {
    if n < |order| {
      var now := Turn(run, order[n], env, store);
      ResultsAreOutcomes(run, rules, outcome, cached, order, n + 1, now.env, store);
      forall x | x in now.results
        ensures x == outcome(x.ruleId)
      {
        var i :| 0 <= i < |rules| && rules[i] == order[n];
        assert AnswersAt(run, rules, VerdictOf(outcome), cached, rules[i], env);
      }
    }
  }

  lemma SameIdsSameResults(outcome: int -> RuleResult, a: seq<RuleResult>, b: seq<RuleResult>)
    requires |a| == |b| && forall i :: 0 <= i < |a| ==> a[i].ruleId == b[i].ruleId
    requires (forall x :: x in a ==> x == outcome(x.ruleId)) && (forall x :: x in b ==> x == outcome(x.ruleId))
    ensures a == b
  {
    forall i | 0 <= i < |a|
      ensures a[i] == b[i]
    {
      assert a[i] in a && b[i] in b;
    }
  }

  /** Lists of results with equal ids belong to the same reported rules. */
  lemma SameIdsSameRules(rules: seq<Rule>, a: seq<Rule>, b: seq<Rule>)
    requires Valid(rules) && |a| == |b| && forall i :: 0 <= i < |a| ==> a[i] in rules && b[i] in rules && a[i].id == b[i].id
    ensures a == b
  {
    forall i | 0 <= i < |a|
      ensures a[i] == b[i]
    {
      InGraph(rules, a[i]);
      InGraph(rules, b[i]);
    }
  }

  /**
   When plain and traced execution part.  For fixed results and any set of rules answered from
   their caches, the two report the same results exactly if no active rule whose dependency
   chain passes depends directly on a cached rule.
   */
  lemma PlainEqualsTracedIff<W(!new)>(run: Oracle<W>, rules: seq<Rule>, levels: seq<seq<Rule>>, outcome: int -> RuleResult, cached: set<int>, world: W)
    requires Validated(rules) && Layered(GraphOf(rules), rules, levels)
    requires Answers(run, rules, VerdictOf(outcome), cached) && Fixed(run, rules, outcome)
    ensures Pass(run, Flatten(levels), Env(map[], world), false).results == Pass(run, Flatten(levels), Env(map[], world), true).results
            <==> NoCachedDependency(rules, VerdictOf(outcome), cached)
  {
    var order, verdict, start := Flatten(levels), VerdictOf(outcome), Env(map[], world);
    PassReports(run, rules, levels, verdict, cached, world, false);
    PassReports(run, rules, levels, verdict, cached, world, true);
    NothingHidden(rules, verdict, order);
    ResultsAreOutcomes(run, rules, outcome, cached, order, 0, start, false);
    ResultsAreOutcomes(run, rules, outcome, cached, order, 0, start, true);
    SameResultsIff(rules, outcome, Pass(run, order, start, false).results, Reported(rules, Seen(verdict, cached), order),
                   Pass(run, order, start, true).results, Reported(rules, verdict, order));
    if NoCachedDependency(rules, verdict, cached) {
      NothingDropped(rules, verdict, cached, order);
    } else {
      var id :| id in GraphOf(rules) && !DependencyNotCached(rules, verdict, cached, id);
      SomethingDropped(rules, levels, verdict, cached, id);
    }
  }

  /** Fixed results are equal exactly if they report the same rules. */
  lemma SameResultsIff(rules: seq<Rule>, outcome: int -> RuleResult, a: seq<RuleResult>, s: seq<Rule>, b: seq<RuleResult>, t: seq<Rule>)
    requires Valid(rules) && Closed(GraphOf(rules))
    requires forall i :: 0 <= i < |s| ==> s[i] in rules && s[i].id in GraphOf(rules)
    requires forall i :: 0 <= i < |t| ==> t[i] in rules && t[i].id in GraphOf(rules)
    requires Matches(rules, VerdictOf(outcome), a, s) && Matches(rules, VerdictOf(outcome), b, t)
    requires (forall x :: x in a ==> x == outcome(x.ruleId)) && (forall x :: x in b ==> x == outcome(x.ruleId))
    ensures a == b <==> s == t
  {
    if s == t {
      SameIdsSameResults(outcome, a, b);
    }
    if a == b {
      SameIdsSameRules(rules, s, t);
    }
  }

  lemma NothingDropped(rules: seq<Rule>, verdict: int -> bool, cached: set<int>, order: seq<Rule>)
    requires Validated(rules) && GoodOrder(rules, order) && NoCachedDependency(rules, verdict, cached)
    ensures Reported(rules, Seen(verdict, cached), order) == Reported(rules, verdict, order)
  {
    forall i | 0 <= i < |order|
      ensures ReportedNow(rules, Seen(verdict, cached), order[i]) == ReportedNow(rules, verdict, order[i])
    {
      SeenWhenNotCached(rules, verdict, cached, order[i]);
    }
    SameReported(rules, Seen(verdict, cached), verdict, order);
  }

  lemma SomethingDropped(rules: seq<Rule>, levels: seq<seq<Rule>>, verdict: int -> bool, cached: set<int>, id: int)
    requires Validated(rules) && Layered(GraphOf(rules), rules, levels) && GoodOrder(rules, Flatten(levels))
    requires id in GraphOf(rules) && !DependencyNotCached(rules, verdict, cached, id)
    ensures Reported(rules, Seen(verdict, cached), Flatten(levels)) != Reported(rules, verdict, Flatten(levels))
  {
    var i := ByIdOnly(rules, id);
    OrderIsPermutation(rules, levels);
    assert rules[i] in multiset(rules);
    assert rules[i] in multiset(Flatten(levels));
    DroppedRule(rules, verdict, cached, id, Flatten(levels));
  }

  // ----- the execution order serves dependencies first -----

  /** Where an element of the flattened levels comes from. */
  lemma {:induction false} FlattenSplit(levels: seq<seq<Rule>>, i: nat) returns (k: nat, j: nat)
    requires i < |Flatten(levels)|
    ensures k < |levels| && j < |levels[k]| && Flatten(levels)[i] == levels[k][j]
    ensures Flatten(levels)[..i] == Flatten(levels[..k]) + levels[k][..j]
  {
    if i < |levels[0]| {
      k, j := 0, i;
      assert levels[..0] == [];
    } else {
      var m := i - |levels[0]|;
      k, j := FlattenSplit(levels[1..], m);
      assert levels[..k + 1][1..] == levels[1..][..k];
      assert Flatten(levels)[..i] == levels[0] + Flatten(levels[1..])[..m];
      k := k + 1;
    }
  }

  lemma {:induction false} FlattenHas(levels: seq<seq<Rule>>, k: nat, r: Rule)
    requires k < |levels| && r in levels[k]
    ensures r in Flatten(levels)
  {
    if k > 0 {
      FlattenHas(levels[1..], k - 1, r);
    }
  }

  lemma OrderServesDependencies(rules: seq<Rule>, levels: seq<seq<Rule>>, i: nat, j: nat)
    requires Validated(rules) && Layered(GraphOf(rules), rules, levels)
    requires i < |Flatten(levels)| && j < |rules| && Flatten(levels)[i] in rules
    requires Flatten(levels)[i].dependsOn == Some(rules[j].name)
    ensures rules[j] in Flatten(levels)[..i]
  {
    var k, m := FlattenSplit(levels, i);
    DependencyIsEarlier(rules, levels, Flatten(levels)[i], rules[j], k);
    FlattenHas(levels[..k], k - 1, rules[j]);
  }

  lemma OrderMembers(rules: seq<Rule>, levels: seq<seq<Rule>>, i: nat)
    requires Validated(rules) && Layered(GraphOf(rules), rules, levels) && i < |Flatten(levels)|
    ensures Flatten(levels)[i] in rules && Flatten(levels)[i].id in GraphOf(rules)
  {
    OrderIsPermutation(rules, levels);
    assert Flatten(levels)[i] in multiset(Flatten(levels));
    InGraph(rules, Flatten(levels)[i]);
  }

  lemma OrderFacts(rules: seq<Rule>, levels: seq<seq<Rule>>)
    requires Validated(rules) && Layered(GraphOf(rules), rules, levels)
    ensures NoRepeats(Flatten(levels)) && DependenciesFirst(rules, Flatten(levels))
    ensures forall i :: 0 <= i < |Flatten(levels)| ==> Flatten(levels)[i] in rules && Flatten(levels)[i].id in GraphOf(rules)
  {
    var order := Flatten(levels);
    forall i | 0 <= i < |order|
      ensures order[i] in rules && order[i].id in GraphOf(rules)
    {
      OrderMembers(rules, levels, i);
    }
    OrderIsPermutation(rules, levels);
    DistinctIdsPermute(rules, order);
    forall i, j | 0 <= i < |order| && 0 <= j < |rules| && order[i].dependsOn == Some(rules[j].name)
      ensures rules[j] in order[..i]
    {
      OrderServesDependencies(rules, levels, i, j);
    }
  }
}
