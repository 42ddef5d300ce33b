/**
 The bridge between the execution of one rule with its children and the executions of a
 workflow: what the workflow results assume of the single executions follows from what is
 proved of them.
 */
module TreeOracle {
  import opened Rules
  import opened Results
  import opened SequentialExecution
  import opened Passing
  import RuleTree

  /** What the tree model keeps besides the context. */
  datatype Surroundings = Surroundings(log: seq<RuleTree.Event>, cache: map<(int, string), RuleResult>)

  function ToWorld(env: Env<Surroundings>): RuleTree.World
  {
    RuleTree.World(env.world.log, env.world.cache, env.context)
  }

  /** Each rule of the workflow has its tree, and no tree writes the key of another top-level rule. */
  ghost predicate TreesFit(rules: seq<Rule>, trees: Rule -> RuleTree.Tree)
  {
    && (forall i :: 0 <= i < |rules| ==> trees(rules[i]).id == rules[i].id && trees(rules[i]).name == rules[i].name && trees(rules[i]).active == rules[i].active)
    && (forall i, j :: 0 <= i < |rules| && 0 <= j < |rules| && rules[i] != rules[j] ==> !RuleTree.HasKey(trees(rules[i]), ResultKey(rules[j])))
  }

  /** The workflow's oracle: executing the rule's tree. */
  function RunTrees(f: RuleTree.Foreign, trees: Rule -> RuleTree.Tree, parameters: string): Oracle<Surroundings>
  {
    (rule, env) =>
      var d := RuleTree.Exec(f, trees(rule), parameters, ToWorld(env));
      (d.result, Env(d.world.context, Surroundings(d.world.log, d.world.cache)))
  }

  /** In the state a call would find on entering, its answer comes from the cache. */
  ghost predicate IsServed(f: RuleTree.Foreign, t: RuleTree.Tree, parameters: string, w: RuleTree.World)
  {
    && t.caching && (t.id, parameters) in w.cache
    && f.usable(t.id, w.(log := w.log + [RuleTree.Entered(t.id, |t.children|, t.hasExpression, t.hasAction)]))
  }

  /** Exactly the rules of `cached` are answered from their caches, with results of their own, and verdicts are fixed. */
  ghost predicate FixedVerdict(f: RuleTree.Foreign, t: RuleTree.Tree, parameters: string, verdict: int -> bool, cached: set<int>, rule: Rule, env: Env<Surroundings>)
  {
    var r := RuleTree.Exec(f, t, parameters, ToWorld(env)).result;
    && (IsServed(f, t, parameters, ToWorld(env)) <==> rule.id in cached)
    && (rule.id in cached ==> r.ruleId == rule.id && !r.skipped)
    && r.IsSuccess() == verdict(rule.id)
  }

  ghost predicate FixedVerdicts(f: RuleTree.Foreign, rules: seq<Rule>, trees: Rule -> RuleTree.Tree, parameters: string, verdict: int -> bool, cached: set<int>)
  {
    forall i, env :: 0 <= i < |rules| && rules[i].active ==> FixedVerdict(f, trees(rules[i]), parameters, verdict, cached, rules[i], env)
  }

  lemma TreeAnswers(f: RuleTree.Foreign, rules: seq<Rule>, trees: Rule -> RuleTree.Tree, parameters: string, verdict: int -> bool, cached: set<int>, i: nat, env: Env<Surroundings>)
    requires TreesFit(rules, trees) && i < |rules| && rules[i].active
    requires FixedVerdict(f, trees(rules[i]), parameters, verdict, cached, rules[i], env)
    ensures AnswersAt(RunTrees(f, trees, parameters), rules, verdict, cached, rules[i], env)
    ensures rules[i].id !in cached ==> RecordsAt(RunTrees(f, trees, parameters), rules[i], env)
  {
    var t := trees(rules[i]);
    var worlds, evaluated := RuleTree.SucceedsIff(f, t, parameters, ToWorld(env));
    RuleTree.OtherKeysKept(f, t, parameters, ToWorld(env));
    var after := RuleTree.Exec(f, t, parameters, ToWorld(env)).world;
    RuleTree.OwnIdKept(f, t, parameters, ToWorld(env));
    forall j | 0 <= j < |rules| && rules[j] != rules[i]
      ensures Succeeded(after.context, rules[j]) == Succeeded(env.context, rules[j])
    {
      assert RuleTree.SameAt(env.context, after.context, ResultKey(rules[j]));
    }
  }

  /** So executing trees answers as the workflow results assume, whichever rules are served from their caches. */
  lemma TreesAnswer(f: RuleTree.Foreign, rules: seq<Rule>, trees: Rule -> RuleTree.Tree, parameters: string, verdict: int -> bool, cached: set<int>)
    requires TreesFit(rules, trees) && FixedVerdicts(f, rules, trees, parameters, verdict, cached)
    ensures Answers(RunTrees(f, trees, parameters), rules, verdict, cached)
  {
    forall i, env | 0 <= i < |rules| && rules[i].active
      ensures AnswersAt(RunTrees(f, trees, parameters), rules, verdict, cached, rules[i], env)
    {
      assert FixedVerdict(f, trees(rules[i]), parameters, verdict, cached, rules[i], env);
      TreeAnswers(f, rules, trees, parameters, verdict, cached, i, env);
    }
  }

  /** With caching off nothing is served, every execution is recorded, and the oracle is steady. */
  lemma UncachedTreesAreSteady(f: RuleTree.Foreign, rules: seq<Rule>, trees: Rule -> RuleTree.Tree, parameters: string, verdict: int -> bool)
    requires TreesFit(rules, trees) && forall i :: 0 <= i < |rules| ==> !trees(rules[i]).caching
    requires forall i, env :: 0 <= i < |rules| && rules[i].active ==>
      RuleTree.Exec(f, trees(rules[i]), parameters, ToWorld(env)).result.IsSuccess() == verdict(rules[i].id)
    ensures Steady(RunTrees(f, trees, parameters), rules, verdict) && Records(RunTrees(f, trees, parameters), rules)
  {
    forall i, env | 0 <= i < |rules| && rules[i].active
      ensures AnswersAt(RunTrees(f, trees, parameters), rules, verdict, {}, rules[i], env)
      ensures RecordsAt(RunTrees(f, trees, parameters), rules[i], env)
    {
      assert FixedVerdict(f, trees(rules[i]), parameters, verdict, {}, rules[i], env);
      TreeAnswers(f, rules, trees, parameters, verdict, {}, i, env);
    }
  }
}
