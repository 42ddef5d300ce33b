/**
 The one-at-a-time forms of executing a workflow: plain, traced and streaming.

 A rule's own execution is an oracle that may read and write the shared context and any
 other state (`world`: the Lua engine, the caches, the clock).
 */
module SequentialExecution {
  import opened Common
  import opened Text
  import opened Rules
  import opened Results

  type Context = map<string, RuleResult>

  datatype Env<W> = Env(context: Context, world: W)

  datatype Report<W> = Report(results: seq<RuleResult>, env: Env<W>)

  type Oracle<!W> = (Rule, Env<W>) -> (RuleResult, Env<W>)

  function ResultKey(rule: Rule): string
  {
    KeyOf(rule.name, rule.id)
  }

  /**
   A named rule's result is found under its name.  Two rules with different ids, and different
   names unless unnamed, share a key exactly if one is unnamed and the other is named "#" and
   the first one's id.
   */
  lemma KeysClashIff(a: Rule, b: Rule)
    requires a.id != b.id && (a.name == b.name ==> a.name == "")
    ensures a.name != "" ==> ResultKey(a) == a.name
    ensures ResultKey(a) == ResultKey(b) <==>
            (a.name == "" && b.name == "#" + Decimal(a.id)) || (b.name == "" && a.name == "#" + Decimal(b.id))
  {
    if a.name == "" && b.name == "" && ResultKey(a) == ResultKey(b) {
      assert Decimal(a.id) == ("#" + Decimal(a.id))[1..] && Decimal(b.id) == ("#" + Decimal(b.id))[1..];
      DecimalInjective(a.id, b.id);
    }
  }

  predicate DependencyMet(rule: Rule, context: Context)
  {
    rule.dependsOn.Some? ==> rule.dependsOn.value in context && context[rule.dependsOn.value].IsSuccess()
  }

  /** One rule in its turn; `store` tells whether the loop itself also records the result. */
  function Turn<W>(run: Oracle<W>, rule: Rule, env: Env<W>, store: bool): Report<W>
  {
    if !rule.active || !DependencyMet(rule, env.context) then Report([], env)
    else
      var (result, after) := run(rule, env);
      Report(if result.skipped then [] else [result],
             if store then after.(context := after.context[ResultKey(rule) := result]) else after)
  }

  /** What follows from position `i` of the order on: the reported results and the final environment. */
  function Rest<W>(run: Oracle<W>, order: seq<Rule>, i: nat, env: Env<W>, store: bool): Report<W>
    requires i <= |order|
    decreases |order| - i
  {
    if i == |order| then Report([], env)
    else
      var now := Turn(run, order[i], env, store);
      var later := Rest(run, order, i + 1, now.env, store);
      Report(now.results + later.results, later.env)
  }

  /** A whole pass over an execution order. */
  function Pass<W>(run: Oracle<W>, order: seq<Rule>, env: Env<W>, store: bool): Report<W>
  {
    Rest(run, order, 0, env, store)
  }

  /** The loop body: skip an inactive rule or one whose dependency failed, otherwise run it and report it. */
  method TakeTurn<W>(run: Oracle<W>, rule: Rule, env: Env<W>, store: bool) returns (reported: seq<RuleResult>, after: Env<W>)
    ensures Report(reported, after) == Turn(run, rule, env, store)
  {
    reported, after := [], env;
    if !rule.active {
      return;
    }
    if rule.dependsOn.Some? {
      if rule.dependsOn.value !in env.context || !env.context[rule.dependsOn.value].IsSuccess() {
        return;
      }
    }
    var (result, left) := run(rule, env);
    after := left;
    if store {
      after := after.(context := after.context[ResultKey(rule) := result]);
    }
    if !result.skipped {
      reported := [result];
    }
  }

  method Execute<W>(run: Oracle<W>, order: seq<Rule>, start: Env<W>)
    returns (results: seq<RuleResult>, env: Env<W>, ghost envs: seq<Env<W>>)
    ensures Report(results, env) == Pass(run, order, start, false)
    ensures IsTrace(run, order, start, false, envs, results, env)
  {
    results, env := [], start;
    for i := 0 to |order|
      invariant results + Rest(run, order, i, env, false).results == Pass(run, order, start, false).results
      invariant Rest(run, order, i, env, false).env == Pass(run, order, start, false).env
    {
      var reported;
      reported, env := TakeTurn(run, order[i], env, false);
      Regroup(results, reported, Rest(run, order, i + 1, env, false).results);
      results := results + reported;
    }
    envs := PassTrace(run, order, start, false);
  }

  method ExecuteWithTrace<W>(run: Oracle<W>, order: seq<Rule>, start: Env<W>)
    returns (results: seq<RuleResult>, env: Env<W>, ghost envs: seq<Env<W>>)
    ensures Report(results, env) == Pass(run, order, start, true)
    ensures IsTrace(run, order, start, true, envs, results, env)
  {
    results, env := [], start;
    for i := 0 to |order|
      invariant results + Rest(run, order, i, env, true).results == Pass(run, order, start, true).results
      invariant Rest(run, order, i, env, true).env == Pass(run, order, start, true).env
    {
      var reported;
      reported, env := TakeTurn(run, order[i], env, true);
      Regroup(results, reported, Rest(run, order, i + 1, env, true).results);
      results := results + reported;
    }
    envs := PassTrace(run, order, start, true);
  }

  /** The generator behind executeStreaming: it owns its order, index and environment. */
  class StreamingResult<W> {
    const order: seq<Rule>
    const run: Oracle<W>
    var index: nat
    var env: Env<W>

    ghost predicate Valid()
      reads this
    {
      index <= |order|
    }

    /** What draining the generator from here on yields. */
    ghost function Remaining(): Report<W>
      requires Valid()
      reads this
    {
      Rest(run, order, index, env, true)
    }

    constructor (run: Oracle<W>, order: seq<Rule>, env: Env<W>)
      ensures Valid() && this.run == run && this.order == order && Remaining() == Pass(run, order, env, true)
    {
      this.run, this.order, this.index, this.env := run, order, 0, env;
    }

    method Next() returns (r: Option<RuleResult>)
      requires Valid()
      modifies this
      ensures Valid()
      ensures index >= old(index) && (r.Some? ==> index > old(index))
      ensures r.Some? ==> old(Remaining().results) == [r.value] + Remaining().results && old(Remaining().env) == Remaining().env
      ensures r.None? ==> old(Remaining()) == Report([], env)
    {
      while index < |order|
        invariant Valid() && index >= old(index)
        invariant Remaining() == old(Remaining())
        decreases |order| - index
      {
        var reported;
        reported, env := TakeTurn(run, order[index], env, true);
        index := index + 1;
        assert old(Remaining()) == Report(reported + Remaining().results, Remaining().env);
        if reported != [] {
          assert reported == [reported[0]];
          return Some(reported[0]);
        }
        assert reported + Remaining().results == Remaining().results;
      }
      return None;
    }

    /** Iterating to the end yields the same results and context as the traced form. */
    method Drain() returns (results: seq<RuleResult>)
      requires Valid()
      modifies this
      ensures Valid() && Report(results, env) == old(Remaining())
    {
      results := [];
      var r := Next();
      while r.Some?
        invariant Valid()
        invariant r.Some? ==> results + ([r.value] + Remaining().results) == old(Remaining().results)
        invariant r.Some? ==> Remaining().env == old(Remaining().env)
        invariant r.None? ==> Report(results, env) == old(Remaining())
        decreases |order| - index, if r.Some? then 1 else 0
      {
        Regroup(results, [r.value], Remaining().results);
        results := results + [r.value];
        assert results + Remaining().results == old(Remaining().results);
        r := Next();
      }
    }
  }

  // ----- what a pass does, for any oracle -----

  /** The rule is active and what it depends on has a successful result on record. */
  predicate Runs(rule: Rule, context: Context)
  {
    rule.active && (rule.dependsOn.Some? ==> rule.dependsOn.value in context && context[rule.dependsOn.value].IsSuccess())
  }

  /** A rule that runs hands on what its execution left, with its result on record if the loop records; any other rule changes nothing. */
  ghost predicate HandsOn<W>(run: Oracle<W>, rule: Rule, before: Env<W>, after: Env<W>, store: bool)
  {
    if !Runs(rule, before.context) then after == before
    else
      var left := run(rule, before).1;
      && after.world == left.world
      && after.context == if store then left.context[ResultKey(rule) := run(rule, before).0] else left.context
  }

  /** The rule runs and its result is not marked as skipped. */
  ghost predicate Reports<W>(run: Oracle<W>, rule: Rule, env: Env<W>)
  {
    Runs(rule, env.context) && !run(rule, env).0.skipped
  }

  /** The answers of the first `n` rules, each asked in its own environment: of those that ran and were not skipped, in order. */
  ghost function Answered<W>(run: Oracle<W>, order: seq<Rule>, envs: seq<Env<W>>, n: nat): seq<RuleResult>
    requires n <= |order| && n <= |envs|
  {
    if n == 0 then []
    else Answered(run, order, envs, n - 1) + if Reports(run, order[n - 1], envs[n - 1]) then [run(order[n - 1], envs[n - 1]).0] else []
  }

  lemma {:induction false} AnsweredAlike<W>(run: Oracle<W>, order: seq<Rule>, envs: seq<Env<W>>, more: seq<Env<W>>, n: nat)
    requires n <= |order| && n <= |envs| <= |more| && more[..|envs|] == envs
    ensures Answered(run, order, more, n) == Answered(run, order, envs, n)
  {
    if n > 0 {
      AnsweredAlike(run, order, envs, more, n - 1);
      assert more[n - 1] == more[..|envs|][n - 1];
    }
  }

  lemma OneMoreAnswer<W>(run: Oracle<W>, order: seq<Rule>, envs: seq<Env<W>>, i: nat, store: bool)
    requires i < |order| && |envs| == i + 1
    ensures var now := Turn(run, order[i], envs[i], store);
            && HandsOn(run, order[i], envs[i], now.env, store)
            && Answered(run, order, envs + [now.env], i + 1) == Answered(run, order, envs, i) + now.results
            && Rest(run, order, i, envs[i], store).results == now.results + Rest(run, order, i + 1, now.env, store).results
  {
    var more := envs + [Turn(run, order[i], envs[i], store).env];
    AnsweredAlike(run, order, envs, more, i);
    assert more[i] == envs[i];
  }

  /** From `start` through `envs` to `end`, each rule handing on to the next, with the answers as results. */
  ghost predicate IsTrace<W>(run: Oracle<W>, order: seq<Rule>, start: Env<W>, store: bool, envs: seq<Env<W>>, results: seq<RuleResult>, end: Env<W>)
  {
    && |envs| == |order| + 1 && envs[0] == start && envs[|order|] == end
    && (forall i :: 0 <= i < |order| ==> HandsOn(run, order[i], envs[i], envs[i + 1], store))
    && results == Answered(run, order, envs, |order|)
  }

  /**
   The trace of a pass, for any oracle: `envs` are the environments before each rule and at the
   end.  Every rule sees what the rules before it left, and the results are the answers of the
   rules that ran and were not skipped, in order.
   */
  lemma PassTrace<W>(run: Oracle<W>, order: seq<Rule>, start: Env<W>, store: bool) returns (envs: seq<Env<W>>)
    ensures IsTrace(run, order, start, store, envs, Pass(run, order, start, store).results, Pass(run, order, start, store).env)
  {
    envs := [start];
    for i := 0 to |order|
      invariant |envs| == i + 1 && envs[0] == start
      invariant forall k :: 0 <= k < i ==> HandsOn(run, order[k], envs[k], envs[k + 1], store)
      invariant Rest(run, order, i, envs[i], store).env == Pass(run, order, start, store).env
      invariant Answered(run, order, envs, i) + Rest(run, order, i, envs[i], store).results == Pass(run, order, start, store).results
    {
      var now := Turn(run, order[i], envs[i], store);
      OneMoreAnswer(run, order, envs, i, store);
      Regroup(Answered(run, order, envs, i), now.results, Rest(run, order, i + 1, now.env, store).results);
      envs := envs + [now.env];
    }
  }

  // ----- plain execution agrees with the other two when nothing is served from a cache -----

  /** Every rule of the order that runs leaves its result in the context, as all executions do except a cache hit. */
  ghost predicate Records<W(!new)>(run: Oracle<W>, order: seq<Rule>)
  {
    forall i, env: Env<W> :: 0 <= i < |order| && order[i].active ==> RecordsAt(run, order[i], env)
  }

  ghost predicate RecordsAt<W>(run: Oracle<W>, rule: Rule, env: Env<W>)
  {
    ResultKey(rule) in run(rule, env).1.context && run(rule, env).1.context[ResultKey(rule)] == run(rule, env).0
  }

  lemma PlainAgreesWithTraced<W(!new)>(run: Oracle<W>, order: seq<Rule>, env: Env<W>)
    requires Records(run, order)
    ensures Pass(run, order, env, false) == Pass(run, order, env, true)
  {
    RestAgrees(run, order, 0, env);
  }

  lemma {:induction false} RestAgrees<W(!new)>(run: Oracle<W>, order: seq<Rule>, i: nat, env: Env<W>)
    requires Records(run, order) && i <= |order|
    ensures Rest(run, order, i, env, false) == Rest(run, order, i, env, true)
    decreases |order| - i
  {
    if i < |order| {
      var rule := order[i];
      if rule.active && DependencyMet(rule, env.context) {
        var (result, after) := run(rule, env);
        assert RecordsAt(run, order[i], env);
        assert after.context[ResultKey(rule) := result] == after.context;
        assert after.(context := after.context[ResultKey(rule) := result]) == after;
      }
      assert Turn(run, rule, env, false) == Turn(run, rule, env, true);
      RestAgrees(run, order, i + 1, Turn(run, rule, env, false).env);
    }
  }

  function CachedSuccess(rule: Rule): RuleResult
  {
    RuleResult(rule.name, rule.id, true, false, None, [])
  }

  /** Every rule is answered from its cache: a stored success comes back and the context stays as it was. */
  function AlwaysCached(rule: Rule, env: Env<int>): (RuleResult, Env<int>)
  {
    (CachedSuccess(rule), env)
  }

  /** A cache hit is where they part: the result is reported but not recorded, so plain execution drops the dependent rule. */
  lemma CacheHitSeparatesThem(a: Rule, b: Rule)
    requires a.active && b.active && a.dependsOn.None? && a.name != "" && b.dependsOn == Some(a.name)
    ensures Pass(AlwaysCached, [a, b], Env(map[], 0), false).results == [CachedSuccess(a)]
    ensures Pass(AlwaysCached, [a, b], Env(map[], 0), true).results == [CachedSuccess(a), CachedSuccess(b)]
  {
    TwoTurns(a, b, false);
    TwoTurns(a, b, true);
  }

  lemma TwoTurns(a: Rule, b: Rule, store: bool)
    requires a.active && b.active && a.dependsOn.None? && a.name != "" && b.dependsOn == Some(a.name)
    ensures Pass(AlwaysCached, [a, b], Env(map[], 0), store).results ==
            if store then [CachedSuccess(a), CachedSuccess(b)] else [CachedSuccess(a)]
  {
    var run: Oracle<int> := AlwaysCached;
    var start: Env<int> := Env(map[], 0);
    var order := [a, b];
    var after := Turn(run, a, start, store).env;
    assert Turn(run, a, start, store).results == [CachedSuccess(a)];
    assert Turn(run, b, after, store).results == if store then [CachedSuccess(b)] else [];
    var end := Turn(run, b, after, store).env;
    assert Rest(run, order, 2, end, store).results == [];
    assert Rest(run, order, 1, after, store).results == Turn(run, b, after, store).results;
    assert Rest(run, order, 0, start, store).results == Turn(run, a, start, store).results + Turn(run, b, after, store).results;
  }
}
