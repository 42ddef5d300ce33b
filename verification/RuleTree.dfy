/** Executing a rule with nested children: children first, then the expression, then the action, with a result cache in front. */
module RuleTree {
  import opened Common
  import opened Results

  // Everything foreign is an oracle that may depend on the whole state: whether a cached entry
  // is still usable, whether the rate limiter and the parameter validation let the rule start,
  // what the expression evaluates to and whether the action throws.
  //
  // A log records every execution as it enters, finds its expression true, acts and returns.

  datatype Tree = Tree(
    id: int,
    name: string,
    active: bool,
    caching: bool,
    hasExpression: bool,
    hasAction: bool,
    children: seq<Tree>)

  datatype Event =
    | Entered(id: int, children: nat, hasExpression: bool, hasAction: bool)
    | ServedFromCache(id: int)
    | Blocked(id: int)          // inactive, refused, expression false, or an exception
    | ExpressionHeld(id: int)
    | Acted(id: int)
    | Returned(id: int, ok: bool)

  /** `parameters` is the text of the call's parameters, which keys the cache together with the rule. */
  datatype World = World(
    log: seq<Event>,
    cache: map<(int, string), RuleResult>,
    context: map<string, RuleResult>)

  datatype Answer = Holds | Fails | Throws(message: string)

  datatype Foreign = Foreign(
    usable: (int, World) -> bool,
    admits: (int, World) -> Option<string>,
    evaluates: (int, World) -> Answer,
    acts: (int, World) -> Option<string>)

  /** A result that claims success exactly when it and everything below it succeeded. */
  ghost predicate Honest(r: RuleResult)
  {
    r.IsSuccess() <==> r.IsFullySuccessful()
  }

  ghost predicate HonestCache(cache: map<(int, string), RuleResult>)
  {
    forall k :: k in cache ==> Honest(cache[k])
  }

  // ----- a monitor for the order of events -----

  /** An execution in progress: what it consists of, which children returned, and what it did itself. */
  datatype Frame = Frame(
    id: int,
    children: nat,
    hasExpression: bool,
    hasAction: bool,
    returned: nat,
    allOk: bool,
    held: bool,
    acted: bool,
    served: bool,
    blocked: bool)
  {
    /** All children have returned successfully and the expression, if any, was found true. */
    predicate ReadyToAct()
    {
      returned == children && allOk && (hasExpression ==> held)
    }

    /** The outcome a return may claim: success after everything was done, failure for a reason. */
    predicate MayReturn(ok: bool)
    {
      served || if ok then ReadyToAct() && (hasAction ==> acted) && !blocked else blocked || (returned == children && !allOk)
    }
  }

  /** An action is legal only when its execution is ready for it, and a return only with a justified outcome. */
  function Accept(stack: seq<Frame>, ev: Event): Option<seq<Frame>>
  {
    match ev
    case Entered(id, n, hasExpression, hasAction) =>
      Some([Frame(id, n, hasExpression, hasAction, 0, true, false, false, false, false)] + stack)
    case ServedFromCache(id) =>
      if stack != [] && stack[0].id == id then Some([stack[0].(served := true)] + stack[1..]) else None
    case Blocked(id) =>
      if stack != [] && stack[0].id == id then Some([stack[0].(blocked := true)] + stack[1..]) else None
    case ExpressionHeld(id) =>
      if stack != [] && stack[0].id == id then Some([stack[0].(held := true)] + stack[1..]) else None
    case Acted(id) =>
      if stack != [] && stack[0].id == id && stack[0].ReadyToAct() then Some([stack[0].(acted := true)] + stack[1..]) else None
    case Returned(id, ok) =>
      if stack != [] && stack[0].id == id && stack[0].MayReturn(ok) then Some(Noted(stack[1..], ok)) else None
  }

  /** A child's return is noted in the frame below it. */
  function Noted(stack: seq<Frame>, ok: bool): seq<Frame>
  {
    if stack == [] then [] else [stack[0].(returned := stack[0].returned + 1, allOk := stack[0].allOk && ok)] + stack[1..]
  }

  function AcceptAll(stack: seq<Frame>, log: seq<Event>): Option<seq<Frame>>
  {
    if log == [] then Some(stack)
    else
      var before := AcceptAll(stack, log[..|log| - 1]);
      if before.None? then None else Accept(before.value, log[|log| - 1])
  }

  /** From `w` to `w'` the log grew by events that take the monitor from `stack` to `stack'`. */
  ghost predicate Takes(w: World, w': World, stack: seq<Frame>, stack': seq<Frame>)
  {
    w.log <= w'.log && AcceptAll(stack, w'.log[|w.log|..]) == Some(stack')
  }

  lemma TakesNothing(w: World, w': World, stack: seq<Frame>)
    requires w'.log == w.log
    ensures Takes(w, w', stack, stack)
  {
    assert w'.log[|w.log|..] == [];
  }

  lemma TakesOne(w: World, w': World, w'': World, s: seq<Frame>, s': seq<Frame>, ev: Event)
    requires Takes(w, w', s, s') && w''.log == w'.log + [ev] && Accept(s', ev).Some?
    ensures Takes(w, w'', s, Accept(s', ev).value)
  {
    var d, d' := w'.log[|w.log|..], w''.log[|w.log|..];
    assert d' == d + [ev] && d'[..|d' | - 1] == d;
  }

  lemma {:induction false} AcceptAppend(stack: seq<Frame>, a: seq<Event>, b: seq<Event>)
    requires AcceptAll(stack, a).Some?
    ensures AcceptAll(stack, a + b) == AcceptAll(AcceptAll(stack, a).value, b)
  {
    if b == [] {
      assert a + b == a;
    } else {
      var n := |b| - 1;
      AcceptAppend(stack, a, b[..n]);
      assert (a + b)[..|a + b| - 1] == a + b[..n];
    }
  }

  lemma TakesBoth(w: World, w': World, w'': World, s: seq<Frame>, s': seq<Frame>, s'': seq<Frame>)
    requires Takes(w, w', s, s') && Takes(w', w'', s', s'')
    ensures Takes(w, w'', s, s'')
  {
    var a, b := w'.log[|w.log|..], w''.log[|w'.log|..];
    AcceptAppend(s, a, b);
    assert w''.log[|w.log|..] == a + b;
  }

  // ----- execution -----

  function Log(w: World, ev: Event): World
  {
    w.(log := w.log + [ev])
  }

  /** An event that only touches the frame on top. */
  lemma TakesOnTop(w: World, w': World, w'': World, s: seq<Frame>, top: Frame, stack: seq<Frame>, ev: Event, top': Frame)
    requires Takes(w, w', s, [top] + stack) && w''.log == w'.log + [ev]
    requires (ev.ServedFromCache? && top' == top.(served := true)) || (ev.Blocked? && top' == top.(blocked := true)) ||
             (ev.ExpressionHeld? && top' == top.(held := true)) || (ev.Acted? && top.ReadyToAct() && top' == top.(acted := true))
    requires ev.id == top.id
    ensures Takes(w, w'', s, [top'] + stack)
  {
    TakesOne(w, w', w'', s, [top] + stack, ev);
    assert ([top] + stack)[1..] == stack;
  }

  function Recorded(w: World, t: Tree, parameters: string, r: RuleResult): World
  {
    w.(context := w.context[KeyOf(t.name, t.id) := r],
       cache := if t.caching then w.cache[(t.id, parameters) := r] else w.cache)
  }

  function Failed(r: RuleResult, message: string): RuleResult
  {
    r.(success := false, exception := Some(message))
  }

  /** After `n` children, all of them successful so far or not. */
  function Progress(t: Tree, n: nat, ok: bool): Frame
  {
    Frame(t.id, |t.children|, t.hasExpression, t.hasAction, n, ok, false, false, false, false)
  }

  predicate AllSucceeded(results: seq<RuleResult>)
  {
    forall i :: 0 <= i < |results| ==> results[i].IsSuccess()
  }

  // ----- the outcome of a call, as a function of the oracles and the state before it -----

  datatype Done = Done(result: RuleResult, world: World)

  datatype Family = Family(results: seq<RuleResult>, world: World)

  function Exec(f: Foreign, t: Tree, parameters: string, w: World): Done
    decreases t, 3
  {
    var d := Body(f, t, parameters, Log(w, Entered(t.id, |t.children|, t.hasExpression, t.hasAction)));
    Done(d.result, Log(d.world, Returned(t.id, d.result.IsSuccess())))
  }

  /** Between entering and returning. */
  function Body(f: Foreign, t: Tree, parameters: string, w: World): Done
    decreases t, 2
  {
    var key := (t.id, parameters);
    if t.caching && key in w.cache && f.usable(t.id, w) then Done(w.cache[key], Log(w, ServedFromCache(t.id)))
    else
      var u := if t.caching && key in w.cache then w.(cache := w.cache - {key}) else w;
      if !t.active then Done(Unset(t).(skipped := true), Log(u, Blocked(t.id)))
      else
        var refused := f.admits(t.id, u);
        if refused.Some? then
          var r := Failed(Unset(t), refused.value);
          Done(r, Log(Recorded(u, t, parameters, r), Blocked(t.id)))
        else
          AfterChildren(f, t, parameters, Children(f, t, parameters, |t.children|, u))
  }

  function Unset(t: Tree): RuleResult
  {
    RuleResult(t.name, t.id, false, false, None, [])
  }

  /** The first `n` children, one after another. */
  function Children(f: Foreign, t: Tree, parameters: string, n: nat, w: World): (r: Family)
    requires n <= |t.children|
    ensures |r.results| == n
    decreases t, 0, n
  {
    if n == 0 then Family([], w)
    else
      var before := Children(f, t, parameters, n - 1, w);
      var d := Exec(f, t.children[n - 1], parameters, before.world);
      Family(before.results + [d.result], d.world)
  }

  /** The parent records its children's results under their keys, in order. */
  function StoreResults(t: Tree, results: seq<RuleResult>, n: nat, context: map<string, RuleResult>): map<string, RuleResult>
    requires n <= |results| == |t.children|
  {
    if n == 0 then context
    else StoreResults(t, results, n - 1, context)[KeyOf(t.children[n - 1].name, t.children[n - 1].id) := results[n - 1]]
  }

  function FirstFailure(results: seq<RuleResult>): Option<RuleResult>
  {
    if results == [] then None else if !results[0].IsSuccess() then Some(results[0]) else FirstFailure(results[1..])
  }

  lemma {:induction false} FirstFailureIs(results: seq<RuleResult>, i: nat)
    requires i < |results| && !results[i].IsSuccess() && forall j :: 0 <= j < i ==> results[j].IsSuccess()
    ensures FirstFailure(results) == Some(results[i])
  {
    if i > 0 {
      FirstFailureIs(results[1..], i - 1);
    }
  }

  lemma {:induction false} NoFailure(results: seq<RuleResult>)
    ensures FirstFailure(results) == None <==> AllSucceeded(results)
  {
    if results != [] {
      NoFailure(results[1..]);
      assert results == [results[0]] + results[1..];
    }
  }

  function AfterChildren(f: Foreign, t: Tree, parameters: string, kids: Family): Done
    requires |kids.results| == |t.children|
  {
    var v := kids.world.(context := StoreResults(t, kids.results, |t.children|, kids.world.context));
    var r := Unset(t).(childResults := kids.results);
    var failure := FirstFailure(kids.results);
    if failure.Some? then
      var failed := Failed(r, "Child rule " + failure.value.ruleName + " failed");
      Done(failed, Recorded(v, t, parameters, failed))
    else Own(f, t, parameters, v, r)
  }

  /** The world in which the action is asked for. */
  function Reached(t: Tree, w: World): World
  {
    if t.hasExpression then Log(w, ExpressionHeld(t.id)) else w
  }

  function Own(f: Foreign, t: Tree, parameters: string, w: World, base: RuleResult): Done
  {
    var answer := if t.hasExpression then f.evaluates(t.id, w) else Holds;
    if !answer.Holds? then
      var r := Failed(base, if answer.Throws? then answer.message else "Expression evaluated to false");
      Done(r, Log(Recorded(w, t, parameters, r), Blocked(t.id)))
    else
      var u := Reached(t, w);
      if t.hasAction then
        var v := Log(u, Acted(t.id));
        var thrown := f.acts(t.id, u);
        if thrown.Some? then
          var r := Failed(base, thrown.value);
          Done(r, Log(Recorded(v, t, parameters, r), Blocked(t.id)))
        else
          var r := base.(success := true);
          Done(r, Recorded(v, t, parameters, r))
      else
        var r := base.(success := true);
        Done(r, Recorded(u, t, parameters, r))
  }

  // ----- the code -----

  /** A call from beginning to end. */
  method Execute(f: Foreign, t: Tree, parameters: string, w: World) returns (r: RuleResult, after: World)
    ensures Done(r, after) == Exec(f, t, parameters, w)
    decreases t, 3
  {
    r, after := Run(f, t, parameters, Log(w, Entered(t.id, |t.children|, t.hasExpression, t.hasAction)));
    after := Log(after, Returned(t.id, r.IsSuccess()));
  }

  method Run(f: Foreign, t: Tree, parameters: string, w: World) returns (r: RuleResult, after: World)
    ensures Done(r, after) == Body(f, t, parameters, w)
    decreases t, 2
  {
    after := w;
    if t.caching && (t.id, parameters) in w.cache {
      if f.usable(t.id, w) {
        return w.cache[(t.id, parameters)], Log(w, ServedFromCache(t.id));
      }
      after := w.(cache := w.cache - {(t.id, parameters)});
    }
    r := RuleResult(t.name, t.id, false, false, None, []);
    if !t.active {
      return r.(skipped := true), Log(after, Blocked(t.id));
    }
    var refused := f.admits(t.id, after);
    if refused.Some? {
      r := Failed(r, refused.value);
      return r, Log(Recorded(after, t, parameters, r), Blocked(t.id));
    }
    var results;
    results, after := RunChildren(f, t, parameters, after);
    r := r.(childResults := results);
    for i := 0 to |results|
      invariant forall j :: 0 <= j < i ==> results[j].IsSuccess()
    {
      if !results[i].IsSuccess() {
        FirstFailureIs(results, i);
        r := Failed(r, "Child rule " + results[i].ruleName + " failed");
        return r, Recorded(after, t, parameters, r);
      }
    }
    NoFailure(results);
    r, after := RunOwn(f, t, parameters, after, r);
  }

  /** Children in order, each then recorded in the context under its own key. */
  method RunChildren(f: Foreign, t: Tree, parameters: string, start: World) returns (results: seq<RuleResult>, after: World)
    ensures var kids := Children(f, t, parameters, |t.children|, start);
            results == kids.results && after == kids.world.(context := StoreResults(t, results, |t.children|, kids.world.context))
    decreases t, 1
  {
    results, after := [], start;
    for n := 0 to |t.children|
      invariant Family(results, after) == Children(f, t, parameters, n, start)
    {
      var child;
      child, after := Execute(f, t.children[n], parameters, after);
      results := results + [child];
    }
    ghost var left := after;
    for n := 0 to |results|
      invariant after == left.(context := StoreResults(t, results, n, left.context))
    {
      after := after.(context := after.context[KeyOf(t.children[n].name, t.children[n].id) := results[n]]);
    }
  }

  /** The expression and the action, once all children have succeeded. */
  method RunOwn(f: Foreign, t: Tree, parameters: string, start: World, base: RuleResult) returns (r: RuleResult, after: World)
    ensures Done(r, after) == Own(f, t, parameters, start, base)
  {
    r, after := base, start;
    if t.hasExpression {
      var answer := f.evaluates(t.id, after);
      if !answer.Holds? {
        r := Failed(r, if answer.Throws? then answer.message else "Expression evaluated to false");
        return r, Log(Recorded(after, t, parameters, r), Blocked(t.id));
      }
      after := Log(after, ExpressionHeld(t.id));
    }
    if t.hasAction {
      var thrown := f.acts(t.id, after);
      after := Log(after, Acted(t.id));
      if thrown.Some? {
        r := Failed(r, thrown.value);
        return r, Log(Recorded(after, t, parameters, r), Blocked(t.id));
      }
    }
    r := r.(success := true);
    after := Recorded(after, t, parameters, r);
  }

  // ----- success, from what the oracles said -----

  function ChildKey(t: Tree, i: nat): string
    requires i < |t.children|
  {
    KeyOf(t.children[i].name, t.children[i].id)
  }

  /** The last of the first `n` children whose result goes under this key. */
  ghost function LastUnder(t: Tree, n: nat, key: string): (r: Option<nat>)
    requires n <= |t.children|
    ensures r.Some? ==> r.value < n && ChildKey(t, r.value) == key && forall j :: r.value < j < n ==> ChildKey(t, j) != key
    ensures r.None? ==> forall j :: 0 <= j < n ==> ChildKey(t, j) != key
  {
    if n == 0 then None else if ChildKey(t, n - 1) == key then Some(n - 1) else LastUnder(t, n - 1, key)
  }

  /** What a parent's expression sees under a key: the result of the last child with that key, and otherwise what was there before. */
  ghost predicate ShowsAt(t: Tree, results: seq<RuleResult>, before: map<string, RuleResult>, after: map<string, RuleResult>, n: nat, key: string)
    requires n <= |results| == |t.children|
  {
    match LastUnder(t, n, key)
    case None => SameAt(before, after, key)
    case Some(i) => key in after && after[key] == results[i]
  }

  ghost predicate ShowsChildren(t: Tree, results: seq<RuleResult>, before: map<string, RuleResult>, after: map<string, RuleResult>, n: nat)
    requires n <= |results| == |t.children|
  {
    forall key :: ShowsAt(t, results, before, after, n, key)
  }

  lemma {:induction false} StoringShowsAt(t: Tree, results: seq<RuleResult>, n: nat, context: map<string, RuleResult>, key: string)
    requires n <= |results| == |t.children|
    ensures ShowsAt(t, results, context, StoreResults(t, results, n, context), n, key)
  {
    if n > 0 {
      StoringShowsAt(t, results, n - 1, context, key);
    }
  }

  lemma StoringShows(t: Tree, results: seq<RuleResult>, n: nat, context: map<string, RuleResult>)
    requires n <= |results| == |t.children|
    ensures ShowsChildren(t, results, context, StoreResults(t, results, n, context), n)
  {
    forall key
      ensures ShowsAt(t, results, context, StoreResults(t, results, n, context), n, key)
    {
      StoringShowsAt(t, results, n, context, key);
    }
  }

  /** The children ran one after another, each in the world the one before it left. */
  ghost predicate InTurn(f: Foreign, t: Tree, parameters: string, worlds: seq<World>, results: seq<RuleResult>)
  {
    && |worlds| == |t.children| + 1 && |results| == |t.children|
    && forall i :: 0 <= i < |t.children| ==> Exec(f, t.children[i], parameters, worlds[i]) == Done(results[i], worlds[i + 1])
  }

  lemma {:induction false} ChildrenInTurn(f: Foreign, t: Tree, parameters: string, n: nat, w: World) returns (worlds: seq<World>)
    requires n <= |t.children|
    ensures var kids := Children(f, t, parameters, n, w);
            && |worlds| == n + 1 && worlds[0] == w && worlds[n] == kids.world
            && forall i :: 0 <= i < n ==> Exec(f, t.children[i], parameters, worlds[i]) == Done(kids.results[i], worlds[i + 1])
  {
    if n == 0 {
      worlds := [w];
    } else {
      worlds := ChildrenInTurn(f, t, parameters, n - 1, w);
      worlds := worlds + [Children(f, t, parameters, n, w).world];
    }
  }

  /** What a call that was not served leaves behind, on top of `base`: its result under its key, and in its cache. */
  ghost predicate LeavesBehind(t: Tree, parameters: string, r: RuleResult, base: World, after: World)
  {
    && after.context == (if t.active then base.context[KeyOf(t.name, t.id) := r] else base.context)
    && after.cache == (if t.active && t.caching then base.cache[(t.id, parameters) := r] else base.cache)
  }

  /**
   What a call that got past its children's turn complains about: the first child that failed,
   an expression that is false or throws, an action that throws, or nothing.
   */
  ghost predicate Complains(f: Foreign, t: Tree, r: RuleResult, evaluated: World)
  {
    if exists i :: 0 <= i < |r.childResults| && !r.childResults[i].IsSuccess() then
      exists i :: 0 <= i < |r.childResults| && !r.childResults[i].IsSuccess() && (forall j :: 0 <= j < i ==> r.childResults[j].IsSuccess()) &&
        r.exception == Some("Child rule " + r.childResults[i].ruleName + " failed")
    else if t.hasExpression && f.evaluates(t.id, evaluated).Fails? then r.exception == Some("Expression evaluated to false")
    else if t.hasExpression && f.evaluates(t.id, evaluated).Throws? then r.exception == Some(f.evaluates(t.id, evaluated).message)
    else if t.hasAction then
      r.exception == f.acts(t.id, if t.hasExpression then evaluated.(log := evaluated.log + [ExpressionHeld(t.id)]) else evaluated)
    else r.exception == None
  }

  lemma {:induction false} FirstFailureAt(results: seq<RuleResult>) returns (i: nat)
    requires FirstFailure(results).Some?
    ensures i < |results| && !results[i].IsSuccess() && FirstFailure(results) == Some(results[i])
    ensures forall j :: 0 <= j < i ==> results[j].IsSuccess()
  {
    if !results[0].IsSuccess() {
      i := 0;
    } else {
      i := FirstFailureAt(results[1..]);
      i := i + 1;
    }
  }

  lemma ComplaintAfterChildren(f: Foreign, t: Tree, parameters: string, kids: Family, evaluated: World)
    requires |kids.results| == |t.children|
    requires evaluated == kids.world.(context := StoreResults(t, kids.results, |t.children|, kids.world.context))
    ensures Complains(f, t, AfterChildren(f, t, parameters, kids).result, evaluated)
  {
    NoFailure(kids.results);
    if FirstFailure(kids.results).Some? {
      var i := FirstFailureAt(kids.results);
    }
  }

  /**
   The outcome, from the oracles.  A call is served from the cache exactly if caching is on,
   there is an entry and it is usable.  Otherwise it succeeds exactly if the rule is active and
   admitted, all its children succeed, its expression holds and its action does not throw; each
   oracle is asked in the world that the earlier steps left.
   */
  lemma SucceedsIff(f: Foreign, t: Tree, parameters: string, w: World) returns (worlds: seq<World>, evaluated: World)
    ensures var d, key := Exec(f, t, parameters, w), (t.id, parameters);
            var entered := w.(log := w.log + [Entered(t.id, |t.children|, t.hasExpression, t.hasAction)]);
            var admitted := if t.caching then entered.(cache := entered.cache - {key}) else entered;
            if t.caching && key in w.cache && f.usable(t.id, entered) then
              d.result == w.cache[key] && d.world.cache == w.cache && d.world.context == w.context
            else if !t.active || f.admits(t.id, admitted).Some? then
              && !d.result.IsSuccess() && d.result.childResults == [] && d.result.skipped == !t.active
              && (t.active ==> d.result.exception == f.admits(t.id, admitted))
              && LeavesBehind(t, parameters, d.result, admitted, d.world)
            else
              && InTurn(f, t, parameters, worlds, d.result.childResults) && worlds[0] == admitted
              && evaluated.log == worlds[|t.children|].log && evaluated.cache == worlds[|t.children|].cache
              && ShowsChildren(t, d.result.childResults, worlds[|t.children|].context, evaluated.context, |t.children|)
              && !d.result.skipped && Complains(f, t, d.result, evaluated)
              && (d.result.IsSuccess() <==>
                    && (forall i :: 0 <= i < |t.children| ==> d.result.childResults[i].IsSuccess())
                    && (t.hasExpression ==> f.evaluates(t.id, evaluated).Holds?)
                    && (t.hasAction ==>
                          f.acts(t.id, if t.hasExpression then evaluated.(log := evaluated.log + [ExpressionHeld(t.id)]) else evaluated).None?))
              && LeavesBehind(t, parameters, d.result, evaluated, d.world)
  {
    var key := (t.id, parameters);
    var entered := Log(w, Entered(t.id, |t.children|, t.hasExpression, t.hasAction));
    var admitted := if t.caching then entered.(cache := entered.cache - {key}) else entered;
    assert !(t.caching && key in w.cache) ==> admitted == entered by {
      if key !in w.cache {
        assert entered.cache - {key} == entered.cache;
      }
    }
    var kids := Children(f, t, parameters, |t.children|, admitted);
    worlds := ChildrenInTurn(f, t, parameters, |t.children|, admitted);
    evaluated := kids.world.(context := StoreResults(t, kids.results, |t.children|, kids.world.context));
    StoringShows(t, kids.results, |t.children|, kids.world.context);
    NoFailure(kids.results);
    if !(t.caching && key in w.cache && f.usable(t.id, entered)) && t.active && f.admits(t.id, admitted).None? {
      OutcomeAfterChildren(f, t, parameters, kids, evaluated);
      ComplaintAfterChildren(f, t, parameters, kids, evaluated);
    }
  }

  lemma OutcomeAfterChildren(f: Foreign, t: Tree, parameters: string, kids: Family, evaluated: World)
    requires |kids.results| == |t.children| && t.active
    requires evaluated == kids.world.(context := StoreResults(t, kids.results, |t.children|, kids.world.context))
    ensures var d := AfterChildren(f, t, parameters, kids);
            && d.result.childResults == kids.results && !d.result.skipped
            && (d.result.IsSuccess() <==>
                  && AllSucceeded(kids.results)
                  && (t.hasExpression ==> f.evaluates(t.id, evaluated).Holds?)
                  && (t.hasAction ==>
                        f.acts(t.id, if t.hasExpression then evaluated.(log := evaluated.log + [ExpressionHeld(t.id)]) else evaluated).None?))
            && LeavesBehind(t, parameters, d.result, evaluated, d.world)
  {
    NoFailure(kids.results);
  }

  /** Unless it was served, a result carries the rule's own id and name, and an exception exactly if it is neither a success nor skipped. */
  lemma OwnIdKept(f: Foreign, t: Tree, parameters: string, w: World)
    ensures var d, key := Exec(f, t, parameters, w), (t.id, parameters);
            var entered := w.(log := w.log + [Entered(t.id, |t.children|, t.hasExpression, t.hasAction)]);
            (t.caching && key in w.cache && f.usable(t.id, entered)) ||
            (d.result.ruleId == t.id && d.result.ruleName == t.name && d.result.exception.Some? == (!d.result.success && !d.result.skipped))
  {
  }

  // ----- honesty -----

  lemma OwnIsHonest(f: Foreign, t: Tree, parameters: string, w: World, base: RuleResult)
    requires HonestCache(w.cache) && !base.skipped && base.exception.None?
    requires forall i :: 0 <= i < |base.childResults| ==> Honest(base.childResults[i]) && base.childResults[i].IsSuccess()
    ensures Honest(Own(f, t, parameters, w, base).result) && HonestCache(Own(f, t, parameters, w, base).world.cache)
  {
  }

  lemma AfterChildrenIsHonest(f: Foreign, t: Tree, parameters: string, kids: Family)
    requires |kids.results| == |t.children| && HonestCache(kids.world.cache) && forall i :: 0 <= i < |kids.results| ==> Honest(kids.results[i])
    ensures Honest(AfterChildren(f, t, parameters, kids).result) && HonestCache(AfterChildren(f, t, parameters, kids).world.cache)
  {
    NoFailure(kids.results);
    if AllSucceeded(kids.results) {
      var v := kids.world.(context := StoreResults(t, kids.results, |t.children|, kids.world.context));
      OwnIsHonest(f, t, parameters, v, Unset(t).(childResults := kids.results));
    }
  }

  lemma {:induction false} ChildrenAreHonest(f: Foreign, t: Tree, parameters: string, n: nat, w: World)
    requires n <= |t.children| && HonestCache(w.cache)
    ensures var kids := Children(f, t, parameters, n, w);
            HonestCache(kids.world.cache) && forall i :: 0 <= i < n ==> Honest(kids.results[i])
    decreases t, 0, n
  {
    if n > 0 {
      ChildrenAreHonest(f, t, parameters, n - 1, w);
      ResultsAreHonest(f, t.children[n - 1], parameters, Children(f, t, parameters, n - 1, w).world);
    }
  }

  /** A result claims success exactly if everything below it succeeded too; cached ones included, and so is all that is put into the cache. */
  lemma {:induction false} ResultsAreHonest(f: Foreign, t: Tree, parameters: string, w: World)
    requires HonestCache(w.cache)
    ensures Honest(Exec(f, t, parameters, w).result) && HonestCache(Exec(f, t, parameters, w).world.cache)
    decreases t, 3
  {
    var entered := Log(w, Entered(t.id, |t.children|, t.hasExpression, t.hasAction));
    var key := (t.id, parameters);
    var u := if t.caching && key in w.cache then entered.(cache := entered.cache - {key}) else entered;
    assert HonestCache(u.cache);
    ChildrenAreHonest(f, t, parameters, |t.children|, u);
    AfterChildrenIsHonest(f, t, parameters, Children(f, t, parameters, |t.children|, u));
  }

  /** The key under which some rule of the tree records its result. */
  ghost predicate HasKey(t: Tree, key: string)
  {
    key == KeyOf(t.name, t.id) || exists i :: 0 <= i < |t.children| && HasKey(t.children[i], key)
  }

  ghost predicate SameAt(before: map<string, RuleResult>, after: map<string, RuleResult>, key: string)
  {
    (key in after <==> key in before) && (key in after ==> after[key] == before[key])
  }

  /** Only the keys of the tree may have changed. */
  ghost predicate Kept(t: Tree, before: map<string, RuleResult>, after: map<string, RuleResult>)
  {
    forall key :: !HasKey(t, key) ==> SameAt(before, after, key)
  }

  lemma KeptOwn(t: Tree, before: map<string, RuleResult>, middle: map<string, RuleResult>, r: RuleResult)
    requires Kept(t, before, middle)
    ensures Kept(t, before, middle[KeyOf(t.name, t.id) := r])
  {
    forall key | !HasKey(t, key)
      ensures SameAt(before, middle[KeyOf(t.name, t.id) := r], key)
    {
      assert SameAt(before, middle, key);
    }
  }

  lemma KeptByChild(t: Tree, i: nat, before: map<string, RuleResult>, middle: map<string, RuleResult>, after: map<string, RuleResult>)
    requires i < |t.children| && Kept(t, before, middle) && Kept(t.children[i], middle, after)
    ensures Kept(t, before, after)
  {
    forall key | !HasKey(t, key)
      ensures SameAt(before, after, key)
    {
      assert SameAt(before, middle, key);
      assert !HasKey(t.children[i], key);
      assert SameAt(middle, after, key);
    }
  }

  lemma KeptNothing(t: Tree, context: map<string, RuleResult>)
    ensures Kept(t, context, context)
  {
  }

  lemma KeptTwice(t: Tree, before: map<string, RuleResult>, middle: map<string, RuleResult>, after: map<string, RuleResult>)
    requires Kept(t, before, middle) && Kept(t, middle, after)
    ensures Kept(t, before, after)
  {
    forall key | !HasKey(t, key)
      ensures SameAt(before, after, key)
    {
      assert SameAt(before, middle, key);
      assert SameAt(middle, after, key);
    }
  }

  lemma {:induction false} StoringKeeps(t: Tree, results: seq<RuleResult>, n: nat, before: map<string, RuleResult>, middle: map<string, RuleResult>)
    requires n <= |results| == |t.children| && Kept(t, before, middle)
    ensures Kept(t, before, StoreResults(t, results, n, middle))
  {
    if n > 0 {
      StoringKeeps(t, results, n - 1, before, middle);
      var context := StoreResults(t, results, n - 1, middle);
      KeptNothing(t.children[n - 1], context);
      KeptOwn(t.children[n - 1], context, context, results[n - 1]);
      KeptByChild(t, n - 1, before, context, StoreResults(t, results, n, middle));
    }
  }

  lemma {:induction false} ChildrenKeepKeys(f: Foreign, t: Tree, parameters: string, n: nat, w: World)
    requires n <= |t.children|
    ensures Kept(t, w.context, Children(f, t, parameters, n, w).world.context)
    decreases t, 0, n
  {
    if n == 0 {
      KeptNothing(t, w.context);
    } else {
      var before := Children(f, t, parameters, n - 1, w);
      ChildrenKeepKeys(f, t, parameters, n - 1, w);
      OtherKeysKept(f, t.children[n - 1], parameters, before.world);
      KeptByChild(t, n - 1, w.context, before.world.context, Children(f, t, parameters, n, w).world.context);
    }
  }

  /** A call writes only the context keys of its own tree. */
  lemma {:induction false} OtherKeysKept(f: Foreign, t: Tree, parameters: string, w: World)
    ensures Kept(t, w.context, Exec(f, t, parameters, w).world.context)
    decreases t, 3
  {
    var worlds, evaluated := SucceedsIff(f, t, parameters, w);
    var key := (t.id, parameters);
    var entered := Log(w, Entered(t.id, |t.children|, t.hasExpression, t.hasAction));
    var u := if t.caching && key in w.cache then entered.(cache := entered.cache - {key}) else entered;
    var kids := Children(f, t, parameters, |t.children|, u);
    var d := Exec(f, t, parameters, w);
    KeptNothing(t, w.context);
    KeptOwn(t, w.context, w.context, d.result);
    ChildrenKeepKeys(f, t, parameters, |t.children|, u);
    StoringKeeps(t, kids.results, |t.children|, w.context, kids.world.context);
    var stored := StoreResults(t, kids.results, |t.children|, kids.world.context);
    KeptOwn(t, w.context, stored, d.result);
    if t.active && !(t.caching && key in w.cache && f.usable(t.id, entered)) && f.admits(t.id, u).None? {
      OutcomeAfterChildren(f, t, parameters, kids, kids.world.(context := stored));
    }
  }

  // ----- the order of events -----

  lemma OneMore(results: seq<RuleResult>, r: RuleResult)
    ensures AllSucceeded(results + [r]) <==> AllSucceeded(results) && r.IsSuccess()
  {
    if AllSucceeded(results + [r]) {
      assert (results + [r])[|results|] == r;
      assert forall i :: 0 <= i < |results| ==> (results + [r])[i] == results[i];
    }
  }

  /** The expression and the action, as the monitor sees them. */
  lemma OwnIsMonitored(f: Foreign, t: Tree, parameters: string, w: World, v: World, base: RuleResult, s: seq<Frame>, stack: seq<Frame>) returns (top: Frame)
    requires Takes(w, v, s, [Progress(t, |t.children|, true)] + stack) && !base.skipped && base.exception.None? && !base.success
    ensures var d := Own(f, t, parameters, v, base);
            top.id == t.id && top.MayReturn(d.result.IsSuccess()) && Takes(w, d.world, s, [top] + stack)
  {
    top := Progress(t, |t.children|, true);
    var d, u := Own(f, t, parameters, v, base), v;
    if t.hasExpression && !f.evaluates(t.id, v).Holds? {
      TakesOnTop(w, v, d.world, s, top, stack, Blocked(t.id), top.(blocked := true));
      top := top.(blocked := true);
    } else {
      if t.hasExpression {
        u := Log(v, ExpressionHeld(t.id));
        TakesOnTop(w, v, u, s, top, stack, ExpressionHeld(t.id), top.(held := true));
        top := top.(held := true);
      }
      if t.hasAction {
        var acted := Log(u, Acted(t.id));
        TakesOnTop(w, u, acted, s, top, stack, Acted(t.id), top.(acted := true));
        top := top.(acted := true);
        if f.acts(t.id, u).Some? {
          TakesOnTop(w, acted, d.world, s, top, stack, Blocked(t.id), top.(blocked := true));
          top := top.(blocked := true);
        }
      }
    }
  }

  lemma {:induction false} ChildrenAreMonitored(f: Foreign, t: Tree, parameters: string, n: nat, w: World, u: World, stack: seq<Frame>)
    requires n <= |t.children| && u.log == w.log
    ensures var kids := Children(f, t, parameters, n, u);
            Takes(w, kids.world, [Progress(t, 0, true)] + stack, [Progress(t, n, AllSucceeded(kids.results))] + stack)
    decreases t, 0, n
  {
    if n == 0 {
      TakesNothing(w, u, [Progress(t, 0, true)] + stack);
    } else {
      var before, kids := Children(f, t, parameters, n - 1, u), Children(f, t, parameters, n, u);
      ChildrenAreMonitored(f, t, parameters, n - 1, w, u, stack);
      var top := Progress(t, n - 1, AllSucceeded(before.results));
      EventsAreInOrder(f, t.children[n - 1], parameters, before.world, [top] + stack);
      var d := Exec(f, t.children[n - 1], parameters, before.world);
      OneMore(before.results, d.result);
      assert Noted([top] + stack, d.result.IsSuccess()) == [Progress(t, n, AllSucceeded(kids.results))] + stack;
      TakesBoth(w, before.world, kids.world, [Progress(t, 0, true)] + stack, [top] + stack, [Progress(t, n, AllSucceeded(kids.results))] + stack);
    }
  }

  lemma BodyIsMonitored(f: Foreign, t: Tree, parameters: string, w: World, stack: seq<Frame>) returns (top: Frame)
    ensures var d := Body(f, t, parameters, w);
            top.id == t.id && top.MayReturn(d.result.IsSuccess()) && Takes(w, d.world, [Progress(t, 0, true)] + stack, [top] + stack)
    decreases t, 2
  {
    var d, key, s := Body(f, t, parameters, w), (t.id, parameters), [Progress(t, 0, true)] + stack;
    top := Progress(t, 0, true);
    TakesNothing(w, w, s);
    if t.caching && key in w.cache && f.usable(t.id, w) {
      TakesOnTop(w, w, d.world, s, top, stack, ServedFromCache(t.id), top.(served := true));
      top := top.(served := true);
    } else {
      var u := if t.caching && key in w.cache then w.(cache := w.cache - {key}) else w;
      TakesNothing(w, u, s);
      if !t.active || f.admits(t.id, u).Some? {
        TakesOnTop(w, u, d.world, s, top, stack, Blocked(t.id), top.(blocked := true));
        top := top.(blocked := true);
      } else {
        var kids := Children(f, t, parameters, |t.children|, u);
        ChildrenAreMonitored(f, t, parameters, |t.children|, w, u, stack);
        var v := kids.world.(context := StoreResults(t, kids.results, |t.children|, kids.world.context));
        assert Takes(w, v, s, [Progress(t, |t.children|, AllSucceeded(kids.results))] + stack);
        NoFailure(kids.results);
        if AllSucceeded(kids.results) {
          top := OwnIsMonitored(f, t, parameters, w, v, Unset(t).(childResults := kids.results), s, stack);
        } else {
          top := Progress(t, |t.children|, false);
        }
      }
    }
  }

  /**
   The monitor accepts every execution: an action runs only after all children of its rule have
   returned successfully and its expression was found true, and a call returns success only
   after everything was done, failure only for a reason.
   */
  lemma EventsAreInOrder(f: Foreign, t: Tree, parameters: string, w: World, stack: seq<Frame>)
    ensures var d := Exec(f, t, parameters, w); Takes(w, d.world, stack, Noted(stack, d.result.IsSuccess()))
    decreases t, 3
  {
    var entered := Entered(t.id, |t.children|, t.hasExpression, t.hasAction);
    var start := Log(w, entered);
    TakesNothing(w, w, stack);
    TakesOne(w, w, start, stack, stack, entered);
    var top := BodyIsMonitored(f, t, parameters, start, stack);
    var d, end := Body(f, t, parameters, start), Exec(f, t, parameters, w);
    TakesBoth(w, start, d.world, stack, [Progress(t, 0, true)] + stack, [top] + stack);
    TakesOne(w, d.world, end.world, stack, [top] + stack, Returned(t.id, d.result.IsSuccess()));
    assert ([top] + stack)[1..] == stack;
  }

  // ----- events say what the oracles said -----

  /** An expression is noted as held, and an answer as served from the cache, only where the oracle said so; `n` is where the event stands. */
  ghost predicate TrueAt(f: Foreign, log: seq<Event>, n: nat)
    requires n < |log|
  {
    match log[n]
    case ExpressionHeld(id) => exists u: World :: u.log == log[..n] && f.evaluates(id, u).Holds?
    case ServedFromCache(id) => exists u: World :: u.log == log[..n] && f.usable(id, u)
    case _ => true
  }

  ghost predicate TrueSince(f: Foreign, from: nat, log: seq<Event>)
  {
    from <= |log| && forall n :: from <= n < |log| ==> TrueAt(f, log, n)
  }

  lemma OneMoreEvent(f: Foreign, from: nat, log: seq<Event>, ev: Event, u: World)
    requires TrueSince(f, from, log) && u.log == log
    requires (ev.ExpressionHeld? ==> f.evaluates(ev.id, u).Holds?) && (ev.ServedFromCache? ==> f.usable(ev.id, u))
    ensures TrueSince(f, from, log + [ev])
  {
    var more := log + [ev];
    forall n | from <= n < |more|
      ensures TrueAt(f, more, n)
    {
      if n < |log| {
        assert TrueAt(f, log, n);
        assert more[..n] == log[..n];
      } else {
        assert more[..n] == log;
      }
    }
  }

  lemma {:induction false} ChildrenEventsAreTrue(f: Foreign, t: Tree, parameters: string, n: nat, from: nat, w: World)
    requires n <= |t.children| && TrueSince(f, from, w.log)
    ensures TrueSince(f, from, Children(f, t, parameters, n, w).world.log)
    decreases t, 0, n
  {
    if n > 0 {
      ChildrenEventsAreTrue(f, t, parameters, n - 1, from, w);
      EventsAreTrueFrom(f, t.children[n - 1], parameters, from, Children(f, t, parameters, n - 1, w).world);
    }
  }

  lemma OwnEventsAreTrue(f: Foreign, t: Tree, parameters: string, from: nat, w: World, base: RuleResult)
    requires TrueSince(f, from, w.log)
    ensures TrueSince(f, from, Own(f, t, parameters, w, base).world.log)
  {
    OneMoreEvent(f, from, w.log, Blocked(t.id), w);
    if !t.hasExpression || f.evaluates(t.id, w).Holds? {
      var u := Reached(t, w);
      if t.hasExpression {
        OneMoreEvent(f, from, w.log, ExpressionHeld(t.id), w);
      }
      if t.hasAction {
        var v := Log(u, Acted(t.id));
        OneMoreEvent(f, from, u.log, Acted(t.id), u);
        OneMoreEvent(f, from, v.log, Blocked(t.id), v);
      }
    }
  }

  lemma {:induction false} EventsAreTrueFrom(f: Foreign, t: Tree, parameters: string, from: nat, w: World)
    requires TrueSince(f, from, w.log)
    ensures TrueSince(f, from, Exec(f, t, parameters, w).world.log)
    decreases t, 3
  {
    var key := (t.id, parameters);
    var entered := Log(w, Entered(t.id, |t.children|, t.hasExpression, t.hasAction));
    OneMoreEvent(f, from, w.log, Entered(t.id, |t.children|, t.hasExpression, t.hasAction), w);
    var d := Body(f, t, parameters, entered);
    var u := if t.caching && key in w.cache then entered.(cache := entered.cache - {key}) else entered;
    if t.caching && key in w.cache && f.usable(t.id, entered) {
      OneMoreEvent(f, from, entered.log, ServedFromCache(t.id), entered);
    } else if !t.active || f.admits(t.id, u).Some? {
      OneMoreEvent(f, from, entered.log, Blocked(t.id), entered);
    } else {
      var kids := Children(f, t, parameters, |t.children|, u);
      ChildrenEventsAreTrue(f, t, parameters, |t.children|, from, u);
      var v := kids.world.(context := StoreResults(t, kids.results, |t.children|, kids.world.context));
      OwnEventsAreTrue(f, t, parameters, from, v, Unset(t).(childResults := kids.results));
    }
    OneMoreEvent(f, from, d.world.log, Returned(t.id, d.result.IsSuccess()), d.world);
  }

  /** Every such event of an execution stands where the oracle, asked with the log up to there, said so. */
  lemma EventsAreTrue(f: Foreign, t: Tree, parameters: string, w: World)
    ensures TrueSince(f, |w.log|, Exec(f, t, parameters, w).world.log)
  {
    EventsAreTrueFrom(f, t, parameters, |w.log|, w);
  }
}
