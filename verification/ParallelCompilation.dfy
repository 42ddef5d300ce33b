/**
 The claim loop of parallel compilation as a step system: in each level the workers clone
 the engine, take positions from a shared counter, compile them and leave when the counter
 runs past the end; joining them all is the barrier before the next level.  A clone or a
 compilation may fail, which makes workers leave early and ends the run after the join.
 */
module ParallelCompilation {
  import opened CompilationLevels

  /** The rule at position `index` of level `level`. */
  datatype Slot = Slot(level: nat, index: nat)

  datatype Worker = Starting | Seeking | Compiling(index: nat) | Gone

  /** `compiled` lists the finished compilations in the order they finished. */
  datatype State = State(level: nat, next: nat, workers: seq<Worker>, failed: bool, compiled: seq<Slot>)

  datatype Action =
    | Clone(w: nat, ok: bool)
    | Claim(w: nat)
    | Quit(w: nat)               // leaves because it saw the error flag
    | Finish(w: nat, ok: bool)
    | Join

  /** How many rules each level holds, and how many threads the caller asked for. */
  datatype Plan = Plan(sizes: seq<nat>, threads: nat)
  {
    function SizeOf(level: nat): nat
    {
      if level < |sizes| then sizes[level] else 0
    }

    function Team(level: nat): (n: nat)
      requires threads > 0
      ensures n > 0
    {
      var wanted := if SizeOf(level) > 1 then SizeOf(level) else 1;
      if threads < wanted then threads else wanted
    }
  }

  function Spawn(n: nat): (workers: seq<Worker>)
    ensures |workers| == n && forall w :: 0 <= w < n ==> workers[w] == Starting
  {
    seq(n, _ => Starting)
  }

  function Init(plan: Plan): State
    requires plan.threads > 0
  {
    State(0, 0, Spawn(plan.Team(0)), false, [])
  }

  /** A worker that has tested the error flag claims a position even if the flag was set meanwhile. */
  ghost predicate Enabled(plan: Plan, s: State, a: Action)
  {
    match a
    case Clone(w, _) => s.level < |plan.sizes| && w < |s.workers| && s.workers[w].Starting?
    case Claim(w) => s.level < |plan.sizes| && w < |s.workers| && s.workers[w].Seeking?
    case Quit(w) => s.failed && w < |s.workers| && s.workers[w].Seeking?
    case Finish(w, _) => w < |s.workers| && s.workers[w].Compiling?
    case Join => s.level < |plan.sizes| && !s.failed && forall w :: 0 <= w < |s.workers| ==> s.workers[w].Gone?
  }

  function SetWorker(s: State, w: nat, x: Worker): State
    requires w < |s.workers|
  {
    s.(workers := s.workers[w := x])
  }

  function Apply(plan: Plan, s: State, a: Action): State
    requires Enabled(plan, s, a) && plan.threads > 0
  {
    match a
    case Clone(w, ok) => if ok then SetWorker(s, w, Seeking) else SetWorker(s, w, Gone).(failed := true)
    case Claim(w) => SetWorker(s, w, if s.next >= plan.SizeOf(s.level) then Gone else Compiling(s.next)).(next := s.next + 1)
    case Quit(w) => SetWorker(s, w, Gone)
    case Finish(w, ok) =>
      if ok then SetWorker(s, w, Seeking).(compiled := s.compiled + [Slot(s.level, s.workers[w].index)])
      else SetWorker(s, w, Gone).(failed := true)
    case Join => s.(level := s.level + 1, next := 0, workers := Spawn(plan.Team(s.level + 1)))
  }

  ghost predicate Next(plan: Plan, s: State, s': State)
    requires plan.threads > 0
  {
    exists a :: Enabled(plan, s, a) && s' == Apply(plan, s, a)
  }

  ghost predicate StepAt(plan: Plan, run: seq<State>, i: nat)
    requires plan.threads > 0 && i < |run| - 1
  {
    Next(plan, run[i], run[i + 1])
  }

  ghost predicate IsRun(plan: Plan, run: seq<State>)
  {
    && plan.threads > 0 && |run| > 0
    && run[0] == Init(plan)
    && forall i :: 0 <= i < |run| - 1 ==> StepAt(plan, run, i)
  }

  // ----- the invariant -----

  ghost function Holds(level: nat, w: Worker, slot: Slot): nat
  {
    if w.Compiling? && Slot(level, w.index) == slot then 1 else 0
  }

  ghost function InProgress(level: nat, workers: seq<Worker>, slot: Slot): nat
  {
    if workers == [] then 0 else Holds(level, workers[0], slot) + InProgress(level, workers[1..], slot)
  }

  ghost function Copies(s: State, slot: Slot): nat
  {
    multiset(s.compiled)[slot] + InProgress(s.level, s.workers, slot)
  }

  /** The positions handed out so far: all of the earlier levels, and the counter's share of this one. */
  ghost predicate Taken(plan: Plan, s: State, slot: Slot)
  {
    slot.index < plan.SizeOf(slot.level) && (slot.level < s.level || (slot.level == s.level && slot.index < s.next))
  }

  /** A position handed out is compiled or being compiled once; only a failure in the present level may lose one. */
  ghost predicate Accounted(plan: Plan, s: State, slot: Slot)
  {
    && (!Taken(plan, s, slot) ==> Copies(s, slot) == 0)
    && (Taken(plan, s, slot) ==> Copies(s, slot) <= 1)
    && (Taken(plan, s, slot) && (slot.level < s.level || !s.failed) ==> Copies(s, slot) == 1)
  }

  ghost predicate Inv(plan: Plan, s: State)
  {
    && s.level <= |plan.sizes| && |s.workers| > 0
    && (forall w :: 0 <= w < |s.workers| && s.workers[w].Gone? ==> s.failed || s.next > plan.SizeOf(s.level))
    && (forall slot :: Accounted(plan, s, slot))
  }

  lemma {:induction false} InProgressUpdate(level: nat, workers: seq<Worker>, w: nat, x: Worker, slot: Slot)
    requires w < |workers|
    ensures InProgress(level, workers[w := x], slot) + Holds(level, workers[w], slot) == InProgress(level, workers, slot) + Holds(level, x, slot)
  {
    if w > 0 {
      InProgressUpdate(level, workers[1..], w - 1, x, slot);
      assert workers[w := x][1..] == workers[1..][w - 1 := x];
    } else {
      assert workers[w := x][1..] == workers[1..];
    }
  }

  lemma {:induction false} NoneInProgress(level: nat, workers: seq<Worker>, slot: Slot)
    requires slot.level != level || forall w :: 0 <= w < |workers| ==> !workers[w].Compiling?
    ensures InProgress(level, workers, slot) == 0
  {
    if workers != [] {
      NoneInProgress(level, workers[1..], slot);
    }
  }

  lemma {:induction false} SomeInProgress(level: nat, workers: seq<Worker>, w: nat)
    requires w < |workers| && workers[w].Compiling?
    ensures InProgress(level, workers, Slot(level, workers[w].index)) > 0
  {
    if w > 0 {
      SomeInProgress(level, workers[1..], w - 1);
    }
  }

  /** A step of one worker. */
  lemma WorkerStepAccounted(plan: Plan, s: State, a: Action, slot: Slot)
    requires plan.threads > 0 && Inv(plan, s) && Enabled(plan, s, a) && !a.Join?
    ensures Accounted(plan, Apply(plan, s, a), slot)
  {
    var s' := Apply(plan, s, a);
    InProgressUpdate(s.level, s.workers, a.w, s'.workers[a.w], slot);
    assert Accounted(plan, s, slot);
  }

  /** Joining: a worker has gone without an error, so the counter is past the end and nothing of the level is left. */
  lemma JoinAccounted(plan: Plan, s: State, slot: Slot)
    requires plan.threads > 0 && Inv(plan, s) && Enabled(plan, s, Join)
    ensures Accounted(plan, Apply(plan, s, Join), slot)
  {
    var s' := Apply(plan, s, Join);
    NoneInProgress(s.level, s.workers, slot);
    NoneInProgress(s'.level, s'.workers, slot);
    assert s.workers[0].Gone?;
    assert Accounted(plan, s, slot);
  }

  lemma StepKeepsInv(plan: Plan, s: State, s': State)
    requires plan.threads > 0 && Inv(plan, s) && Next(plan, s, s')
    ensures Inv(plan, s')
  {
    var a :| Enabled(plan, s, a) && s' == Apply(plan, s, a);
    forall slot
      ensures Accounted(plan, s', slot)
    {
      if a.Join? {
        JoinAccounted(plan, s, slot);
      } else {
        WorkerStepAccounted(plan, s, a, slot);
      }
    }
  }

  lemma {:induction false} RunKeepsInv(plan: Plan, run: seq<State>, i: nat)
    requires IsRun(plan, run) && i < |run|
    ensures Inv(plan, run[i])
  {
    if i == 0 {
      forall slot
        ensures Accounted(plan, run[0], slot)
      {
        NoneInProgress(0, run[0].workers, slot);
      }
    } else {
      RunKeepsInv(plan, run, i - 1);
      assert StepAt(plan, run, i - 1);
      StepKeepsInv(plan, run[i - 1], run[i]);
    }
  }

  // ----- main results -----

  /**
   While a level is being worked on, errors or not, every rule of every earlier level has been
   compiled, exactly once, and nothing of a later one has been touched.
   */
  lemma EarlierLevelsFinished(plan: Plan, run: seq<State>, i: nat, slot: Slot)
    requires IsRun(plan, run) && i < |run|
    ensures slot.level < run[i].level && slot.index < plan.SizeOf(slot.level) ==> multiset(run[i].compiled)[slot] == 1
    ensures slot.level > run[i].level ==> slot !in run[i].compiled
    ensures multiset(run[i].compiled)[slot] <= 1
  {
    RunKeepsInv(plan, run, i);
    assert Accounted(plan, run[i], slot);
    if slot.level < run[i].level {
      NoneInProgress(run[i].level, run[i].workers, slot);
    }
    if slot in run[i].compiled {
      assert multiset(run[i].compiled)[slot] > 0;
    }
  }

  /** When the last level has been joined, every rule has been compiled exactly once, and nothing else has. */
  lemma EachRuleCompiledOnce(plan: Plan, run: seq<State>, i: nat, slot: Slot)
    requires IsRun(plan, run) && i < |run| && run[i].level == |plan.sizes|
    ensures multiset(run[i].compiled)[slot] == if slot.index < plan.SizeOf(slot.level) then 1 else 0
  {
    RunKeepsInv(plan, run, i);
    assert Accounted(plan, run[i], slot);
    if slot.level < run[i].level {
      NoneInProgress(run[i].level, run[i].workers, slot);
    }
  }

  /** A level is worked on by as many threads as were asked for, but no more than it has rules and at least one. */
  lemma {:induction false} TeamIsSized(plan: Plan, run: seq<State>, i: nat)
    requires IsRun(plan, run) && i < |run|
    ensures var rules := if run[i].level < |plan.sizes| && plan.sizes[run[i].level] > 1 then plan.sizes[run[i].level] else 1;
            |run[i].workers| == if plan.threads < rules then plan.threads else rules
  {
    if i > 0 {
      TeamIsSized(plan, run, i - 1);
      assert StepAt(plan, run, i - 1);
    }
  }

  /** After a failure no further level is begun. */
  lemma {:induction false} FailureStops(plan: Plan, run: seq<State>, i: nat, j: nat)
    requires IsRun(plan, run) && i <= j < |run| && run[i].failed
    ensures run[j].failed && run[j].level == run[i].level
  {
    if i < j {
      FailureStops(plan, run, i, j - 1);
      assert StepAt(plan, run, j - 1);
    }
  }

  // ----- a run can always be completed -----

  function Last(run: seq<State>): State
    requires |run| > 0
  {
    run[|run| - 1]
  }

  ghost predicate Continues(plan: Plan, run: seq<State>, longer: seq<State>)
  {
    IsRun(plan, run) && IsRun(plan, longer) && run <= longer
  }

  lemma Do(plan: Plan, run: seq<State>, a: Action) returns (longer: seq<State>)
    requires IsRun(plan, run) && Enabled(plan, Last(run), a)
    ensures Continues(plan, run, longer) && Last(longer) == Apply(plan, Last(run), a)
  {
    var s := Apply(plan, Last(run), a);
    longer := run + [s];
    assert Next(plan, Last(run), s);
    forall i | 0 <= i < |longer| - 1
      ensures StepAt(plan, longer, i)
    {
      assert i < |run| - 1 ==> StepAt(plan, run, i);
    }
  }

  ghost function WorkerStepsLeft(plan: Plan, s: State, w: Worker): nat
  {
    var open := if s.next < plan.SizeOf(s.level) then plan.SizeOf(s.level) - s.next else 0;
    match w
    case Starting => 2 * open + 3
    case Seeking => 2 * open + 1
    case Compiling(_) => 2 * open + 2
    case Gone => 0
  }

  lemma {:induction false} WorkerCanLeave(plan: Plan, run: seq<State>, w: nat) returns (longer: seq<State>)
    requires IsRun(plan, run) && !Last(run).failed && Last(run).level < |plan.sizes| && w < |Last(run).workers|
    ensures Continues(plan, run, longer) && !Last(longer).failed && Last(longer).level == Last(run).level
    ensures |Last(longer).workers| == |Last(run).workers| && Last(longer).workers[w].Gone?
    ensures forall u :: 0 <= u < |Last(run).workers| && u != w ==> Last(longer).workers[u] == Last(run).workers[u]
    decreases WorkerStepsLeft(plan, Last(run), Last(run).workers[w])
  {
    match Last(run).workers[w]
    case Gone => longer := run;
    case Starting =>
      longer := Do(plan, run, Clone(w, true));
      longer := WorkerCanLeave(plan, longer, w);
    case Seeking =>
      longer := Do(plan, run, Claim(w));
      longer := WorkerCanLeave(plan, longer, w);
    case Compiling(_) =>
      longer := Do(plan, run, Finish(w, true));
      longer := WorkerCanLeave(plan, longer, w);
  }

  lemma {:induction false} LevelCanEnd(plan: Plan, run: seq<State>, k: nat) returns (longer: seq<State>)
    requires IsRun(plan, run) && !Last(run).failed && Last(run).level < |plan.sizes| && k <= |Last(run).workers|
    requires forall u :: 0 <= u < k ==> Last(run).workers[u].Gone?
    ensures Continues(plan, run, longer) && !Last(longer).failed && Last(longer).level == Last(run).level + 1
    decreases |Last(run).workers| - k
  {
    if k == |Last(run).workers| {
      longer := Do(plan, run, Join);
    } else {
      longer := WorkerCanLeave(plan, run, k);
      longer := LevelCanEnd(plan, longer, k + 1);
    }
  }

  /** From any state of any run in which nothing has failed, all levels can be compiled: the workers are never stuck. */
  lemma {:induction false} RunsCanFinish(plan: Plan, run: seq<State>) returns (longer: seq<State>)
    requires IsRun(plan, run) && !Last(run).failed
    ensures Continues(plan, run, longer) && Last(longer).level == |plan.sizes|
    decreases |plan.sizes| - Last(run).level
  {
    RunKeepsInv(plan, run, |run| - 1);
    if Last(run).level == |plan.sizes| {
      longer := run;
    } else {
      longer := LevelCanEnd(plan, run, 0);
      RunKeepsInv(plan, longer, |longer| - 1);
      longer := RunsCanFinish(plan, longer);
    }
  }

  // ----- with the levels of a workflow -----

  ghost predicate PlanFor(plan: Plan, levels: seq<seq<int>>)
  {
    |plan.sizes| == |levels| && forall k :: 0 <= k < |levels| ==> plan.sizes[k] == |levels[k]|
  }

  /** Rule `c` has been compiled. */
  ghost predicate IsCompiled(levels: seq<seq<int>>, s: State, c: int)
  {
    exists slot :: slot in s.compiled && slot.level < |levels| && slot.index < |levels[slot.level]| && levels[slot.level][slot.index] == c
  }

  lemma ClaimedSlotExists(plan: Plan, run: seq<State>, i: nat, w: nat)
    requires IsRun(plan, run) && i < |run| && w < |run[i].workers| && run[i].workers[w].Compiling?
    ensures run[i].level < |plan.sizes| && run[i].workers[w].index < plan.sizes[run[i].level]
  {
    RunKeepsInv(plan, run, i);
    var slot := Slot(run[i].level, run[i].workers[w].index);
    SomeInProgress(run[i].level, run[i].workers, w);
    assert Accounted(plan, run[i], slot);
  }

  /**
   End to end: in every run over the levels of a workflow, a rule of a regular level is being
   compiled only when all its top-level children have been.
   */
  lemma ChildrenCompiledFirst(kids: Family, regular: seq<seq<int>>, rest: seq<int>, plan: Plan, run: seq<State>, i: nat, w: nat, c: int)
    requires Placed(kids, regular, rest) && PlanFor(plan, AllLevels(regular, rest)) && IsRun(plan, run) && i < |run|
    requires w < |run[i].workers| && run[i].workers[w].Compiling? && run[i].level < |regular|
    ensures run[i].workers[w].index < |regular[run[i].level]|
    ensures var p := regular[run[i].level][run[i].workers[w].index];
            IsTop(kids, p) && (c in Kids(kids, p) ==> IsCompiled(AllLevels(regular, rest), run[i], c))
  {
    var levels, k := AllLevels(regular, rest), run[i].level;
    ClaimedSlotExists(plan, run, i, w);
    assert LevelOk(kids, regular, k) && levels[k] == regular[k];
    var p := regular[k][run[i].workers[w].index];
    assert p in regular[k];
    if c in Kids(kids, p) {
      assert c in SetOf(Flat(regular[..k]));
      var m := LevelHolding(regular[..k], c);
      var j :| 0 <= j < |regular[m]| && regular[m][j] == c;
      EarlierLevelsFinished(plan, run, i, Slot(m, j));
      assert Slot(m, j) in run[i].compiled;
      assert levels[m] == regular[m];
    }
  }

  /** Without cycles and repeated children that covers every rule of the workflow. */
  lemma ChildrenAlwaysFirst(kids: Family, regular: seq<seq<int>>, rest: seq<int>, plan: Plan, run: seq<State>, i: nat, w: nat, c: int)
    requires Placed(kids, regular, rest) && PlanFor(plan, AllLevels(regular, rest)) && IsRun(plan, run) && i < |run|
    requires w < |run[i].workers| && run[i].workers[w].Compiling? && Acyclic(kids) && ListedOnce(kids)
    ensures run[i].level < |regular| && run[i].workers[w].index < |regular[run[i].level]|
    ensures var p := regular[run[i].level][run[i].workers[w].index];
            IsTop(kids, p) && (c in Kids(kids, p) ==> IsCompiled(regular, run[i], c))
  {
    NothingLeftIff(kids, regular, rest);
    ClaimedSlotExists(plan, run, i, w);
    ChildrenCompiledFirst(kids, regular, rest, plan, run, i, w, c);
  }

  /** And when the last level has been joined, every rule of the workflow has been compiled. */
  lemma EveryRuleCompiled(kids: Family, regular: seq<seq<int>>, rest: seq<int>, plan: Plan, run: seq<State>, i: nat, p: int)
    requires Placed(kids, regular, rest) && PlanFor(plan, AllLevels(regular, rest)) && IsRun(plan, run) && i < |run|
    requires run[i].level == |plan.sizes| && IsTop(kids, p)
    ensures IsCompiled(AllLevels(regular, rest), run[i], p)
  {
    var levels := AllLevels(regular, rest);
    EverythingPlaced(kids, regular, rest);
    assert p in Everyone(kids);
    assert p in SetOf(Flat(levels));
    var m := LevelHolding(levels, p);
    var j :| 0 <= j < |levels[m]| && levels[m][j] == p;
    EachRuleCompiledOnce(plan, run, i, Slot(m, j));
    assert Slot(m, j) in run[i].compiled;
  }
}
