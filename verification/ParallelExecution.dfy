/** Batched parallel execution as a step system. */
module ParallelExecution {
  import opened Common
  import opened Chains
  import opened Rules
  import opened Results
  import opened DependencyLevels
  import opened SequentialExecution
  import opened Passing

  // Each level's active rules run in batches no larger than the engine pool, one task per rule.
  // Tasks of a batch interleave step by step with each other and with the main thread, which
  // collects results in order and records them in the shared context while later tasks may
  // still be running.  A task may also throw out of the rule; it then gives its engine back
  // and the run is abandoned.

  type Engine = nat

  /** A rule id with the success flag that was reported for it. */
  datatype Verdict = Verdict(id: int, ok: bool)

  datatype Task =
    | Waiting                          // about to acquire an engine
    | Holding(engine: Engine)          // about to check the dependency
    | Cleared(engine: Engine)          // executing the rule
    | Leaving(engine: Engine, ok: bool)  // outcome known, engine not yet released
    | Thrown(engine: Engine)           // an exception is on its way out, engine not yet released
    | Done(ok: bool)
    | Aborted
    | Starved                          // no engine before the timeout
  {
    predicate HasEngine() { Holding? || Cleared? || Leaving? || Thrown? }
  }

  /** What does not change during a run. */
  datatype Job = Job(rules: seq<Rule>, verdict: int -> bool, batches: seq<seq<Rule>>, engines: set<Engine>)

  /** `context` keeps the success flag under each result key; `abandoned` is set when an exception reaches the main thread. */
  datatype State = State(
    context: map<string, bool>,
    pool: set<Engine>,
    batch: nat,
    tasks: seq<Task>,
    collected: nat,
    reports: seq<Verdict>,
    abandoned: bool)

  datatype Action =
    | Acquire(i: nat, engine: Engine)
    | TimeOut(i: nat)
    | Check(i: nat)
    | WriteChild(i: nat, key: string, ok: bool)
    | Complete(i: nat)
    | Throw(i: nat)
    | Release(i: nat)
    | Collect
    | NextBatch

  function BatchAt(job: Job, b: nat): seq<Rule>
  {
    if b < |job.batches| then job.batches[b] else []
  }

  function Launch(batch: seq<Rule>): (tasks: seq<Task>)
    ensures |tasks| == |batch| && forall i :: 0 <= i < |tasks| ==> tasks[i] == Waiting
  {
    seq(|batch|, _ => Waiting)
  }

  function Init(job: Job): State
  {
    State(map[], job.engines, 0, Launch(BatchAt(job, 0)), 0, [], false)
  }

  predicate Met(rule: Rule, context: map<string, bool>)
  {
    rule.dependsOn.Some? ==> rule.dependsOn.value in context && context[rule.dependsOn.value]
  }

  ghost predicate IsTopLevelKey(job: Job, key: string)
  {
    exists j :: 0 <= j < |job.rules| && ResultKey(job.rules[j]) == key
  }

  ghost predicate Enabled(job: Job, s: State, a: Action)
  {
    && |s.tasks| == |BatchAt(job, s.batch)|
    && match a
       case Acquire(i, e) => i < |s.tasks| && s.tasks[i].Waiting? && e in s.pool
       case TimeOut(i) => i < |s.tasks| && s.tasks[i].Waiting? && s.pool == {}
       case Check(i) => i < |s.tasks| && s.tasks[i].Holding?
       case WriteChild(i, key, ok) => i < |s.tasks| && s.tasks[i].Cleared? && !IsTopLevelKey(job, key)
       case Complete(i) => i < |s.tasks| && s.tasks[i].Cleared?
       case Throw(i) => i < |s.tasks| && s.tasks[i].Cleared?
       case Release(i) => i < |s.tasks| && (s.tasks[i].Leaving? || s.tasks[i].Thrown?)
       case Collect =>
         && !s.abandoned && s.collected < |s.tasks|
         && (s.tasks[s.collected].Done? || s.tasks[s.collected].Aborted? || s.tasks[s.collected].Starved?)
       case NextBatch => !s.abandoned && s.collected == |s.tasks| && s.batch < |job.batches|
  }

  function SetTask(s: State, i: nat, t: Task): State
    requires i < |s.tasks|
  {
    s.(tasks := s.tasks[i := t])
  }

  function Recorded(job: Job, s: State, ok: bool): State
    requires s.collected < |BatchAt(job, s.batch)|
  {
    var rule := BatchAt(job, s.batch)[s.collected];
    s.(context := s.context[ResultKey(rule) := ok], reports := s.reports + [Verdict(rule.id, ok)], collected := s.collected + 1)
  }

  ghost function Apply(job: Job, s: State, a: Action): State
    requires Enabled(job, s, a)
  {
    var rules := BatchAt(job, s.batch);
    match a
    case Acquire(i, e) => SetTask(s, i, Holding(e)).(pool := s.pool - {e})
    case TimeOut(i) => SetTask(s, i, Starved)
    case Check(i) =>
      var e := s.tasks[i].engine;
      SetTask(s, i, if Met(rules[i], s.context) then Cleared(e) else Leaving(e, false))
    case WriteChild(i, key, ok) => s.(context := s.context[key := ok])
    case Complete(i) =>
      var ok := job.verdict(rules[i].id);
      SetTask(s, i, Leaving(s.tasks[i].engine, ok)).(context := s.context[ResultKey(rules[i]) := ok])
    case Throw(i) => SetTask(s, i, Thrown(s.tasks[i].engine))
    case Release(i) =>
      var t := s.tasks[i];
      SetTask(s, i, if t.Thrown? then Aborted else Done(t.ok)).(pool := s.pool + {t.engine})
    case Collect =>
      var t := s.tasks[s.collected];
      if t.Aborted? then s.(abandoned := true) else Recorded(job, s, t.Done? && t.ok)
    case NextBatch => s.(batch := s.batch + 1, tasks := Launch(BatchAt(job, s.batch + 1)), collected := 0)
  }

  ghost predicate Next(job: Job, s: State, s': State)
  {
    exists a :: Enabled(job, s, a) && s' == Apply(job, s, a)
  }

  ghost predicate StepAt(job: Job, run: seq<State>, i: nat)
    requires i < |run| - 1
  {
    Next(job, run[i], run[i + 1])
  }

  ghost predicate IsRun(job: Job, run: seq<State>)
  {
    && |run| > 0
    && run[0] == Init(job)
    && forall i :: 0 <= i < |run| - 1 ==> StepAt(job, run, i)
  }

  /** Batches fit the pool, hold active top-level rules, and come after the active rules they depend on. */
  ghost predicate Ready(job: Job)
  {
    && Validated(job.rules)
    && (forall b, i {:trigger IsPlanned(job, job.batches[b][i])} :: 0 <= b < |job.batches| && 0 <= i < |job.batches[b]| ==>
          IsPlanned(job, job.batches[b][i]))
    && (forall b :: 0 <= b < |job.batches| ==> |job.batches[b]| <= |job.engines|)
    && (forall b, i, j {:trigger NeedsEarlier(job, b, job.batches[b][i], job.rules[j])} ::
          0 <= b < |job.batches| && 0 <= i < |job.batches[b]| && 0 <= j < |job.rules| ==>
          NeedsEarlier(job, b, job.batches[b][i], job.rules[j]))
  }

  ghost predicate IsPlanned(job: Job, rule: Rule)
  {
    rule in job.rules && rule.active && rule.id in GraphOf(job.rules)
  }

  ghost predicate NeedsEarlier(job: Job, b: nat, rule: Rule, dep: Rule)
  {
    rule.dependsOn == Some(dep.name) && dep.active ==> exists c :: 0 <= c < b && c < |job.batches| && dep in job.batches[c]
  }

  // ----- engines -----

  ghost function Held(tasks: seq<Task>): set<Engine>
  {
    set i | 0 <= i < |tasks| && tasks[i].HasEngine() :: tasks[i].engine
  }

  /** Every engine is in the pool or with exactly one task, and no task ever gave up waiting. */
  ghost predicate EnginesOk(job: Job, s: State)
  {
    && s.pool == job.engines - Held(s.tasks)
    && (forall i :: 0 <= i < |s.tasks| && s.tasks[i].HasEngine() ==> s.tasks[i].engine in job.engines)
    && (forall i, j :: 0 <= i < j < |s.tasks| && s.tasks[i].HasEngine() && s.tasks[j].HasEngine() ==> s.tasks[i].engine != s.tasks[j].engine)
    && (forall i :: 0 <= i < |s.tasks| ==> !s.tasks[i].Starved?)
  }

  lemma {:induction false} HeldAtMost(tasks: seq<Task>)
    ensures |Held(tasks)| <= |tasks|
    ensures (exists i :: 0 <= i < |tasks| && !tasks[i].HasEngine()) ==> |Held(tasks)| < |tasks|
  {
    if tasks != [] {
      var n := |tasks| - 1;
      HeldAtMost(tasks[..n]);
      var now := if tasks[n].HasEngine() then {tasks[n].engine} else {};
      assert Held(tasks) == Held(tasks[..n]) + now by {
        forall e
          ensures e in Held(tasks) <==> e in Held(tasks[..n]) + now
        {
          if e in Held(tasks) {
            var i :| 0 <= i < |tasks| && tasks[i].HasEngine() && tasks[i].engine == e;
            assert i < n ==> tasks[..n][i] == tasks[i];
          }
          if e in Held(tasks[..n]) {
            var i :| 0 <= i < n && tasks[..n][i].HasEngine() && tasks[..n][i].engine == e;
            assert tasks[i].engine == e;
          }
        }
      }
      if i :| 0 <= i < |tasks| && !tasks[i].HasEngine() {
        if i < n {
          assert !tasks[..n][i].HasEngine();
        }
      }
    }
  }

  /** While a task waits, the pool cannot be empty: a batch is never larger than the pool. */
  lemma WaitingFindsEngine(job: Job, s: State, i: nat)
    requires EnginesOk(job, s) && |s.tasks| <= |job.engines| && i < |s.tasks| && s.tasks[i].Waiting?
    ensures s.pool != {}
  {
    HeldAtMost(s.tasks);
    if s.pool == {} {
      forall e | e in job.engines
        ensures e in Held(s.tasks)
      {
        assert e !in s.pool;
      }
      SubsetSize(job.engines, Held(s.tasks));
    }
  }

  lemma HeldUpdate(tasks: seq<Task>, i: nat, t: Task)
    requires i < |tasks|
    requires forall j, k :: 0 <= j < k < |tasks| && tasks[j].HasEngine() && tasks[k].HasEngine() ==> tasks[j].engine != tasks[k].engine
    ensures Held(tasks[i := t]) ==
            Held(tasks) - (if tasks[i].HasEngine() then {tasks[i].engine} else {}) + (if t.HasEngine() then {t.engine} else {})
  {
    var tasks' := tasks[i := t];
    forall e
      ensures e in Held(tasks') <==> e in Held(tasks) - (if tasks[i].HasEngine() then {tasks[i].engine} else {}) + (if t.HasEngine() then {t.engine} else {})
    {
      if e in Held(tasks') {
        var j :| 0 <= j < |tasks'| && tasks'[j].HasEngine() && tasks'[j].engine == e;
        assert j != i ==> tasks[j] == tasks'[j];
      }
      if e in Held(tasks) && !(tasks[i].HasEngine() && tasks[i].engine == e) {
        var j :| 0 <= j < |tasks| && tasks[j].HasEngine() && tasks[j].engine == e;
        assert tasks'[j] == tasks[j];
      }
      if t.HasEngine() && t.engine == e {
        assert tasks'[i] == t;
      }
    }
  }

  lemma SameEngineOk(job: Job, s: State, i: nat, t: Task, context: map<string, bool>)
    requires EnginesOk(job, s) && i < |s.tasks| && s.tasks[i].HasEngine() && t.HasEngine() && t.engine == s.tasks[i].engine
    ensures EnginesOk(job, SetTask(s, i, t).(context := context))
  {
    HeldUpdate(s.tasks, i, t);
    assert s.tasks[i].engine in Held(s.tasks);
  }

  lemma AcquireOk(job: Job, s: State, i: nat, e: Engine)
    requires EnginesOk(job, s) && i < |s.tasks| && s.tasks[i].Waiting? && e in s.pool
    ensures EnginesOk(job, SetTask(s, i, Holding(e)).(pool := s.pool - {e}))
  {
    HeldUpdate(s.tasks, i, Holding(e));
    forall j | 0 <= j < |s.tasks| && s.tasks[j].HasEngine()
      ensures s.tasks[j].engine != e
    {
      assert s.tasks[j].engine in Held(s.tasks);
    }
  }

  lemma ReleaseOk(job: Job, s: State, i: nat, t: Task)
    requires EnginesOk(job, s) && i < |s.tasks| && s.tasks[i].HasEngine() && !t.HasEngine() && !t.Starved?
    ensures EnginesOk(job, SetTask(s, i, t).(pool := s.pool + {s.tasks[i].engine}))
  {
    HeldUpdate(s.tasks, i, t);
  }

  lemma StepKeepsEngines(job: Job, s: State, a: Action)
    requires EnginesOk(job, s) && Enabled(job, s, a) && |s.tasks| <= |job.engines|
    requires a.NextBatch? ==> forall i :: 0 <= i < |s.tasks| ==> !s.tasks[i].HasEngine()
    ensures EnginesOk(job, Apply(job, s, a))
  {
    var s' := Apply(job, s, a);
    match a
    case Acquire(i, e) => AcquireOk(job, s, i, e);
    case TimeOut(i) => WaitingFindsEngine(job, s, i);
    case Check(i) => SameEngineOk(job, s, i, s'.tasks[i], s.context);
    case WriteChild(i, key, ok) =>
    case Complete(i) => SameEngineOk(job, s, i, s'.tasks[i], s'.context);
    case Throw(i) => SameEngineOk(job, s, i, s'.tasks[i], s.context);
    case Release(i) => ReleaseOk(job, s, i, s'.tasks[i]);
    case Collect =>
    case NextBatch => assert Held(s.tasks) == {} && Held(s'.tasks) == {};
  }

  // ----- outcomes -----

  /** The rules collected so far. */
  function DoneRules(job: Job, batch: nat, collected: nat): seq<Rule>
    requires collected <= |BatchAt(job, batch)|
  {
    Flatten(job.batches[..if batch < |job.batches| then batch else |job.batches|]) + BatchAt(job, batch)[..collected]
  }

  /** The report on one rule: its id, and whether its whole chain is active and passes. */
  ghost predicate IsReport(rules: seq<Rule>, verdict: int -> bool, rule: Rule, report: Verdict)
  {
    && Closed(GraphOf(rules)) && rule.id in GraphOf(rules)
    && report == Verdict(rule.id, Passes(rules, verdict, rule.id))
  }

  /** One true report per rule, in order. */
  ghost predicate AreReports(rules: seq<Rule>, verdict: int -> bool, done: seq<Rule>, reports: seq<Verdict>)
  {
    && |reports| == |done|
    && forall i {:trigger IsReport(rules, verdict, done[i], reports[i])} :: 0 <= i < |done| ==> IsReport(rules, verdict, done[i], reports[i])
  }

  lemma OneMoreReport(rules: seq<Rule>, verdict: int -> bool, done: seq<Rule>, reports: seq<Verdict>, rule: Rule, report: Verdict)
    requires AreReports(rules, verdict, done, reports) && IsReport(rules, verdict, rule, report)
    ensures AreReports(rules, verdict, done + [rule], reports + [report])
  {
    var done', reports' := done + [rule], reports + [report];
    forall i | 0 <= i < |done'|
      ensures IsReport(rules, verdict, done'[i], reports'[i])
    {
      if i < |done| {
        assert IsReport(rules, verdict, done[i], reports[i]);
      }
    }
  }

  /** Whatever the context says about a top-level rule is the truth about its whole chain. */
  ghost predicate ContextOk(job: Job, context: map<string, bool>)
    requires Ready(job)
  {
    forall j :: 0 <= j < |job.rules| && ResultKey(job.rules[j]) in context ==>
      job.rules[j].id in GraphOf(job.rules) && context[ResultKey(job.rules[j])] == Passes(job.rules, job.verdict, job.rules[j].id)
  }

  ghost predicate TaskOk(job: Job, rule: Rule, t: Task)
    requires Ready(job)
  {
    && rule.id in GraphOf(job.rules)
    && (t.Cleared? ==> DependencyPasses(job.rules, job.verdict, rule.id))
    && (t.Leaving? || t.Done? ==> t.ok == Passes(job.rules, job.verdict, rule.id))
  }

  ghost predicate AllRecorded(job: Job, s: State)
  {
    && (forall b, i :: 0 <= b < s.batch && b < |job.batches| && 0 <= i < |job.batches[b]| ==> ResultKey(job.batches[b][i]) in s.context)
    && (forall i :: 0 <= i < s.collected && i < |BatchAt(job, s.batch)| ==> ResultKey(BatchAt(job, s.batch)[i]) in s.context)
  }

  ghost predicate Shape(job: Job, s: State)
  {
    && s.batch <= |job.batches|
    && |s.tasks| == |BatchAt(job, s.batch)|
    && s.collected <= |s.tasks|
    && forall i :: 0 <= i < s.collected ==> s.tasks[i].Done? || s.tasks[i].Starved?
  }

  ghost predicate OutcomesOk(job: Job, s: State)
    requires Ready(job) && Shape(job, s)
  {
    && ContextOk(job, s.context)
    && AllRecorded(job, s)
    && forall i :: 0 <= i < |s.tasks| ==> TaskOk(job, BatchAt(job, s.batch)[i], s.tasks[i])
  }

  ghost predicate Inv(job: Job, s: State)
    requires Ready(job)
  {
    && Shape(job, s)
    && EnginesOk(job, s)
    && OutcomesOk(job, s)
  }

  lemma BatchRule(job: Job, b: nat, i: nat)
    requires Ready(job) && i < |BatchAt(job, b)|
    ensures BatchAt(job, b)[i] in job.rules && BatchAt(job, b)[i].active && BatchAt(job, b)[i].id in GraphOf(job.rules)
  {
    assert IsPlanned(job, job.batches[b][i]);
  }

  /** The dependency check of a task gives the answer of the whole chain, however the batch interleaves. */
  lemma CheckIsRight(job: Job, s: State, i: nat)
    requires Ready(job) && Shape(job, s) && OutcomesOk(job, s) && i < |s.tasks|
    ensures BatchAt(job, s.batch)[i].id in GraphOf(job.rules)
    ensures Met(BatchAt(job, s.batch)[i], s.context) <==> DependencyPasses(job.rules, job.verdict, BatchAt(job, s.batch)[i].id)
  {
    var rule := BatchAt(job, s.batch)[i];
    BatchRule(job, s.batch, i);
    InGraph(job.rules, rule);
    if rule.dependsOn.Some? {
      var d: int := GraphOf(job.rules)[rule.id].value;
      var j := ByIdOnly(job.rules, d);
      EdgeIsName(job.rules, rule.id, d);
      var dep := job.rules[j];
      assert ResultKey(dep) == rule.dependsOn.value;
      assert NeedsEarlier(job, s.batch, job.batches[s.batch][i], job.rules[j]);
      PassesStep(job.rules, job.verdict, d);
      if dep.active {
        var c :| 0 <= c < s.batch && c < |job.batches| && dep in job.batches[c];
        var k :| 0 <= k < |job.batches[c]| && job.batches[c][k] == dep;
        assert ResultKey(job.batches[c][k]) in s.context;
      }
    }
  }

  /** Writing the right flag under a rule's key keeps the context right. */
  lemma ContextWrite(job: Job, context: map<string, bool>, rule: Rule, ok: bool)
    requires Ready(job) && ContextOk(job, context) && rule in job.rules && rule.id in GraphOf(job.rules)
    requires ok == Passes(job.rules, job.verdict, rule.id)
    ensures ContextOk(job, context[ResultKey(rule) := ok])
  {
    var i :| 0 <= i < |job.rules| && job.rules[i] == rule;
    forall j | 0 <= j < |job.rules| && ResultKey(job.rules[j]) in context[ResultKey(rule) := ok]
      ensures job.rules[j].id in GraphOf(job.rules)
      ensures context[ResultKey(rule) := ok][ResultKey(job.rules[j])] == Passes(job.rules, job.verdict, job.rules[j].id)
    {
      if i != j {
        assert ResultKey(job.rules[j]) != ResultKey(rule);
      }
    }
  }

  lemma CompleteIsRight(job: Job, s: State, i: nat)
    requires Ready(job) && Shape(job, s) && OutcomesOk(job, s) && i < |s.tasks| && s.tasks[i].Cleared?
    ensures BatchAt(job, s.batch)[i].id in GraphOf(job.rules)
    ensures job.verdict(BatchAt(job, s.batch)[i].id) == Passes(job.rules, job.verdict, BatchAt(job, s.batch)[i].id)
  {
    var rule := BatchAt(job, s.batch)[i];
    BatchRule(job, s.batch, i);
    InGraph(job.rules, rule);
    PassesStep(job.rules, job.verdict, rule.id);
  }

  /** A step of a task leaves the other tasks and the main thread alone. */
  lemma TaskStep(job: Job, s: State, a: Action)
    requires Enabled(job, s, a) && !a.Collect? && !a.NextBatch?
    ensures var s' := Apply(job, s, a);
            && s'.batch == s.batch && s'.collected == s.collected && |s'.tasks| == |s.tasks|
            && a.i < |s.tasks| && !s.tasks[a.i].Done? && !s.tasks[a.i].Starved?
            && forall j :: 0 <= j < |s.tasks| && j != a.i ==> s'.tasks[j] == s.tasks[j]
  {
  }

  lemma StepKeepsShape(job: Job, s: State, a: Action)
    requires Shape(job, s) && Enabled(job, s, a)
    ensures Shape(job, Apply(job, s, a))
  {
    if !a.Collect? && !a.NextBatch? {
      TaskStep(job, s, a);
    }
  }

  lemma StepKeepsContext(job: Job, s: State, a: Action)
    requires Ready(job) && Inv(job, s) && Enabled(job, s, a)
    ensures ContextOk(job, Apply(job, s, a).context)
  {
    var batch := BatchAt(job, s.batch);
    match a
    case Complete(i) =>
      CompleteIsRight(job, s, i);
      BatchRule(job, s.batch, i);
      ContextWrite(job, s.context, batch[i], job.verdict(batch[i].id));
    case Collect =>
      var t := s.tasks[s.collected];
      if t.Done? {
        BatchRule(job, s.batch, s.collected);
        assert TaskOk(job, batch[s.collected], t);
        ContextWrite(job, s.context, batch[s.collected], t.ok);
      }
    case WriteChild(i, key, ok) =>
      forall j | 0 <= j < |job.rules|
        ensures ResultKey(job.rules[j]) != key
      {
      }
    case _ =>
  }

  lemma StepKeepsTasks(job: Job, s: State, a: Action, i: nat)
    requires Ready(job) && Inv(job, s) && Enabled(job, s, a) && i < |Apply(job, s, a).tasks|
    requires Shape(job, Apply(job, s, a))
    ensures BatchAt(job, Apply(job, s, a).batch)[i].id in GraphOf(job.rules)
    ensures TaskOk(job, BatchAt(job, Apply(job, s, a).batch)[i], Apply(job, s, a).tasks[i])
  {
    BatchRule(job, Apply(job, s, a).batch, i);
    if a.NextBatch? {
    } else {
      assert TaskOk(job, BatchAt(job, s.batch)[i], s.tasks[i]);
      if a.Check? && a.i == i {
        CheckIsRight(job, s, i);
        PassesStep(job.rules, job.verdict, BatchAt(job, s.batch)[i].id);
      } else if a.Complete? && a.i == i {
        CompleteIsRight(job, s, i);
      }
    }
  }

  lemma ContextGrows(job: Job, s: State, a: Action)
    requires Enabled(job, s, a)
    ensures forall key :: key in s.context ==> key in Apply(job, s, a).context
  {
  }

  lemma StepKeepsRecorded(job: Job, s: State, a: Action)
    requires Shape(job, s) && AllRecorded(job, s) && Enabled(job, s, a)
    ensures AllRecorded(job, Apply(job, s, a))
  {
    var s' := Apply(job, s, a);
    ContextGrows(job, s, a);
    if a.NextBatch? {
      forall b, i | 0 <= b < s'.batch && b < |job.batches| && 0 <= i < |job.batches[b]|
        ensures ResultKey(job.batches[b][i]) in s'.context
      {
        if b == s.batch {
          assert ResultKey(BatchAt(job, s.batch)[i]) in s.context;
        }
      }
    } else if a.Collect? {
      forall i | 0 <= i < s'.collected && i < |BatchAt(job, s.batch)|
        ensures ResultKey(BatchAt(job, s.batch)[i]) in s'.context
      {
      }
    }
  }

  lemma StepKeepsInv(job: Job, s: State, s': State)
    requires Ready(job) && Inv(job, s) && Next(job, s, s')
    ensures Inv(job, s')
  {
    var a :| Enabled(job, s, a) && s' == Apply(job, s, a);
    StepKeepsEngines(job, s, a);
    StepKeepsShape(job, s, a);
    StepKeepsContext(job, s, a);
    StepKeepsRecorded(job, s, a);
    forall i | 0 <= i < |s'.tasks|
      ensures BatchAt(job, s'.batch)[i].id in GraphOf(job.rules) && TaskOk(job, BatchAt(job, s'.batch)[i], s'.tasks[i])
    {
      StepKeepsTasks(job, s, a, i);
    }
  }

  // ----- reports -----

  lemma FlattenSnoc(batches: seq<seq<Rule>>, last: seq<Rule>)
    ensures Flatten(batches + [last]) == Flatten(batches) + last
  {
    FlattenAppend(batches, [last]);
    assert [last][1..] == [];
  }

  /** The reports so far are the collected rules in order, each with the truth about its chain. */
  ghost predicate ReportsOk(job: Job, s: State)
  {
    Shape(job, s) && AreReports(job.rules, job.verdict, DoneRules(job, s.batch, s.collected), s.reports)
  }

  lemma OneMoreDone(job: Job, batch: nat, collected: nat)
    requires collected < |BatchAt(job, batch)|
    ensures DoneRules(job, batch, collected + 1) == DoneRules(job, batch, collected) + [BatchAt(job, batch)[collected]]
  {
    var whole := Flatten(job.batches[..if batch < |job.batches| then batch else |job.batches|]);
    var rules := BatchAt(job, batch);
    assert rules[..collected + 1] == rules[..collected] + [rules[collected]];
    Regroup(whole, rules[..collected], [rules[collected]]);
  }

  lemma RecordKeepsReports(job: Job, s: State, ok: bool)
    requires ReportsOk(job, s) && s.collected < |BatchAt(job, s.batch)|
    requires IsReport(job.rules, job.verdict, BatchAt(job, s.batch)[s.collected], Verdict(BatchAt(job, s.batch)[s.collected].id, ok))
    requires Shape(job, Recorded(job, s, ok))
    ensures ReportsOk(job, Recorded(job, s, ok))
  {
    var rule := BatchAt(job, s.batch)[s.collected];
    OneMoreReport(job.rules, job.verdict, DoneRules(job, s.batch, s.collected), s.reports, rule, Verdict(rule.id, ok));
    OneMoreDone(job, s.batch, s.collected);
  }

  lemma CollectKeepsReports(job: Job, s: State)
    requires Ready(job) && Inv(job, s) && ReportsOk(job, s) && Enabled(job, s, Collect)
    ensures ReportsOk(job, Apply(job, s, Collect))
  {
    var t := s.tasks[s.collected];
    StepKeepsShape(job, s, Collect);
    if !t.Aborted? {
      BatchRule(job, s.batch, s.collected);
      assert TaskOk(job, BatchAt(job, s.batch)[s.collected], t);
      assert t.Done?;
      assert IsReport(job.rules, job.verdict, BatchAt(job, s.batch)[s.collected], Verdict(BatchAt(job, s.batch)[s.collected].id, t.ok));
      RecordKeepsReports(job, s, t.ok);
    }
  }

  lemma BatchDone(job: Job, b: nat)
    requires b < |job.batches|
    ensures DoneRules(job, b + 1, 0) == DoneRules(job, b, |job.batches[b]|)
  {
    FlattenSnoc(job.batches[..b], job.batches[b]);
    assert job.batches[..b] + [job.batches[b]] == job.batches[..b + 1];
    assert job.batches[b][..|job.batches[b]|] == job.batches[b];
  }

  lemma NextBatchKeepsReports(job: Job, s: State)
    requires ReportsOk(job, s) && Enabled(job, s, NextBatch)
    ensures ReportsOk(job, Apply(job, s, NextBatch))
  {
    BatchDone(job, s.batch);
  }

  lemma StepKeepsReports(job: Job, s: State, s': State)
    requires Ready(job) && Inv(job, s) && ReportsOk(job, s) && Next(job, s, s') && Shape(job, s')
    ensures ReportsOk(job, s')
  {
    var a :| Enabled(job, s, a) && s' == Apply(job, s, a);
    if a.Collect? {
      CollectKeepsReports(job, s);
    } else if a.NextBatch? {
      NextBatchKeepsReports(job, s);
    } else {
      SilentStep(job, s, a);
      SameReports(job, s, s');
    }
  }

  lemma SilentStep(job: Job, s: State, a: Action)
    requires Enabled(job, s, a) && !a.Collect? && !a.NextBatch?
    ensures var s' := Apply(job, s, a); s'.reports == s.reports && s'.batch == s.batch && s'.collected == s.collected
  {
  }

  lemma SameReports(job: Job, s: State, s': State)
    requires ReportsOk(job, s) && Shape(job, s')
    requires s'.reports == s.reports && s'.batch == s.batch && s'.collected == s.collected
    ensures ReportsOk(job, s')
  {
  }

  lemma RunStep(job: Job, run: seq<State>, i: nat)
    requires IsRun(job, run) && 0 < i < |run|
    ensures Next(job, run[i - 1], run[i])
  {
    assert StepAt(job, run, i - 1);
  }

  lemma StepKeepsAll(job: Job, s: State, s': State)
    requires Ready(job) && Inv(job, s) && ReportsOk(job, s) && Next(job, s, s')
    ensures Inv(job, s') && ReportsOk(job, s')
  {
    StepKeepsInv(job, s, s');
    StepKeepsReports(job, s, s');
  }

  lemma RunStepKeepsAll(job: Job, run: seq<State>, i: nat)
    requires Ready(job) && IsRun(job, run) && 0 < i < |run|
    requires Inv(job, run[i - 1]) && ReportsOk(job, run[i - 1])
    ensures Inv(job, run[i]) && ReportsOk(job, run[i])
  {
    RunStep(job, run, i);
    StepKeepsAll(job, run[i - 1], run[i]);
  }

  lemma {:induction false} RunKeepsInv(job: Job, run: seq<State>, i: nat)
    requires Ready(job) && IsRun(job, run) && i < |run|
    ensures Inv(job, run[i]) && ReportsOk(job, run[i])
  {
    if i == 0 {
      InitInv(job);
    } else {
      RunKeepsInv(job, run, i - 1);
      RunStepKeepsAll(job, run, i);
    }
  }

  lemma InitInv(job: Job)
    requires Ready(job)
    ensures Inv(job, Init(job)) && ReportsOk(job, Init(job))
  {
    var s := Init(job);
    assert Held(s.tasks) == {};
    assert job.batches[..0] == [];
    forall i | 0 <= i < |s.tasks|
      ensures BatchAt(job, 0)[i].id in GraphOf(job.rules)
    {
      BatchRule(job, 0, i);
    }
    assert DoneRules(job, 0, 0) == [];
  }

  // ----- main results about one run -----

  /** In every interleaving a waiting task can acquire an engine at once, and no task is ever turned away. */
  lemma NoTaskStarves(job: Job, run: seq<State>, i: nat, t: nat)
    requires Ready(job) && IsRun(job, run) && i < |run| && t < |run[i].tasks|
    ensures !run[i].tasks[t].Starved?
    ensures run[i].tasks[t].Waiting? ==> run[i].pool != {}
  {
    RunKeepsInv(job, run, i);
    if run[i].tasks[t].Waiting? {
      WaitingFindsEngine(job, run[i], t);
    }
  }

  /** Once all tasks of a batch have left, normally or by an exception, the pool holds exactly its original engines. */
  lemma PoolRestored(job: Job, run: seq<State>, i: nat)
    requires Ready(job) && IsRun(job, run) && i < |run|
    requires forall t :: 0 <= t < |run[i].tasks| ==> run[i].tasks[t].Done? || run[i].tasks[t].Aborted?
    ensures run[i].pool == job.engines
  {
    RunKeepsInv(job, run, i);
    assert Held(run[i].tasks) == {};
  }

  /** A run that is not abandoned ends with one report per active rule, in level order, each telling whether the rule's whole chain is active and passes. */
  lemma ParallelReportsPassing(job: Job, run: seq<State>, i: nat)
    requires Ready(job) && IsRun(job, run) && i < |run| && run[i].batch == |job.batches|
    ensures AreReports(job.rules, job.verdict, Flatten(job.batches), run[i].reports)
    ensures run[i].pool == job.engines
  {
    RunKeepsInv(job, run, i);
    assert job.batches[..|job.batches|] == job.batches;
    assert DoneRules(job, run[i].batch, run[i].collected) == Flatten(job.batches);
    PoolRestored(job, run, i);
  }

  /** The final context tells of every reported rule what its report says. */
  lemma ContextTellsReports(job: Job, run: seq<State>, i: nat, k: nat)
    requires Ready(job) && IsRun(job, run) && i < |run| && run[i].batch == |job.batches| && k < |Flatten(job.batches)|
    ensures |run[i].reports| == |Flatten(job.batches)|
    ensures var key := ResultKey(Flatten(job.batches)[k]); key in run[i].context && run[i].context[key] == run[i].reports[k].ok
  {
    ParallelReportsPassing(job, run, i);
    RunKeepsInv(job, run, i);
    var rule := Flatten(job.batches)[k];
    assert IsReport(job.rules, job.verdict, rule, run[i].reports[k]);
    var b, j := FlattenSplit(job.batches, k);
    BatchRule(job, b, j);
    var m :| 0 <= m < |job.rules| && job.rules[m] == rule;
  }

  // ----- a run can always be completed -----

  function Last(run: seq<State>): State
    requires |run| > 0
  {
    run[|run| - 1]
  }

  ghost predicate Continues(job: Job, run: seq<State>, longer: seq<State>)
  {
    IsRun(job, run) && IsRun(job, longer) && run <= longer
  }

  lemma Do(job: Job, run: seq<State>, a: Action) returns (longer: seq<State>)
    requires IsRun(job, run) && Enabled(job, Last(run), a)
    ensures Continues(job, run, longer) && Last(longer) == Apply(job, Last(run), a)
  {
    var s := Apply(job, Last(run), a);
    longer := run + [s];
    assert Next(job, Last(run), s);
    forall i | 0 <= i < |longer| - 1
      ensures StepAt(job, longer, i)
    {
      assert i < |run| - 1 ==> StepAt(job, run, i);
    }
  }

  /** No rule has thrown. */
  ghost predicate Calm(s: State)
  {
    !s.abandoned && forall t :: 0 <= t < |s.tasks| ==> !s.tasks[t].Thrown? && !s.tasks[t].Aborted?
  }

  /** The same batch, as far along for the main thread. */
  ghost predicate SameStage(s: State, s': State)
  {
    s'.batch == s.batch && s'.collected == s.collected && |s'.tasks| == |s.tasks| && s'.reports == s.reports
  }

  lemma {:induction false} TaskCanEnd(job: Job, run: seq<State>, i: nat) returns (longer: seq<State>)
    requires Ready(job) && IsRun(job, run) && Calm(Last(run)) && i < |Last(run).tasks|
    ensures Continues(job, run, longer) && Calm(Last(longer)) && SameStage(Last(run), Last(longer)) && Last(longer).tasks[i].Done?
    decreases TaskStepsLeft(Last(run).tasks[i])
  {
    if Last(run).tasks[i].Done? {
      longer := run;
    } else {
      var a := EveryTaskCanProceed(job, run, |run| - 1, i);
      TaskStep(job, Last(run), a);
      longer := Do(job, run, a);
      longer := TaskCanEnd(job, longer, i);
    }
  }

  ghost function TaskStepsLeft(t: Task): nat
  {
    match t
    case Waiting => 4
    case Holding(_) => 3
    case Cleared(_) => 2
    case Leaving(_, _) => 1
    case Thrown(_) => 1
    case _ => 0
  }

  /** In every state of every run each task that has not ended can take its next step, whatever the other tasks are doing. */
  lemma EveryTaskCanProceed(job: Job, run: seq<State>, i: nat, t: nat) returns (a: Action)
    requires Ready(job) && IsRun(job, run) && i < |run| && t < |run[i].tasks|
    requires !run[i].tasks[t].Done? && !run[i].tasks[t].Aborted?
    ensures Enabled(job, run[i], a) && (a.Acquire? || a.Check? || a.Complete? || a.Release?) && a.i == t
    ensures var s, s' := run[i], Apply(job, run[i], a);
            && |s'.tasks| == |s.tasks| && TaskStepsLeft(s'.tasks[t]) < TaskStepsLeft(s.tasks[t])
            && (s.tasks[t].Thrown? <==> s'.tasks[t].Aborted?) && !s'.tasks[t].Thrown?
            && s'.abandoned == s.abandoned && s'.reports == s.reports
  {
    var s := run[i];
    RunKeepsInv(job, run, i);
    a := if s.tasks[t].Holding? then Check(t) else if s.tasks[t].Cleared? then Complete(t) else Release(t);
    if s.tasks[t].Waiting? {
      WaitingFindsEngine(job, s, t);
      var e := Member(s.pool);
      a := Acquire(t, e);
    }
  }

  /**
   From any state of any run in which no rule has thrown, the run can be completed: no task and
   no batch is ever stuck.
   */
  lemma {:induction false} RunsCanFinish(job: Job, run: seq<State>) returns (longer: seq<State>)
    requires Ready(job) && IsRun(job, run) && Calm(Last(run))
    ensures Continues(job, run, longer) && Last(longer).batch == |job.batches|
    decreases |job.batches| - Last(run).batch, |Last(run).tasks| - Last(run).collected
  {
    var s := Last(run);
    RunKeepsInv(job, run, |run| - 1);
    if s.batch == |job.batches| {
      longer := run;
    } else if s.collected < |s.tasks| {
      longer := TaskCanEnd(job, run, s.collected);
      RunKeepsInv(job, longer, |longer| - 1);
      longer := Do(job, longer, Collect);
      longer := RunsCanFinish(job, longer);
    } else {
      longer := Do(job, run, NextBatch);
      longer := RunsCanFinish(job, longer);
    }
  }

  // ----- the batches of a levelled workflow -----

  function ActiveOnly(rules: seq<Rule>): seq<Rule>
  {
    if rules == [] then [] else (if rules[0].active then [rules[0]] else []) + ActiveOnly(rules[1..])
  }

  lemma {:induction false} ActiveMember(rules: seq<Rule>, x: Rule)
    ensures x in ActiveOnly(rules) <==> x in rules && x.active
  {
    if rules != [] {
      ActiveMember(rules[1..], x);
    }
  }

  function Chunks(rules: seq<Rule>, size: nat): (r: seq<seq<Rule>>)
    requires size > 0
    ensures forall b :: 0 <= b < |r| ==> 0 < |r[b]| <= size
  {
    if rules == [] then []
    else if |rules| <= size then [rules]
    else [rules[..size]] + Chunks(rules[size..], size)
  }

  function Batches(levels: seq<seq<Rule>>, size: nat): (r: seq<seq<Rule>>)
    requires size > 0
    ensures forall b :: 0 <= b < |r| ==> 0 < |r[b]| <= size
  {
    if levels == [] then [] else Chunks(ActiveOnly(levels[0]), size) + Batches(levels[1..], size)
  }

  /** The rules of a level that actually run. */
  method GatherPending(level: seq<Rule>) returns (pending: seq<Rule>)
    ensures pending == ActiveOnly(level)
  {
    pending := [];
    for i := 0 to |level|
      invariant pending + ActiveOnly(level[i..]) == ActiveOnly(level)
    {
      assert level[i..][1..] == level[i + 1..];
      if level[i].active {
        Regroup(pending, [level[i]], ActiveOnly(level[i + 1..]));
        pending := pending + [level[i]];
      }
    }
    assert level[|level|..] == [];
  }

  /** Cutting the pending rules to the size of the pool. */
  method CutBatches(pending: seq<Rule>, size: nat) returns (batches: seq<seq<Rule>>)
    requires size > 0
    ensures batches == Chunks(pending, size)
  {
    batches := [];
    var offset := 0;
    ghost var rest := pending;
    while offset < |pending|
      invariant 0 <= offset
      invariant rest == if offset < |pending| then pending[offset..] else []
      invariant batches + Chunks(rest, size) == Chunks(pending, size)
    {
      var end := if offset + size < |pending| then offset + size else |pending|;
      ChunkStep(pending, offset, size, end);
      batches := batches + [pending[offset..end]];
      offset := offset + size;
      rest := pending[end..];
    }
  }

  lemma BatchStep(levels: seq<seq<Rule>>, k: nat, size: nat, before: seq<seq<Rule>>, cut: seq<seq<Rule>>)
    requires size > 0 && k < |levels| && cut == Chunks(ActiveOnly(levels[k]), size)
    ensures before + Batches(levels[k..], size) == (before + cut) + Batches(levels[k + 1..], size)
  {
    assert levels[k..][0] == levels[k] && levels[k..][1..] == levels[k + 1..];
    assert Batches(levels[k..], size) == cut + Batches(levels[k + 1..], size);
  }

  method PlanBatches(levels: seq<seq<Rule>>, poolSize: nat) returns (batches: seq<seq<Rule>>)
    ensures batches == Batches(levels, if poolSize > 1 then poolSize else 1)
  {
    var size := if poolSize > 1 then poolSize else 1;
    batches := [];
    for k := 0 to |levels|
      invariant batches + Batches(levels[k..], size) == Batches(levels, size)
    {
      var pending := GatherPending(levels[k]);
      var cut := CutBatches(pending, size);
      BatchStep(levels, k, size, batches, cut);
      batches := batches + cut;
    }
    assert levels[|levels|..] == [];
  }

  lemma ChunkStep(pending: seq<Rule>, offset: nat, size: nat, end: nat)
    requires size > 0 && offset < |pending| && end == if offset + size < |pending| then offset + size else |pending|
    ensures Chunks(pending[offset..], size) == [pending[offset..end]] + Chunks(pending[end..], size)
  {
    if offset + size < |pending| {
      assert pending[offset..][..size] == pending[offset..end];
      assert pending[offset..][size..] == pending[end..];
    } else {
      assert pending[offset..end] == pending[offset..];
      assert pending[end..] == [];
    }
  }

  lemma {:induction false} ChunksFlatten(rules: seq<Rule>, size: nat)
    requires size > 0
    ensures Flatten(Chunks(rules, size)) == rules
  {
    if rules != [] && |rules| > size {
      ChunksFlatten(rules[size..], size);
      assert Chunks(rules, size)[1..] == Chunks(rules[size..], size);
    } else if rules != [] {
      assert [rules][1..] == [];
    }
  }

  /** Within a level every batch but the last has the size of the pool. */
  lemma {:induction false} ChunksAreFull(rules: seq<Rule>, size: nat, b: nat)
    requires size > 0 && b < |Chunks(rules, size)|
    ensures b < |Chunks(rules, size)| - 1 ==> |Chunks(rules, size)[b]| == size
  {
    if |rules| > size && b > 0 {
      ChunksAreFull(rules[size..], size, b - 1);
    }
  }

  lemma {:induction false} FlattenAppend(a: seq<seq<Rule>>, b: seq<seq<Rule>>)
    ensures Flatten(a + b) == Flatten(a) + Flatten(b)
  {
    if a == [] {
      assert a + b == b;
    } else {
      FlattenAppend(a[1..], b);
      assert (a + b)[1..] == a[1..] + b;
      Regroup(a[0], Flatten(a[1..]), Flatten(b));
    }
  }

  lemma {:induction false} ActiveAppend(a: seq<Rule>, b: seq<Rule>)
    ensures ActiveOnly(a + b) == ActiveOnly(a) + ActiveOnly(b)
  {
    if a == [] {
      assert a + b == b;
    } else {
      var first := if a[0].active then [a[0]] else [];
      ActiveAppend(a[1..], b);
      assert (a + b)[1..] == a[1..] + b;
      Regroup(first, ActiveOnly(a[1..]), ActiveOnly(b));
    }
  }

  /** Batching only regroups: nothing is lost, repeated or reordered. */
  lemma {:induction false} BatchesFlatten(levels: seq<seq<Rule>>, size: nat)
    requires size > 0
    ensures Flatten(Batches(levels, size)) == ActiveOnly(Flatten(levels))
  {
    if levels != [] {
      BatchesFlatten(levels[1..], size);
      ChunksFlatten(ActiveOnly(levels[0]), size);
      FlattenAppend(Chunks(ActiveOnly(levels[0]), size), Batches(levels[1..], size));
      ActiveAppend(levels[0], Flatten(levels[1..]));
    }
  }

  lemma {:induction false} FlattenFrom(batches: seq<seq<Rule>>, r: Rule) returns (c: nat)
    requires r in Flatten(batches)
    ensures c < |batches| && r in batches[c]
  {
    if r in batches[0] {
      c := 0;
    } else {
      c := FlattenFrom(batches[1..], r);
      c := c + 1;
    }
  }

  lemma FirstBatches(levels: seq<seq<Rule>>, size: nat, b: nat, x: Rule)
    requires size > 0 && levels != [] && x in levels[0] && x.active && b >= |Chunks(ActiveOnly(levels[0]), size)|
    ensures InEarlierBatch(Batches(levels, size), b, x)
  {
    var first := Chunks(ActiveOnly(levels[0]), size);
    ActiveMember(levels[0], x);
    ChunksFlatten(ActiveOnly(levels[0]), size);
    var c := FlattenFrom(first, x);
    assert Batches(levels, size)[c] == first[c];
  }

  lemma ShiftBatch(first: seq<seq<Rule>>, rest: seq<seq<Rule>>, b: nat, x: Rule)
    requires b >= |first| && InEarlierBatch(rest, b - |first|, x)
    ensures InEarlierBatch(first + rest, b, x)
  {
    var c :| 0 <= c < b - |first| && c < |rest| && x in rest[c];
    assert (first + rest)[|first| + c] == rest[c];
  }

  /** A batch belongs to one level, and all active rules of earlier levels are in earlier batches. */
  lemma {:induction false} BatchLevel(levels: seq<seq<Rule>>, size: nat, b: nat) returns (k: nat)
    requires size > 0 && b < |Batches(levels, size)|
    ensures k < |levels|
    ensures forall r :: r in Batches(levels, size)[b] ==> r in levels[k] && r.active
    ensures forall m, x :: 0 <= m < k && x in levels[m] && x.active ==> InEarlierBatch(Batches(levels, size), b, x)
  {
    var first := Chunks(ActiveOnly(levels[0]), size);
    if b < |first| {
      k := 0;
      forall r | r in first[b]
        ensures r in levels[0] && r.active
      {
        ChunksFlatten(ActiveOnly(levels[0]), size);
        FlattenHas(first, b, r);
        ActiveMember(levels[0], r);
      }
    } else {
      var rest := Batches(levels[1..], size);
      k := BatchLevel(levels[1..], size, b - |first|);
      assert Batches(levels, size)[b] == rest[b - |first|];
      forall m, x | 0 <= m < k + 1 && x in levels[m] && x.active
        ensures InEarlierBatch(Batches(levels, size), b, x)
      {
        if m == 0 {
          FirstBatches(levels, size, b, x);
        } else {
          assert x in levels[1..][m - 1];
          ShiftBatch(first, rest, b, x);
        }
      }
      k := k + 1;
    }
  }

  ghost predicate InEarlierBatch(batches: seq<seq<Rule>>, b: nat, x: Rule)
  {
    exists c :: 0 <= c < b && c < |batches| && x in batches[c]
  }

  /** The plan made from a workflow's levels meets everything a run relies on. */
  lemma PlanIsReady(job: Job, levels: seq<seq<Rule>>)
    requires Validated(job.rules) && Layered(GraphOf(job.rules), job.rules, levels)
    requires job.engines != {} && job.batches == Batches(levels, |job.engines|)
    ensures Ready(job)
  {
    forall b, i | 0 <= b < |job.batches| && 0 <= i < |job.batches[b]|
      ensures job.batches[b][i] in job.rules && job.batches[b][i].active && job.batches[b][i].id in GraphOf(job.rules)
      ensures forall j :: 0 <= j < |job.rules| ==> NeedsEarlier(job, b, job.batches[b][i], job.rules[j])
    {
      PlannedRule(job.rules, levels, job, b, job.batches[b][i]);
    }
  }

  lemma PlannedRule(rules: seq<Rule>, levels: seq<seq<Rule>>, job: Job, b: nat, rule: Rule)
    requires Validated(rules) && Layered(GraphOf(rules), rules, levels) && job.engines != {}
    requires job.rules == rules && job.batches == Batches(levels, |job.engines|) && b < |job.batches| && rule in job.batches[b]
    ensures rule in rules && rule.active && rule.id in GraphOf(rules)
    ensures forall j :: 0 <= j < |rules| ==> NeedsEarlier(job, b, rule, rules[j])
  {
    var k := BatchLevel(levels, |job.engines|, b);
    assert IsStratum(GraphOf(rules), rules, levels[k], k);
    SortedStratum(GraphOf(rules), rules, k, rule);
    InGraph(rules, rule);
    forall j | 0 <= j < |rules|
      ensures NeedsEarlier(job, b, rule, rules[j])
    {
      if rule.dependsOn == Some(rules[j].name) && rules[j].active {
        DependencyIsEarlier(rules, levels, rule, rules[j], k);
        assert InEarlierBatch(job.batches, b, rules[j]);
      }
    }
  }

  // ----- sequential and parallel execution agree -----

  ghost predicate SucceedsSequentially<W>(oracle: Oracle<W>, levels: seq<seq<Rule>>, world: W, id: int)
  {
    HasSuccess(Pass(oracle, Flatten(levels), Env(map[], world), false).results, id)
  }

  /** The active rule `id` of the workflow, with a chain that passes. */
  ghost predicate PassingRule(rules: seq<Rule>, order: seq<Rule>, verdict: int -> bool, id: int)
    requires Closed(GraphOf(rules))
  {
    id in GraphOf(rules) && Passes(rules, verdict, id) && exists r :: r in order && r.active && r.id == id
  }

  lemma ParallelIffPassing(job: Job, order: seq<Rule>, reports: seq<Verdict>, id: int)
    requires Closed(GraphOf(job.rules)) && AreReports(job.rules, job.verdict, ActiveOnly(order), reports)
    ensures Verdict(id, true) in reports <==> PassingRule(job.rules, order, job.verdict, id)
  {
    var active := ActiveOnly(order);
    if Verdict(id, true) in reports {
      var i :| 0 <= i < |active| && reports[i] == Verdict(id, true);
      assert IsReport(job.rules, job.verdict, active[i], reports[i]);
      ActiveMember(order, active[i]);
    }
    if PassingRule(job.rules, order, job.verdict, id) {
      var r :| r in order && r.active && r.id == id;
      ActiveMember(order, r);
      var i :| 0 <= i < |active| && active[i] == r;
      assert IsReport(job.rules, job.verdict, active[i], reports[i]);
    }
  }

  lemma SequentialIffPassing<W(!new)>(oracle: Oracle<W>, rules: seq<Rule>, levels: seq<seq<Rule>>, verdict: int -> bool, world: W, id: int)
    requires Validated(rules) && Layered(GraphOf(rules), rules, levels) && Steady(oracle, rules, verdict)
    ensures SucceedsSequentially(oracle, levels, world, id) <==> PassingRule(rules, Flatten(levels), verdict, id)
  {
    var order := Flatten(levels);
    SequentialReportsPassing(oracle, rules, levels, verdict, world);
    ResultsIffPassing(rules, order, verdict, Pass(oracle, order, Env(map[], world), false).results, id);
  }

  ghost predicate HasSuccess(results: seq<RuleResult>, id: int)
  {
    exists j :: 0 <= j < |results| && results[j].ruleId == id && results[j].IsSuccess()
  }

  lemma ResultsIffPassing(rules: seq<Rule>, order: seq<Rule>, verdict: int -> bool, results: seq<RuleResult>, id: int)
    requires Closed(GraphOf(rules)) && forall i :: 0 <= i < |order| ==> order[i].id in GraphOf(rules)
    requires Matches(rules, verdict, results, Reported(rules, verdict, order))
    ensures HasSuccess(results, id) <==> PassingRule(rules, order, verdict, id)
  {
    var reported := Reported(rules, verdict, order);
    if HasSuccess(results, id) {
      var j :| 0 <= j < |results| && results[j].ruleId == id && results[j].IsSuccess();
      assert reported[j] in reported;
    }
    if PassingRule(rules, order, verdict, id) {
      var r :| r in order && r.active && r.id == id;
      PassesStep(rules, verdict, id);
      assert r in reported;
      var j :| 0 <= j < |reported| && reported[j] == r;
      assert results[j].ruleId == id && results[j].IsSuccess();
    }
  }

  lemma ParallelSucceeds(job: Job, run: seq<State>, order: seq<Rule>, id: int)
    requires Ready(job) && IsRun(job, run) && run[|run| - 1].batch == |job.batches|
    requires Flatten(job.batches) == ActiveOnly(order)
    ensures |run[|run| - 1].reports| == |ActiveOnly(order)|
    ensures Verdict(id, true) in run[|run| - 1].reports <==> PassingRule(job.rules, order, job.verdict, id)
  {
    ParallelReportsPassing(job, run, |run| - 1);
    ParallelIffPassing(job, order, run[|run| - 1].reports, id);
  }

  /**
   For a validated workflow without cycles and any interleaving of a finished parallel run:
   there is one report per active rule, and the rules reported successful are exactly those
   that sequential execution reports successful.
   */
  lemma ExecutionsAgree<W(!new)>(job: Job, levels: seq<seq<Rule>>, oracle: Oracle<W>, world: W, run: seq<State>, id: int)
    requires Validated(job.rules) && Layered(GraphOf(job.rules), job.rules, levels) && Steady(oracle, job.rules, job.verdict)
    requires job.engines != {} && job.batches == Batches(levels, |job.engines|)
    requires IsRun(job, run) && run[|run| - 1].batch == |job.batches|
    ensures |run[|run| - 1].reports| == |ActiveOnly(Flatten(levels))|
    ensures Verdict(id, true) in run[|run| - 1].reports <==> SucceedsSequentially(oracle, levels, world, id)
  {
    PlanIsReady(job, levels);
    BatchesFlatten(levels, |job.engines|);
    ParallelSucceeds(job, run, Flatten(levels), id);
    SequentialIffPassing(oracle, job.rules, levels, job.verdict, world, id);
  }
}
