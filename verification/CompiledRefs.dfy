/** Compiled references: the per-engine records a rule keeps, and the reference registry of an engine, which starts numbering at 1 again after every reset. */
module CompiledRefs {
  import opened Common
  import opened Text

  // The fingerprint of a rule's source is modelled by the source itself, that is, the hash is
  // taken to be free of collisions.  An engine with automatic resets measures the memory of its
  // Lua state before each compilation and may reset itself in the middle of compiling a rule.
  // What it measures is a function of its numbering, which no two measurements of one engine
  // share, so every sequence of measurements is covered.

  datatype Chunk = ExpressionChunk(source: string) | ActionChunk(source: string)

  /** What the foreign code decides: which texts pass the validator and which ones Lua can load. */
  datatype Toolchain = Toolchain(
    validates: string -> bool,
    loadsExpression: string -> bool,
    loadsAction: string -> bool,
    maxLength: nat)

  predicate TooLong(tools: Toolchain, s: string)
  {
    tools.maxLength > 0 && |s| > tools.maxLength
  }

  /** Where the numbering of an engine stands. */
  datatype Clock = Clock(generation: nat, nextRef: int)

  /** What never changes about an engine: its tools, and when it finds its memory over the threshold. */
  datatype Setup = Setup(tools: Toolchain, autoReset: bool, over: Clock -> bool)
  {
    predicate Resets(c: Clock)
    {
      autoReset && over(c)
    }

    /** One compilation: a reset starts a new generation, in which the first number is taken. */
    function Tick(c: Clock): Clock
    {
      if Resets(c) then Clock(c.generation + 1, 2) else Clock(c.generation, c.nextRef + 1)
    }
  }

  /** A later state of an engine: within one generation references are only ever added. */
  ghost predicate Extends(g: nat, registry: map<int, Chunk>, g': nat, registry': map<int, Chunk>)
  {
    && g <= g'
    && (g == g' ==> forall ref :: ref in registry ==> ref in registry' && registry'[ref] == registry[ref])
  }

  class LuaEngine {
    const instanceId: nat
    const setup: Setup
    var generation: nat
    var nextRef: int
    var registry: map<int, Chunk>

    ghost predicate Valid()
      reads this
    {
      nextRef >= 1 && forall ref :: ref in registry ==> 1 <= ref < nextRef
    }

    function Now(): Clock
      reads this
    {
      Clock(generation, nextRef)
    }

    constructor (instanceId: nat, setup: Setup)
      ensures Valid() && this.instanceId == instanceId && this.setup == setup
      ensures Now() == Clock(0, 1) && registry == map[]
    {
      this.instanceId, this.setup := instanceId, setup;
      generation, nextRef, registry := 0, 1, map[];
    }

    /** Throws every reference away and starts numbering again. */
    method ResetState()
      modifies this
      ensures Valid() && Now() == Clock(old(generation) + 1, 1) && registry == map[]
    {
      generation := generation + 1;
      registry := map[];
      nextRef := 1;
    }

    twostate predicate Grew()
      reads this
    {
      Extends(old(generation), old(registry), generation, registry)
    }

    /** The memory check before compiling, then a fresh reference for the chunk if Lua can load it. */
    method Allocate(chunk: Chunk, loads: bool) returns (r: Result<Option<int>>)
      requires Valid()
      modifies this
      ensures Valid() && Grew() && Now() == setup.Tick(old(Now()))
      ensures r.Success? <==> loads
      ensures r.Success? ==> r.value.Some? && Points(registry, r.value.value, chunk)
    {
      if setup.autoReset {
        if setup.over(Now()) {
          ResetState();
        }
      }
      var ref := nextRef;
      nextRef := nextRef + 1;
      if !loads {
        return Failure("Compilation failed");
      }
      registry := registry[ref := chunk];
      return Success(Some(ref));
    }

    method CompileExpression(expression: string) returns (r: Result<Option<int>>)
      requires Valid()
      modifies this
      ensures Valid() && Grew()
      ensures Now() == if TooLong(setup.tools, expression) || IsBlank(expression) then old(Now()) else setup.Tick(old(Now()))
      ensures r.Failure? <==>
        (setup.tools.maxLength > 0 && |expression| > setup.tools.maxLength) || (!IsBlank(expression) && !setup.tools.loadsExpression(expression))
      ensures r.Success? ==> (r.value.None? <==> IsBlank(expression))
      ensures r.Success? && r.value.Some? ==> Points(registry, r.value.value, ExpressionChunk(expression))
    {
      if TooLong(setup.tools, expression) {
        return Failure("Expression exceeds maximum length");
      }
      if IsBlank(expression) {
        return Success(None);
      }
      r := Allocate(ExpressionChunk(expression), setup.tools.loadsExpression(expression));
    }

    method CompileAction(action: string) returns (r: Result<Option<int>>)
      requires Valid()
      modifies this
      ensures Valid() && Grew()
      ensures Now() == if action == "" || TooLong(setup.tools, action) then old(Now()) else setup.Tick(old(Now()))
      ensures r.Failure? <==>
        action != "" && ((setup.tools.maxLength > 0 && |action| > setup.tools.maxLength) || !setup.tools.loadsAction(action))
      ensures r.Success? ==> (r.value.None? <==> action == "")
      ensures r.Success? && r.value.Some? ==> Points(registry, r.value.value, ActionChunk(action))
    {
      if action == "" {
        return Success(None);
      }
      if TooLong(setup.tools, action) {
        return Failure("Action exceeds maximum length");
      }
      r := Allocate(ActionChunk(action), setup.tools.loadsAction(action));
    }
  }

  datatype Compilation = Compilation(
    expressionRef: Option<int>,
    actionRef: Option<int>,
    generation: nat,
    expression: string,
    action: string)

  ghost predicate Points(registry: map<int, Chunk>, ref: int, chunk: Chunk)
  {
    ref in registry && registry[ref] == chunk
  }

  /** A current record points at chunks of exactly the source it was made from. */
  ghost predicate RefsOk(c: Compilation, registry: map<int, Chunk>)
  {
    && (c.expressionRef.Some? ==> Points(registry, c.expressionRef.value, ExpressionChunk(c.expression)))
    && (c.actionRef.Some? ==> Points(registry, c.actionRef.value, ActionChunk(c.action)))
  }

  ghost predicate RecordOk(c: Compilation, generation: nat, registry: map<int, Chunk>)
  {
    && c.generation <= generation
    && (c.generation == generation ==> RefsOk(c, registry))
    && (c.expressionRef.None? <==> IsBlank(c.expression))
    && (c.actionRef.None? <==> c.action == "")
  }

  // ----- what a compilation does, as a function of the state before it -----

  /** Whether an attempt succeeds, where it leaves the numbering, and which rules then have a usable record. */
  datatype Progress = Progress(ok: bool, clock: Clock, current: set<CompiledRule>)

  /** A new generation leaves no record usable. */
  ghost function Advance(p: Progress, ok: bool, clock: Clock): Progress
  {
    Progress(ok, clock, if clock.generation == p.clock.generation then p.current else {})
  }

  ghost function CompilingExpression(setup: Setup, expression: string, p: Progress): Progress
  {
    if expression == "" then p.(ok := true)
    else if !setup.tools.validates(expression) || TooLong(setup.tools, expression) then p.(ok := false)
    else if IsBlank(expression) then p.(ok := true)
    else Advance(p, setup.tools.loadsExpression(expression), setup.Tick(p.clock))
  }

  ghost function CompilingAction(setup: Setup, action: string, p: Progress): Progress
  {
    if action == "" then p.(ok := true)
    else if !setup.tools.validates(action) || TooLong(setup.tools, action) then p.(ok := false)
    else Advance(p, setup.tools.loadsAction(action), setup.Tick(p.clock))
  }

  ghost function CompilingOwn(setup: Setup, rule: CompiledRule, p: Progress): Progress
    reads rule`expression, rule`action
  {
    var half := CompilingExpression(setup, rule.expression, p);
    if half.ok then CompilingAction(setup, rule.action, half) else half
  }

  ghost function Compiling(setup: Setup, all: set<CompiledRule>, rule: CompiledRule, p: Progress): Progress
    requires Family(all) && rule in all
    reads all`expression, all`action
    decreases rule.rank, |rule.children| + 1
  {
    if rule in p.current then p.(ok := true)
    else
      var end := CompilingChildren(setup, all, rule, 0, CompilingOwn(setup, rule, p));
      if end.ok && end.clock.generation == p.clock.generation then end.(current := end.current + {rule}) else end
  }

  /** The children from the i-th on, as long as nothing has failed. */
  ghost function CompilingChildren(setup: Setup, all: set<CompiledRule>, rule: CompiledRule, i: nat, p: Progress): Progress
    requires Family(all) && rule in all && i <= |rule.children|
    reads all`expression, all`action
    decreases rule.rank, |rule.children| - i
  {
    if !p.ok || i == |rule.children| then p
    else
      assert rule.Nested(all);
      CompilingChildren(setup, all, rule, i + 1, Compiling(setup, all, rule.children[i], p))
  }

  /** Compiling the rule makes the engine reset itself. */
  ghost predicate ResetsMeanwhile(setup: Setup, all: set<CompiledRule>, rule: CompiledRule, p: Progress)
    requires Family(all) && rule in all
    reads all`expression, all`action
  {
    Compiling(setup, all, rule, p).clock.generation != p.clock.generation
  }

  ghost function MaxRank(rules: seq<CompiledRule>): nat
  {
    if rules == [] then 0
    else
      var n, last := MaxRank(rules[..|rules| - 1]), rules[|rules| - 1].rank;
      if n > last then n else last
  }

  lemma {:induction false} MaxRankBounds(rules: seq<CompiledRule>, i: nat)
    requires i < |rules|
    ensures rules[i].rank <= MaxRank(rules)
  {
    var n := |rules| - 1;
    if i < n {
      MaxRankBounds(rules[..n], i);
    }
  }

  class CompiledRule {
    var expression: string
    var action: string
    const children: seq<CompiledRule>
    ghost const rank: nat
    var compilations: map<nat, Compilation>

    /** Children exist before their parents do, so they are nested finitely. */
    constructor (expression: string, action: string, children: seq<CompiledRule>)
      ensures this.expression == expression && this.action == action && this.children == children
      ensures compilations == map[]
      ensures forall i :: 0 <= i < |children| ==> children[i].rank < rank
    {
      this.expression, this.action, this.children := expression, action, children;
      compilations := map[];
      rank := MaxRank(children) + 1;
      new;
      forall i | 0 <= i < |children|
        ensures children[i].rank < rank
      {
        MaxRankBounds(children, i);
      }
    }

    /** Children come from the same family and are nested finitely. */
    ghost predicate Nested(all: set<CompiledRule>)
    {
      this in all && forall i :: 0 <= i < |children| ==> children[i] in all && children[i].rank < rank
    }

    /** The record for engine `id` is of this generation and was made from the present source. */
    ghost predicate Usable(id: nat, generation: nat)
      reads this
    {
      && id in compilations
      && compilations[id].generation == generation && compilations[id].expression == expression && compilations[id].action == action
    }

    /** The record to use, unless it is missing, from an older generation or made from other source. */
    function Lookup(engine: LuaEngine): Option<Compilation>
      reads this, engine
    {
      if engine.instanceId !in compilations then None
      else
        var c := compilations[engine.instanceId];
        if c.generation != engine.generation || c.expression != expression || c.action != action then None else Some(c)
    }

    /** The rule's own two chunks, and the record to be stored for them. */
    method CompileOwn(engine: LuaEngine, ghost all: set<CompiledRule>) returns (r: Result<Compilation>)
      requires this in all && engine.Valid() && RulesOk(all, engine)
      modifies engine
      ensures engine.Valid() && engine.Grew() && RulesOk(all, engine)
      ensures Snapshot(all, engine, r.Success?) == CompilingOwn(engine.setup, this, old(Snapshot(all, engine, true)))
      ensures r.Success? ==> RecordOk(r.value, engine.generation, engine.registry)
      ensures r.Success? ==> r.value.generation == old(engine.generation) && r.value.expression == expression && r.value.action == action
    {
      var generation := engine.generation;
      ghost var g, registry := engine.generation, engine.registry;
      var expressionRef, actionRef := None, None;
      if expression != "" {
        if !engine.setup.tools.validates(expression) {
          return Failure("Expression validation failed");
        }
        var e := engine.CompileExpression(expression);
        AllStillOk(all, engine, g, registry);
        if e.Failure? {
          return Failure(e.error);
        }
        expressionRef := e.value;
      }
      ghost var half := Compilation(expressionRef, None, generation, expression, "");
      assert RecordOk(half, engine.generation, engine.registry);
      assert Snapshot(all, engine, true) == CompilingExpression(engine.setup, expression, old(Snapshot(all, engine, true)));
      if action != "" {
        if !engine.setup.tools.validates(action) {
          return Failure("Action validation failed");
        }
        g, registry := engine.generation, engine.registry;
        var a := engine.CompileAction(action);
        AllStillOk(all, engine, g, registry);
        StillOk(half, g, registry, engine.generation, engine.registry);
        if a.Failure? {
          return Failure(a.error);
        }
        actionRef := a.value;
      }
      return Success(Compilation(expressionRef, actionRef, generation, expression, action));
    }

    method CompileChildren(engine: LuaEngine, ghost c: Compilation, ghost all: set<CompiledRule>) returns (r: Result<()>)
      requires this in all && engine.Valid() && RulesOk(all, engine) && RecordOk(c, engine.generation, engine.registry)
      modifies engine, all`compilations
      ensures engine.Valid() && engine.Grew() && RulesOk(all, engine) && OnlyRecordsOf(all, engine.instanceId)
      ensures forall x :: x in all && x.rank >= rank ==> x.compilations == old(x.compilations)
      ensures RecordOk(c, engine.generation, engine.registry)
      ensures Snapshot(all, engine, r.Success?) == CompilingChildren(engine.setup, all, this, 0, old(Snapshot(all, engine, true)))
      decreases rank, 0
    {
      ghost var whole := CompilingChildren(engine.setup, all, this, 0, Snapshot(all, engine, true));
      assert Nested(all);
      for i := 0 to |children|
        invariant engine.Valid() && engine.Grew() && RulesOk(all, engine) && OnlyRecordsOf(all, engine.instanceId)
        invariant forall x :: x in all && x.rank >= rank ==> x.compilations == old(x.compilations)
        invariant RecordOk(c, engine.generation, engine.registry)
        invariant CompilingChildren(engine.setup, all, this, i, Snapshot(all, engine, true)) == whole
      {
        ghost var p, registry := Snapshot(all, engine, true), engine.registry;
        var child := children[i].Compile(engine, all);
        StillOk(c, p.clock.generation, registry, engine.generation, engine.registry);
        if child.Failure? {
          return Failure(child.error);
        }
      }
      return Success(());
    }

    /** Storing a record made from the present source makes it usable exactly if its generation is the present one. */
    method StoreRecord(engine: LuaEngine, c: Compilation, ghost all: set<CompiledRule>)
      requires this in all && RulesOk(all, engine) && RecordOk(c, engine.generation, engine.registry)
      requires c.expression == expression && c.action == action && !Usable(engine.instanceId, engine.generation)
      modifies this`compilations
      ensures RulesOk(all, engine) && compilations == old(compilations)[engine.instanceId := c]
      ensures var p := old(Snapshot(all, engine, true));
              Snapshot(all, engine, true) == if c.generation == engine.generation then p.(current := p.current + {this}) else p
    {
      ghost var p := Snapshot(all, engine, true);
      compilations := compilations[engine.instanceId := c];
      assert Snapshot(all, engine, true).current == if c.generation == engine.generation then p.current + {this} else p.current;
    }

    /**
     Compiles this rule and its children into `engine`, exactly as Compiling says.  The record
     carries the generation the engine had when compilation began, so a reset in the middle
     makes it stale at once.
     */
    method Compile(engine: LuaEngine, ghost all: set<CompiledRule>) returns (r: Result<()>)
      requires this in all && engine.Valid() && RulesOk(all, engine)
      modifies engine, all`compilations
      ensures engine.Valid() && engine.Grew() && RulesOk(all, engine) && OnlyRecordsOf(all, engine.instanceId)
      ensures forall x :: x in all && x != this && x.rank >= rank ==> x.compilations == old(x.compilations)
      ensures Snapshot(all, engine, r.Success?) == Compiling(engine.setup, all, this, old(Snapshot(all, engine, true)))
      ensures r.Success? ==> (Lookup(engine).Some? <==> engine.generation == old(engine.generation))
      ensures old(Lookup(engine)).Some? ==> r.Success? && engine.Now() == old(engine.Now()) && engine.registry == old(engine.registry)
      decreases rank, 1
    {
      if Lookup(engine).Some? {
        return Success(());
      }
      var own := CompileOwn(engine, all);
      if own.Failure? {
        return Failure(own.error);
      }
      r := CompileChildren(engine, own.value, all);
      if r.Failure? {
        return;
      }
      StoreRecord(engine, own.value, all);
    }

    /**
     A reference other than -1 leads, in the engine's present registry, to a chunk compiled
     from the rule's present expression.  The answer is -1 exactly for a blank expression or
     when compiling makes the engine reset itself.
     */
    method GetExpressionRef(engine: LuaEngine, ghost all: set<CompiledRule>) returns (r: Result<int>)
      requires this in all && engine.Valid() && RulesOk(all, engine)
      modifies engine, all`compilations
      ensures engine.Valid() && engine.Grew() && RulesOk(all, engine) && OnlyRecordsOf(all, engine.instanceId)
      ensures r.Success? && r.value != -1 ==> Points(engine.registry, r.value, ExpressionChunk(expression))
      ensures r.Success? <==> old(Compiling(engine.setup, all, this, Snapshot(all, engine, true)).ok)
      ensures r.Success? ==>
        (r.value == -1 <==> IsBlank(expression) || old(ResetsMeanwhile(engine.setup, all, this, Snapshot(all, engine, true))))
    {
      var compiled := Compile(engine, all);
      if compiled.Failure? {
        return Failure(compiled.error);
      }
      var c := Lookup(engine);
      if c.Some? && c.value.expressionRef.Some? {
        var ref: int := c.value.expressionRef.value;
        assert Points(engine.registry, ref, ExpressionChunk(expression));
        return Success(ref);
      }
      return Success(-1);
    }

    method GetActionRef(engine: LuaEngine, ghost all: set<CompiledRule>) returns (r: Result<int>)
      requires this in all && engine.Valid() && RulesOk(all, engine)
      modifies engine, all`compilations
      ensures engine.Valid() && engine.Grew() && RulesOk(all, engine) && OnlyRecordsOf(all, engine.instanceId)
      ensures r.Success? && r.value != -1 ==> Points(engine.registry, r.value, ActionChunk(action))
      ensures r.Success? <==> old(Compiling(engine.setup, all, this, Snapshot(all, engine, true)).ok)
      ensures r.Success? ==>
        (r.value == -1 <==> action == "" || old(ResetsMeanwhile(engine.setup, all, this, Snapshot(all, engine, true))))
    {
      var compiled := Compile(engine, all);
      if compiled.Failure? {
        return Failure(compiled.error);
      }
      var c := Lookup(engine);
      if c.Some? && c.value.actionRef.Some? {
        var ref: int := c.value.actionRef.value;
        assert Points(engine.registry, ref, ActionChunk(action));
        return Success(ref);
      }
      return Success(-1);
    }

    /**
     Evaluating the expression, where `eval` is what Lua answers for a chunk.  The value -1 is
     read as "no expression", so if compiling makes the engine reset itself the rule passes
     without being evaluated.
     */
    method EvaluateExpression(engine: LuaEngine, eval: Chunk -> bool, ghost all: set<CompiledRule>) returns (r: Result<bool>)
      requires this in all && engine.Valid() && RulesOk(all, engine)
      modifies engine, all`compilations
      ensures engine.Valid() && RulesOk(all, engine) && OnlyRecordsOf(all, engine.instanceId)
      ensures r.Success? <==> old(Compiling(engine.setup, all, this, Snapshot(all, engine, true)).ok)
      ensures r.Success? ==>
        r.value == (IsBlank(expression) || old(ResetsMeanwhile(engine.setup, all, this, Snapshot(all, engine, true))) ||
                    eval(ExpressionChunk(expression)))
    {
      var ref := GetExpressionRef(engine, all);
      if ref.Failure? {
        return Failure(ref.error);
      }
      if ref.value == -1 {
        return Success(true);
      }
      return Success(eval(engine.registry[ref.value]));
    }

    /** The source passes the validator and Lua can load what is not blank. */
    predicate Compilable(tools: Toolchain)
      reads this`expression, this`action
    {
      && (expression != "" ==> tools.validates(expression) && !TooLong(tools, expression) && (IsBlank(expression) || tools.loadsExpression(expression)))
      && (action != "" ==> tools.validates(action) && !TooLong(tools, action) && tools.loadsAction(action))
    }
  }

  ghost predicate Family(all: set<CompiledRule>)
  {
    forall r :: r in all ==> r.Nested(all)
  }

  ghost predicate RulesOk(all: set<CompiledRule>, engine: LuaEngine)
    reads all, engine
  {
    && Family(all)
    && (forall r :: r in all && engine.instanceId in r.compilations ==>
          RecordOk(r.compilations[engine.instanceId], engine.generation, engine.registry))
  }

  /** The engine's numbering and the rules with a usable record for it. */
  ghost function Snapshot(all: set<CompiledRule>, engine: LuaEngine, ok: bool): Progress
    reads all, engine
  {
    Progress(ok, engine.Now(), set r | r in all && r.Usable(engine.instanceId, engine.generation))
  }

  /** Only the records for one engine id may have changed. */
  twostate predicate OnlyRecordsOf(all: set<CompiledRule>, id: nat)
    reads all
  {
    forall r :: r in all ==>
      && r.expression == old(r.expression) && r.action == old(r.action)
      && forall k :: k != id ==> (k in r.compilations <==> k in old(r.compilations)) && (k in r.compilations ==> r.compilations[k] == old(r.compilations)[k])
  }

  lemma StillOk(c: Compilation, g: nat, registry: map<int, Chunk>, g': nat, registry': map<int, Chunk>)
    requires RecordOk(c, g, registry) && Extends(g, registry, g', registry')
    ensures RecordOk(c, g', registry')
  {
    if c.expressionRef.Some? && c.generation == g' {
      var ref: int := c.expressionRef.value;
      assert ref in registry ==> ref in registry';
    }
    if c.actionRef.Some? && c.generation == g' {
      var ref: int := c.actionRef.value;
      assert ref in registry ==> ref in registry';
    }
  }

  /** Growing the registry, or starting a new generation, never makes a record wrong. */
  lemma AllStillOk(all: set<CompiledRule>, engine: LuaEngine, g: nat, registry: map<int, Chunk>)
    requires Family(all)
    requires forall r :: r in all && engine.instanceId in r.compilations ==> RecordOk(r.compilations[engine.instanceId], g, registry)
    requires Extends(g, registry, engine.generation, engine.registry)
    ensures RulesOk(all, engine)
  {
    forall r | r in all && engine.instanceId in r.compilations
      ensures RecordOk(r.compilations[engine.instanceId], engine.generation, engine.registry)
    {
      StillOk(r.compilations[engine.instanceId], g, registry, engine.generation, engine.registry);
    }
  }

  // ----- when compiling succeeds -----

  /** The rule has a usable record, or its source and all its children compile. */
  ghost predicate Compiles(tools: Toolchain, all: set<CompiledRule>, rule: CompiledRule, current: set<CompiledRule>)
    requires Family(all) && rule in all
    reads all`expression, all`action
    decreases rule.rank
  {
    || rule in current
    || (rule.Compilable(tools) && rule.Nested(all) &&
        forall i :: 0 <= i < |rule.children| ==> Compiles(tools, all, rule.children[i], current))
  }

  lemma OwnIffCompilable(setup: Setup, rule: CompiledRule, p: Progress)
    ensures CompilingOwn(setup, rule, p).ok <==> rule.Compilable(setup.tools)
    ensures !setup.autoReset ==> CompilingOwn(setup, rule, p).clock.generation == p.clock.generation
    ensures !setup.autoReset ==> CompilingOwn(setup, rule, p).current == p.current
  {
  }

  /** A rule whose own source does not compile fails before any of its children is compiled. */
  lemma OwnSourceFirst(setup: Setup, all: set<CompiledRule>, rule: CompiledRule, p: Progress)
    requires Family(all) && rule in all && rule !in p.current && !rule.Compilable(setup.tools)
    ensures var end := Compiling(setup, all, rule, p);
            !end.ok && end.current <= p.current && end == CompilingOwn(setup, rule, p)
  {
    OwnIffCompilable(setup, rule, p);
    assert CompilingChildren(setup, all, rule, 0, CompilingOwn(setup, rule, p)) == CompilingOwn(setup, rule, p);
  }

  /** Records of rules that compile anyway change nothing about what compiles. */
  lemma {:induction false} MoreRecords(tools: Toolchain, all: set<CompiledRule>, x: CompiledRule, a: set<CompiledRule>, b: set<CompiledRule>)
    requires Family(all) && x in all && a <= b <= all && forall y :: y in b ==> Compiles(tools, all, y, a)
    ensures Compiles(tools, all, x, b) <==> Compiles(tools, all, x, a)
    decreases x.rank
  {
    if x !in b {
      assert x.Nested(all);
      forall i | 0 <= i < |x.children|
        ensures Compiles(tools, all, x.children[i], b) <==> Compiles(tools, all, x.children[i], a)
      {
        MoreRecords(tools, all, x.children[i], a, b);
      }
    }
  }

  /** What can be said of the progress from `p` to `end` of an engine that never resets itself. */
  ghost predicate Grows(tools: Toolchain, all: set<CompiledRule>, p: Progress, end: Progress)
    requires Family(all) && p.current <= all
    reads all`expression, all`action
  {
    && end.clock.generation == p.clock.generation
    && p.current <= end.current <= all
    && forall x :: x in end.current ==> Compiles(tools, all, x, p.current)
  }

  lemma GrowsOn(tools: Toolchain, all: set<CompiledRule>, p: Progress, q: Progress, end: Progress)
    requires Family(all) && p.current <= all && Grows(tools, all, p, q) && Grows(tools, all, q, end)
    ensures Grows(tools, all, p, end)
  {
    forall x | x in end.current
      ensures Compiles(tools, all, x, p.current)
    {
      MoreRecords(tools, all, x, p.current, q.current);
    }
  }

  /** With self-resets off, compiling succeeds exactly if the rule has a record or its own tree compiles; other rules do not matter. */
  lemma {:induction false} SucceedsIffCompiles(setup: Setup, all: set<CompiledRule>, rule: CompiledRule, p: Progress)
    requires Family(all) && rule in all && p.current <= all && !setup.autoReset
    ensures Compiling(setup, all, rule, p).ok <==> Compiles(setup.tools, all, rule, p.current)
    ensures Grows(setup.tools, all, p, Compiling(setup, all, rule, p))
    decreases rule.rank, |rule.children| + 1
  {
    if rule !in p.current {
      var own := CompilingOwn(setup, rule, p);
      OwnIffCompilable(setup, rule, p);
      assert rule.Nested(all);
      if own.ok {
        ChildrenSucceed(setup, all, rule, 0, own);
      }
    }
  }

  lemma {:induction false} ChildrenSucceed(setup: Setup, all: set<CompiledRule>, rule: CompiledRule, i: nat, p: Progress)
    requires Family(all) && rule in all && i <= |rule.children| && p.ok && p.current <= all && !setup.autoReset && rule.Nested(all)
    ensures CompilingChildren(setup, all, rule, i, p).ok <==>
            forall j :: i <= j < |rule.children| ==> Compiles(setup.tools, all, rule.children[j], p.current)
    ensures Grows(setup.tools, all, p, CompilingChildren(setup, all, rule, i, p))
    decreases rule.rank, |rule.children| - i
  {
    if i < |rule.children| {
      var q := Compiling(setup, all, rule.children[i], p);
      SucceedsIffCompiles(setup, all, rule.children[i], p);
      if q.ok {
        ChildrenSucceed(setup, all, rule, i + 1, q);
        GrowsOn(setup.tools, all, p, q, CompilingChildren(setup, all, rule, i, p));
        forall j | i < j < |rule.children|
          ensures Compiles(setup.tools, all, rule.children[j], q.current) <==> Compiles(setup.tools, all, rule.children[j], p.current)
        {
          MoreRecords(setup.tools, all, rule.children[j], p.current, q.current);
        }
      }
    }
  }

  /** Whatever resets happen, a rule whose whole tree compiles is compiled. */
  lemma {:induction false} CompilableTreeSucceeds(setup: Setup, all: set<CompiledRule>, rule: CompiledRule, p: Progress)
    requires Family(all) && rule in all && Compiles(setup.tools, all, rule, {})
    ensures Compiling(setup, all, rule, p).ok
    decreases rule.rank, |rule.children| + 1
  {
    if rule !in p.current {
      OwnIffCompilable(setup, rule, p);
      CompilableChildrenSucceed(setup, all, rule, 0, CompilingOwn(setup, rule, p));
    }
  }

  lemma {:induction false} CompilableChildrenSucceed(setup: Setup, all: set<CompiledRule>, rule: CompiledRule, i: nat, p: Progress)
    requires Family(all) && rule in all && i <= |rule.children| && p.ok && rule.Nested(all)
    requires forall j :: 0 <= j < |rule.children| ==> Compiles(setup.tools, all, rule.children[j], {})
    ensures CompilingChildren(setup, all, rule, i, p).ok
    decreases rule.rank, |rule.children| - i
  {
    if i < |rule.children| {
      CompilableTreeSucceeds(setup, all, rule.children[i], p);
      CompilableChildrenSucceed(setup, all, rule, i + 1, Compiling(setup, all, rule.children[i], p));
    }
  }

  /** Needing records only of rules that compile themselves is compiling. */
  lemma {:induction false} NoNeedForRecords(tools: Toolchain, all: set<CompiledRule>, x: CompiledRule, a: set<CompiledRule>, b: set<CompiledRule>)
    requires Family(all) && x in all && b <= all && (forall y :: y in b ==> Compiles(tools, all, y, a)) && Compiles(tools, all, x, b)
    ensures Compiles(tools, all, x, a)
    decreases x.rank
  {
    if x !in b {
      forall i | 0 <= i < |x.children|
        ensures Compiles(tools, all, x.children[i], a)
      {
        NoNeedForRecords(tools, all, x.children[i], a, b);
      }
    }
  }

  ghost predicate OnlyCompiling(tools: Toolchain, all: set<CompiledRule>, p: Progress, end: Progress)
    requires Family(all)
    reads all`expression, all`action
  {
    end.current <= all && forall x :: x in end.current ==> Compiles(tools, all, x, p.current)
  }

  lemma OnlyCompilingOn(tools: Toolchain, all: set<CompiledRule>, p: Progress, q: Progress, end: Progress)
    requires Family(all) && OnlyCompiling(tools, all, p, q) && OnlyCompiling(tools, all, q, end)
    ensures OnlyCompiling(tools, all, p, end)
  {
    forall x | x in end.current
      ensures Compiles(tools, all, x, p.current)
    {
      NoNeedForRecords(tools, all, x, p.current, q.current);
    }
  }

  lemma ChildrenWithout(tools: Toolchain, all: set<CompiledRule>, rule: CompiledRule, i: nat, a: set<CompiledRule>, b: set<CompiledRule>)
    requires Family(all) && rule in all && rule.Nested(all) && b <= all && forall y :: y in b ==> Compiles(tools, all, y, a)
    requires forall j :: i <= j < |rule.children| ==> Compiles(tools, all, rule.children[j], b)
    ensures forall j :: i <= j < |rule.children| ==> Compiles(tools, all, rule.children[j], a)
  {
    forall j | i <= j < |rule.children|
      ensures Compiles(tools, all, rule.children[j], a)
    {
      NoNeedForRecords(tools, all, rule.children[j], a, b);
    }
  }

  /** Whatever resets happen, success needs a usable record or a tree that compiles. */
  lemma {:induction false} SuccessNeedsCompiling(setup: Setup, all: set<CompiledRule>, rule: CompiledRule, p: Progress)
    requires Family(all) && rule in all && p.current <= all
    ensures Compiling(setup, all, rule, p).ok ==> Compiles(setup.tools, all, rule, p.current)
    ensures OnlyCompiling(setup.tools, all, p, Compiling(setup, all, rule, p))
    decreases rule.rank, |rule.children| + 1
  {
    if rule !in p.current {
      var own := CompilingOwn(setup, rule, p);
      OwnIffCompilable(setup, rule, p);
      assert rule.Nested(all);
      assert own.current <= p.current;
      if own.ok {
        ChildrenNeedCompiling(setup, all, rule, 0, own);
        var end := CompilingChildren(setup, all, rule, 0, own);
        OnlyCompilingOn(setup.tools, all, p, own, end);
        if end.ok {
          ChildrenWithout(setup.tools, all, rule, 0, p.current, own.current);
          assert Compiles(setup.tools, all, rule, p.current);
        }
      } else {
        assert CompilingChildren(setup, all, rule, 0, own) == own;
      }
    }
  }

  lemma {:induction false} ChildrenNeedCompiling(setup: Setup, all: set<CompiledRule>, rule: CompiledRule, i: nat, p: Progress)
    requires Family(all) && rule in all && i <= |rule.children| && p.ok && p.current <= all && rule.Nested(all)
    ensures CompilingChildren(setup, all, rule, i, p).ok ==>
            forall j :: i <= j < |rule.children| ==> Compiles(setup.tools, all, rule.children[j], p.current)
    ensures OnlyCompiling(setup.tools, all, p, CompilingChildren(setup, all, rule, i, p))
    decreases rule.rank, |rule.children| - i
  {
    if i < |rule.children| {
      var q := Compiling(setup, all, rule.children[i], p);
      SuccessNeedsCompiling(setup, all, rule.children[i], p);
      if q.ok {
        ChildrenNeedCompiling(setup, all, rule, i + 1, q);
        var end := CompilingChildren(setup, all, rule, i, p);
        OnlyCompilingOn(setup.tools, all, p, q, end);
        if end.ok {
          ChildrenWithout(setup.tools, all, rule, i + 1, p.current, q.current);
        }
      } else {
        assert CompilingChildren(setup, all, rule, i + 1, q) == q;
      }
    }
  }

  /** All three, for a rule of a family and the records there are. */
  lemma Foreseen(setup: Setup, all: set<CompiledRule>, rule: CompiledRule, p: Progress)
    requires Family(all) && rule in all && p.current <= all
    ensures !setup.autoReset ==> (Compiling(setup, all, rule, p).ok <==> Compiles(setup.tools, all, rule, p.current))
    ensures !setup.autoReset ==> !ResetsMeanwhile(setup, all, rule, p)
    ensures Compiles(setup.tools, all, rule, {}) ==> Compiling(setup, all, rule, p).ok
    ensures Compiling(setup, all, rule, p).ok ==> Compiles(setup.tools, all, rule, p.current)
  {
    SuccessNeedsCompiling(setup, all, rule, p);
    if !setup.autoReset {
      SucceedsIffCompiles(setup, all, rule, p);
    }
    if Compiles(setup.tools, all, rule, {}) {
      CompilableTreeSucceeds(setup, all, rule, p);
    }
  }

  // ----- when a rule passes without being evaluated -----

  /**
   For a rule without children: compiling makes the engine reset itself exactly if there is no
   usable record and the memory is over the threshold when the expression or the action is
   about to be compiled.
   */
  lemma LeafResetsIff(setup: Setup, all: set<CompiledRule>, rule: CompiledRule, p: Progress)
    requires Family(all) && rule in all && rule.children == [] && rule.Compilable(setup.tools)
    ensures ResetsMeanwhile(setup, all, rule, p) <==>
            && rule !in p.current
            && setup.autoReset
            && (|| (!IsBlank(rule.expression) && setup.over(p.clock))
                || (rule.action != "" && setup.over(if IsBlank(rule.expression) then p.clock else Clock(p.clock.generation, p.clock.nextRef + 1))))
  {
    if rule !in p.current {
      var own := CompilingOwn(setup, rule, p);
      OwnIffCompilable(setup, rule, p);
      assert CompilingChildren(setup, all, rule, 0, own) == own;
    }
  }

  function Refuse(chunk: Chunk): bool
  {
    false
  }

  /** A rule that compiles and whose expression Lua finds false, on an engine whose memory is over the threshold: it passes. */
  method FalseExpressionPasses() returns (engine: LuaEngine, rule: CompiledRule, verdict: Result<bool>)
    ensures rule.expression == "false" && !IsBlank(rule.expression) && rule.Compilable(engine.setup.tools)
    ensures verdict == Success(true)
  {
    var tools := Toolchain(_ => true, _ => true, _ => true, 0);
    engine := new LuaEngine(1, Setup(tools, true, _ => true));
    rule := new CompiledRule("false", "", []);
    ghost var all := {rule};
    assert !IsSpace(rule.expression[0]);
    ghost var start := Snapshot(all, engine, true);
    CompilableTreeSucceeds(engine.setup, all, rule, start);
    LeafResetsIff(engine.setup, all, rule, start);
    verdict := rule.EvaluateExpression(engine, Refuse, all);
  }

  // ----- everything that can happen in a process -----

  /**
   Everything that can happen to a family of rules and the engines of one process.  Every
   operation keeps Valid, so the promises about references hold after any run of them.
   */
  class Process {
    var counter: nat
    ghost var engines: set<LuaEngine>
    ghost var rules: set<CompiledRule>

    ghost predicate Valid()
      reads this, engines, rules
    {
      && Family(rules)
      && (forall e :: e in engines ==> e.Valid() && 1 <= e.instanceId <= counter && RulesOk(rules, e))
      && (forall e, f :: e in engines && f in engines && e != f ==> e.instanceId != f.instanceId)
      && (forall r, k :: r in rules && k in r.compilations ==> 1 <= k <= counter)
    }

    constructor ()
      ensures Valid() && engines == {} && rules == {}
    {
      counter, engines, rules := 0, {}, {};
    }

    /** A new rule over rules that exist already. */
    method NewRule(expression: string, action: string, children: seq<CompiledRule>) returns (rule: CompiledRule)
      requires Valid() && forall i :: 0 <= i < |children| ==> children[i] in rules
      modifies this
      ensures Valid() && fresh(rule) && rules == old(rules) + {rule} && engines == old(engines)
      ensures rule.expression == expression && rule.action == action && rule.children == children
    {
      rule := new CompiledRule(expression, action, children);
      rules := rules + {rule};
      assert forall r :: r in old(rules) ==> r.Nested(old(rules));
    }

    /** A new engine, or a clone of another one: it gets a number never used before and an empty registry. */
    method NewEngine(setup: Setup) returns (engine: LuaEngine)
      requires Valid()
      modifies this
      ensures Valid() && fresh(engine) && engine in engines && engines == old(engines) + {engine} && rules == old(rules)
      ensures forall r :: r in rules ==> r.Lookup(engine).None?
    {
      counter := counter + 1;
      engine := new LuaEngine(counter, setup);
      engines := engines + {engine};
    }

    method Reset(engine: LuaEngine)
      requires Valid() && engine in engines
      modifies engine
      ensures Valid()
      ensures forall r :: r in rules ==> r.Lookup(engine).None?
    {
      ghost var g, registry := engine.generation, engine.registry;
      engine.ResetState();
      AllStillOk(rules, engine, g, registry);
    }

    /** `expression` and `action` are public: callers may assign them at any time. */
    method Edit(rule: CompiledRule, expression: string, action: string)
      requires Valid() && rule in rules
      modifies rule`expression, rule`action
      ensures Valid() && rule.expression == expression && rule.action == action
    {
      rule.expression, rule.action := expression, action;
    }

    /** Compiling a rule into one engine disturbs no record any engine relies on. */
    method CompileRule(rule: CompiledRule, engine: LuaEngine) returns (r: Result<()>)
      requires Valid() && rule in rules && engine in engines
      modifies engine, rules`compilations
      ensures Valid()
      ensures r.Success? <==> old(Compiling(engine.setup, rules, rule, Snapshot(rules, engine, true)).ok)
      ensures !engine.setup.autoReset ==>
        (r.Success? <==> old(Compiles(engine.setup.tools, rules, rule, Snapshot(rules, engine, true).current)))
    {
      Foreseen(engine.setup, rules, rule, Snapshot(rules, engine, true));
      r := rule.Compile(engine, rules);
      OthersStillOk(engine);
    }

    /** With self-resets off, what the answer will be can be read off the rule's own tree before the call. */
    method ExpressionRef(rule: CompiledRule, engine: LuaEngine) returns (r: Result<int>)
      requires Valid() && rule in rules && engine in engines
      modifies engine, rules`compilations
      ensures Valid()
      ensures r.Success? && r.value != -1 ==> Points(engine.registry, r.value, ExpressionChunk(rule.expression))
      ensures !engine.setup.autoReset ==>
        (r.Success? <==> old(Compiles(engine.setup.tools, rules, rule, Snapshot(rules, engine, true).current)))
      ensures !engine.setup.autoReset && r.Success? ==> (r.value != -1 <==> !IsBlank(rule.expression))
      ensures old(Compiles(engine.setup.tools, rules, rule, {})) ==> r.Success?
      ensures r.Success? ==> old(Compiles(engine.setup.tools, rules, rule, Snapshot(rules, engine, true).current))
    {
      Foreseen(engine.setup, rules, rule, Snapshot(rules, engine, true));
      r := rule.GetExpressionRef(engine, rules);
      OthersStillOk(engine);
    }

    method ActionRef(rule: CompiledRule, engine: LuaEngine) returns (r: Result<int>)
      requires Valid() && rule in rules && engine in engines
      modifies engine, rules`compilations
      ensures Valid()
      ensures r.Success? && r.value != -1 ==> Points(engine.registry, r.value, ActionChunk(rule.action))
      ensures !engine.setup.autoReset ==>
        (r.Success? <==> old(Compiles(engine.setup.tools, rules, rule, Snapshot(rules, engine, true).current)))
      ensures !engine.setup.autoReset && r.Success? ==> (r.value != -1 <==> rule.action != "")
      ensures old(Compiles(engine.setup.tools, rules, rule, {})) ==> r.Success?
      ensures r.Success? ==> old(Compiles(engine.setup.tools, rules, rule, Snapshot(rules, engine, true).current))
    {
      Foreseen(engine.setup, rules, rule, Snapshot(rules, engine, true));
      r := rule.GetActionRef(engine, rules);
      OthersStillOk(engine);
    }

    twostate lemma OthersStillOk(engine: LuaEngine)
      requires old(Valid()) && engine in engines && engines == old(engines) && rules == old(rules) && counter == old(counter)
      requires engine.Valid() && RulesOk(rules, engine) && OnlyRecordsOf(rules, engine.instanceId)
      requires forall e :: e in engines && e != engine ==> e.generation == old(e.generation) && e.registry == old(e.registry) && e.nextRef == old(e.nextRef)
      ensures Valid()
    {
    }
  }
}
