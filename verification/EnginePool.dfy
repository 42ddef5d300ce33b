/** The lock-free engine pool, a Treiber stack of reference-counted nodes, as a step system. */
module EnginePool {
  import opened Common

  // Each load, each write of a node's `next` field and each compare-and-swap of `head` is one
  // atomic step of one thread; a weak compare-and-swap may also fail spuriously.  A node's
  // address may be handed out again by the allocator as soon as the node is unreferenced, that
  // is, not reachable from `head` or from a thread's local pointers.  The absence of the ABA
  // problem is therefore proved, not assumed: it follows from what the locals keep alive.

  type Engine = nat
  type Addr = nat

  datatype Link = Null | To(addr: Addr)

  datatype Node = Node(engine: Engine, next: Link)

  /**
   Program counters with the shared pointers each of them holds.
   `patient` distinguishes tryPop, which keeps polling an empty pool, from pop.
   */
  datatype Local =
    | Idle
    | PushStart(node: Addr)                            // node built, head not loaded yet
    | PushLink(node: Addr, current: Link)              // about to write node.next
    | PushSwap(node: Addr, current: Link)              // about to swap head
    | PopLoad(patient: bool)                           // about to load head
    | PopRead(patient: bool, top: Addr)                // about to read top.next
    | PopSwap(patient: bool, top: Addr, after: Link)   // about to swap head
  {
    predicate Pushing() { PushStart? || PushLink? || PushSwap? }
  }

  datatype Thread = Thread(pc: Local, held: set<Engine>)

  datatype Event = Pushed(thread: nat, engine: Engine) | Popped(thread: nat, engine: Engine) | FoundEmpty(thread: nat)

  /** `history` lists the successful swaps and the empty answers in the order they took effect. */
  datatype Pool = Pool(heap: map<Addr, Node>, head: Link, threads: seq<Thread>, history: seq<Event>)

  datatype Action =
    | BeginPush(t: nat, engine: Engine, addr: Addr)
    | BeginPop(t: nat, patient: bool)
    | Load(t: nat, expired: bool)
    | WriteNext(t: nat)
    | ReadNext(t: nat)
    | Swap(t: nat, spurious: bool)

  function Init(holdings: seq<set<Engine>>): Pool
  {
    Pool(map[], Null, seq(|holdings|, t requires 0 <= t < |holdings| => Thread(Idle, holdings[t])), [])
  }

  // ----- chains of nodes -----

  function LinkAt(s: seq<Addr>, i: nat): Link
  {
    if i < |s| then To(s[i]) else Null
  }

  /** Following `next` from `link` visits exactly the addresses of `s`, in order, and ends at null. */
  ghost predicate Chain(heap: map<Addr, Node>, link: Link, s: seq<Addr>)
  {
    && link == LinkAt(s, 0)
    && forall i :: 0 <= i < |s| ==> s[i] in heap && heap[s[i]].next == LinkAt(s, i + 1)
  }

  ghost predicate Reaches(heap: map<Addr, Node>, link: Link, a: Addr)
  {
    exists s :: Chain(heap, link, s) && a in s
  }

  /** The shared pointers a thread holds in its locals. */
  ghost function Roots(pc: Local): set<Link>
  {
    match pc
    case PushStart(node) => {To(node)}
    case PushLink(node, current) => {To(node), current}
    case PushSwap(node, current) => {To(node), current}
    case PopRead(_, top) => {To(top)}
    case PopSwap(_, top, after) => {To(top), after}
    case _ => {}
  }

  /** An address the allocator may not hand out: some shared pointer still leads to it. */
  ghost predicate Live(p: Pool, a: Addr)
  {
    || Reaches(p.heap, p.head, a)
    || exists t, r :: 0 <= t < |p.threads| && r in Roots(p.threads[t].pc) && Reaches(p.heap, r, a)
  }

  // ----- steps -----

  ghost predicate Enabled(p: Pool, a: Action)
  {
    && a.t < |p.threads|
    && var th := p.threads[a.t];
       match a
       case BeginPush(_, e, addr) => th.pc.Idle? && e in th.held && !Live(p, addr)
       case BeginPop(_, _) => th.pc.Idle?
       case Load(_, _) => th.pc.PushStart? || th.pc.PopLoad?
       case WriteNext(_) => th.pc.PushLink? && th.pc.node in p.heap
       case ReadNext(_) => th.pc.PopRead? && th.pc.top in p.heap
       case Swap(_, _) =>
         (th.pc.PushSwap? && th.pc.node in p.heap) || (th.pc.PopSwap? && th.pc.top in p.heap)
  }

  function Goto(p: Pool, t: nat, pc: Local): Pool
    requires t < |p.threads|
  {
    p.(threads := p.threads[t := p.threads[t].(pc := pc)])
  }

  function StartPush(p: Pool, t: nat, e: Engine, addr: Addr): Pool
    requires t < |p.threads|
  {
    p.(heap := p.heap[addr := Node(e, Null)],
       threads := p.threads[t := Thread(PushStart(addr), p.threads[t].held - {e})])
  }

  function LoadHead(p: Pool, t: nat, expired: bool): Pool
    requires t < |p.threads| && (p.threads[t].pc.PushStart? || p.threads[t].pc.PopLoad?)
  {
    match p.threads[t].pc
    case PushStart(node) => Goto(p, t, PushLink(node, p.head))
    case PopLoad(patient) =>
      if p.head.To? then Goto(p, t, PopRead(patient, p.head.addr))
      else if patient && !expired then p
      else Goto(p, t, Idle).(history := p.history + [FoundEmpty(t)])
  }

  function LinkNode(p: Pool, t: nat): Pool
    requires t < |p.threads| && p.threads[t].pc.PushLink? && p.threads[t].pc.node in p.heap
  {
    var PushLink(node, current) := p.threads[t].pc;
    Goto(p, t, PushSwap(node, current)).(heap := p.heap[node := p.heap[node].(next := current)])
  }

  function FinishPush(p: Pool, t: nat): Pool
    requires t < |p.threads| && p.threads[t].pc.PushSwap? && p.threads[t].pc.node in p.heap
  {
    var node := p.threads[t].pc.node;
    Goto(p, t, Idle).(head := To(node), history := p.history + [Pushed(t, p.heap[node].engine)])
  }

  function FinishPop(p: Pool, t: nat): Pool
    requires t < |p.threads| && p.threads[t].pc.PopSwap? && p.threads[t].pc.top in p.heap
  {
    var PopSwap(_, top, after) := p.threads[t].pc;
    var e := p.heap[top].engine;
    p.(head := after,
       threads := p.threads[t := Thread(Idle, p.threads[t].held + {e})],
       history := p.history + [Popped(t, e)])
  }

  /** The weak swap: it succeeds only if head is the expected node, and it may fail even then. */
  function SwapHead(p: Pool, t: nat, spurious: bool): Pool
    requires t < |p.threads|
    requires (p.threads[t].pc.PushSwap? && p.threads[t].pc.node in p.heap) || (p.threads[t].pc.PopSwap? && p.threads[t].pc.top in p.heap)
  {
    match p.threads[t].pc
    case PushSwap(node, current) =>
      if p.head == current && !spurious then FinishPush(p, t)
      else Goto(p, t, PushLink(node, p.head))
    case PopSwap(patient, top, after) =>
      if p.head == To(top) && !spurious then FinishPop(p, t)
      else Goto(p, t, PopLoad(patient))
  }

  ghost function Apply(p: Pool, a: Action): Pool
    requires Enabled(p, a)
  {
    match a
    case BeginPush(t, e, addr) => StartPush(p, t, e, addr)
    case BeginPop(t, patient) => Goto(p, t, PopLoad(patient))
    case Load(t, expired) => LoadHead(p, t, expired)
    case WriteNext(t) => LinkNode(p, t)
    case ReadNext(t) =>
      var pc := p.threads[t].pc;
      Goto(p, t, PopSwap(pc.patient, pc.top, p.heap[pc.top].next))
    case Swap(t, spurious) => SwapHead(p, t, spurious)
  }

  ghost predicate Next(p: Pool, p': Pool)
  {
    exists a :: Enabled(p, a) && p' == Apply(p, a)
  }

  ghost predicate Disjoint(holdings: seq<set<Engine>>)
  {
    forall t, u :: 0 <= t < u < |holdings| ==> holdings[t] !! holdings[u]
  }

  ghost predicate StepAt(run: seq<Pool>, i: nat)
    requires i < |run| - 1
  {
    Next(run[i], run[i + 1])
  }

  /** Any interleaving from an empty pool whose engines are spread over the threads. */
  ghost predicate IsRun(holdings: seq<set<Engine>>, run: seq<Pool>)
  {
    && Disjoint(holdings)
    && |run| > 0
    && run[0] == Init(holdings)
    && forall i :: 0 <= i < |run| - 1 ==> StepAt(run, i)
  }

  // ----- facts about chains -----

  lemma {:induction false} ChainUniqueAt(heap: map<Addr, Node>, link: Link, s: seq<Addr>, s': seq<Addr>, i: nat)
    requires Chain(heap, link, s) && Chain(heap, link, s')
    requires i <= |s|
    ensures i <= |s'| && s[..i] == s'[..i]
  {
    if i > 0 {
      ChainUniqueAt(heap, link, s, s', i - 1);
      if i > 1 {
        assert s[i - 2] == s[..i - 1][i - 2] == s'[..i - 1][i - 2] == s'[i - 2];
        assert heap[s[i - 2]].next == LinkAt(s, i - 1);
        assert heap[s'[i - 2]].next == LinkAt(s', i - 1);
      }
      assert LinkAt(s, i - 1) == LinkAt(s', i - 1);
      assert s[..i] == s[..i - 1] + [s[i - 1]];
    }
  }

  lemma ChainUnique(heap: map<Addr, Node>, link: Link, s: seq<Addr>, s': seq<Addr>)
    requires Chain(heap, link, s) && Chain(heap, link, s')
    ensures s == s'
  {
    ChainUniqueAt(heap, link, s, s', |s|);
    ChainUniqueAt(heap, link, s', s, |s'|);
    assert s == s[..|s|] && s' == s'[..|s'|];
  }

  lemma ChainTail(heap: map<Addr, Node>, s: seq<Addr>)
    requires s != [] && Chain(heap, To(s[0]), s)
    ensures Chain(heap, heap[s[0]].next, s[1..])
  {
    assert LinkAt(s, 1) == LinkAt(s[1..], 0);
    forall i | 0 <= i < |s[1..]|
      ensures s[1..][i] in heap && heap[s[1..][i]].next == LinkAt(s[1..], i + 1)
    {
      assert s[1..][i] == s[i + 1];
      assert LinkAt(s, i + 2) == LinkAt(s[1..], i + 1);
    }
  }

  lemma ChainCons(heap: map<Addr, Node>, a: Addr, s: seq<Addr>)
    requires a in heap && Chain(heap, heap[a].next, s)
    ensures Chain(heap, To(a), [a] + s)
  {
    var c := [a] + s;
    forall i | 0 <= i < |c|
      ensures c[i] in heap && heap[c[i]].next == LinkAt(c, i + 1)
    {
      if i > 0 {
        assert c[i] == s[i - 1];
        assert LinkAt(c, i + 1) == LinkAt(s, i);
      } else {
        assert LinkAt(c, 1) == LinkAt(s, 0);
      }
    }
  }

  /** Rewriting a node that a chain does not visit leaves the chain as it was. */
  lemma ChainFrame(heap: map<Addr, Node>, link: Link, s: seq<Addr>, a: Addr, n: Node)
    requires Chain(heap, link, s) && a !in s
    ensures Chain(heap[a := n], link, s)
  {
  }

  // ----- the invariant -----

  /** Nodes under construction: allocated, not yet swapped in. */
  ghost function Hidden(threads: seq<Thread>): set<Addr>
  {
    set t | 0 <= t < |threads| && threads[t].pc.Pushing() :: threads[t].pc.node
  }

  /** A published pointer: its chain ends, and no node under construction is on it. */
  ghost predicate Anchored(heap: map<Addr, Node>, hidden: set<Addr>, link: Link)
  {
    exists s :: Chain(heap, link, s) && forall i :: 0 <= i < |s| ==> s[i] !in hidden
  }

  ghost predicate LocalOk(heap: map<Addr, Node>, hidden: set<Addr>, pc: Local)
  {
    match pc
    case Idle => true
    case PushStart(node) => node in heap && heap[node].next == Null
    case PushLink(node, current) => node in heap && Anchored(heap, hidden, heap[node].next) && Anchored(heap, hidden, current)
    case PushSwap(node, current) => node in heap && heap[node].next == current && Anchored(heap, hidden, current)
    case PopLoad(_) => true
    case PopRead(_, top) => top in heap && Anchored(heap, hidden, To(top))
    case PopSwap(_, top, after) => top in heap && after == heap[top].next && Anchored(heap, hidden, To(top))
  }

  ghost predicate Linked(p: Pool)
  {
    var hidden := Hidden(p.threads);
    && Anchored(p.heap, hidden, p.head)
    && (forall t :: 0 <= t < |p.threads| ==> LocalOk(p.heap, hidden, p.threads[t].pc))
    && (forall t, u :: 0 <= t < u < |p.threads| && p.threads[t].pc.Pushing() && p.threads[u].pc.Pushing() ==>
          p.threads[t].pc.node != p.threads[u].pc.node)
  }

  /** The addresses on the stack, top first. */
  ghost function Stack(p: Pool): (s: seq<Addr>)
    requires Linked(p)
    ensures Chain(p.heap, p.head, s) && forall i :: 0 <= i < |s| ==> s[i] !in Hidden(p.threads)
  {
    var s :| Chain(p.heap, p.head, s) && forall i :: 0 <= i < |s| ==> s[i] !in Hidden(p.threads);
    s
  }

  function Engines(heap: map<Addr, Node>, s: seq<Addr>): (es: seq<Engine>)
    requires forall i :: 0 <= i < |s| ==> s[i] in heap
    ensures |es| == |s| && forall i :: 0 <= i < |s| ==> es[i] == heap[s[i]].engine
  {
    seq(|s|, i requires 0 <= i < |s| => heap[s[i]].engine)
  }

  /** The abstract value of the pool: its engines, top first. */
  ghost function Contents(p: Pool): (es: seq<Engine>)
    requires Linked(p)
    ensures |es| == |Stack(p)| && forall i :: 0 <= i < |es| ==> Stack(p)[i] in p.heap && es[i] == p.heap[Stack(p)[i]].engine
  {
    Engines(p.heap, Stack(p))
  }

  lemma StackIs(p: Pool, s: seq<Addr>)
    requires Linked(p) && Chain(p.heap, p.head, s)
    ensures Stack(p) == s
  {
    ChainUnique(p.heap, p.head, Stack(p), s);
  }

  lemma AnchoredShrink(heap: map<Addr, Node>, hidden: set<Addr>, hidden': set<Addr>, link: Link)
    requires Anchored(heap, hidden, link) && hidden' <= hidden
    ensures Anchored(heap, hidden', link)
  {
    var s :| Chain(heap, link, s) && forall i :: 0 <= i < |s| ==> s[i] !in hidden;
    assert Chain(heap, link, s) && forall i :: 0 <= i < |s| ==> s[i] !in hidden';
  }

  lemma AnchoredWrite(heap: map<Addr, Node>, hidden: set<Addr>, a: Addr, n: Node, link: Link)
    requires Anchored(heap, hidden, link) && a in hidden
    ensures Anchored(heap[a := n], hidden, link)
  {
    var s :| Chain(heap, link, s) && forall i :: 0 <= i < |s| ==> s[i] !in hidden;
    ChainFrame(heap, link, s, a, n);
  }

  lemma AnchoredAlloc(heap: map<Addr, Node>, hidden: set<Addr>, a: Addr, n: Node, link: Link)
    requires Anchored(heap, hidden, link) && !Reaches(heap, link, a)
    ensures Anchored(heap[a := n], hidden + {a}, link)
  {
    var s :| Chain(heap, link, s) && forall i :: 0 <= i < |s| ==> s[i] !in hidden;
    assert a !in s;
    ChainFrame(heap, link, s, a, n);
  }

  lemma AnchoredNull(heap: map<Addr, Node>, hidden: set<Addr>)
    ensures Anchored(heap, hidden, Null)
  {
    assert Chain(heap, Null, []);
  }

  lemma AnchoredNext(heap: map<Addr, Node>, hidden: set<Addr>, a: Addr)
    requires a in heap && Anchored(heap, hidden, To(a))
    ensures Anchored(heap, hidden, heap[a].next)
  {
    var s :| Chain(heap, To(a), s) && forall i :: 0 <= i < |s| ==> s[i] !in hidden;
    ChainTail(heap, s);
    assert forall i :: 0 <= i < |s[1..]| ==> s[1..][i] !in hidden;
  }

  lemma AnchoredCons(heap: map<Addr, Node>, hidden: set<Addr>, a: Addr)
    requires a in heap && a !in hidden && Anchored(heap, hidden, heap[a].next)
    ensures Anchored(heap, hidden, To(a))
  {
    var s :| Chain(heap, heap[a].next, s) && forall i :: 0 <= i < |s| ==> s[i] !in hidden;
    ChainCons(heap, a, s);
  }

  lemma LocalOkShrink(heap: map<Addr, Node>, hidden: set<Addr>, hidden': set<Addr>, pc: Local)
    requires LocalOk(heap, hidden, pc) && hidden' <= hidden
    ensures LocalOk(heap, hidden', pc)
  {
    match pc
    case PushLink(node, current) =>
      AnchoredShrink(heap, hidden, hidden', heap[node].next);
      AnchoredShrink(heap, hidden, hidden', current);
    case PushSwap(node, current) => AnchoredShrink(heap, hidden, hidden', current);
    case PopRead(_, top) => AnchoredShrink(heap, hidden, hidden', To(top));
    case PopSwap(_, top, after) => AnchoredShrink(heap, hidden, hidden', To(top));
    case _ =>
  }

  /** Writing into a node under construction disturbs no other thread. */
  lemma LocalOkWrite(heap: map<Addr, Node>, hidden: set<Addr>, a: Addr, n: Node, pc: Local)
    requires LocalOk(heap, hidden, pc) && a in hidden && (pc.Pushing() ==> pc.node != a)
    ensures LocalOk(heap[a := n], hidden, pc)
  {
    match pc
    case PushLink(node, current) =>
      AnchoredWrite(heap, hidden, a, n, heap[node].next);
      AnchoredWrite(heap, hidden, a, n, current);
    case PushSwap(node, current) => AnchoredWrite(heap, hidden, a, n, current);
    case PopRead(_, top) =>
      AnchoredWrite(heap, hidden, a, n, To(top));
      NotHidden(heap, hidden, top);
    case PopSwap(_, top, after) =>
      AnchoredWrite(heap, hidden, a, n, To(top));
      NotHidden(heap, hidden, top);
    case _ =>
  }

  lemma NotHidden(heap: map<Addr, Node>, hidden: set<Addr>, a: Addr)
    requires Anchored(heap, hidden, To(a))
    ensures a !in hidden && Reaches(heap, To(a), a)
  {
    var s :| Chain(heap, To(a), s) && forall i :: 0 <= i < |s| ==> s[i] !in hidden;
    assert s[0] == a;
  }

  /** Reusing an address that no shared pointer leads to disturbs no thread. */
  lemma LocalOkAlloc(heap: map<Addr, Node>, hidden: set<Addr>, a: Addr, n: Node, pc: Local)
    requires LocalOk(heap, hidden, pc)
    requires forall r :: r in Roots(pc) ==> !Reaches(heap, r, a)
    ensures LocalOk(heap[a := n], hidden + {a}, pc) && (pc.Pushing() ==> pc.node != a)
  {
    match pc
    case PushStart(node) =>
      AnchoredNull(heap, hidden);
      ReachesOwn(heap, hidden, node);
    case PushLink(node, current) =>
      ReachesOwn(heap, hidden, node);
      ReachesOn(heap, node, a);
      assert current in Roots(pc);
      AnchoredAlloc(heap, hidden, a, n, heap[node].next);
      AnchoredAlloc(heap, hidden, a, n, current);
    case PushSwap(node, current) =>
      ReachesOwn(heap, hidden, node);
      assert current in Roots(pc);
      AnchoredAlloc(heap, hidden, a, n, current);
    case PopRead(_, top) =>
      NotHidden(heap, hidden, top);
      AnchoredAlloc(heap, hidden, a, n, To(top));
    case PopSwap(_, top, after) =>
      NotHidden(heap, hidden, top);
      assert To(top) in Roots(pc);
      AnchoredAlloc(heap, hidden, a, n, To(top));
    case _ =>
  }

  lemma ReachesOwn(heap: map<Addr, Node>, hidden: set<Addr>, node: Addr)
    requires node in heap && Anchored(heap, hidden, heap[node].next)
    ensures Reaches(heap, To(node), node)
  {
    var s :| Chain(heap, heap[node].next, s) && forall i :: 0 <= i < |s| ==> s[i] !in hidden;
    ChainCons(heap, node, s);
    assert ([node] + s)[0] == node;
  }

  lemma ReachesOn(heap: map<Addr, Node>, node: Addr, a: Addr)
    requires node in heap
    ensures Reaches(heap, heap[node].next, a) ==> Reaches(heap, To(node), a)
  {
    if Reaches(heap, heap[node].next, a) {
      var s :| Chain(heap, heap[node].next, s) && a in s;
      ChainCons(heap, node, s);
      assert a in [node] + s;
    }
  }

  // ----- every step keeps the invariant and acts on the abstract stack -----

  lemma HiddenHas(threads: seq<Thread>, t: nat)
    requires t < |threads| && threads[t].pc.Pushing()
    ensures threads[t].pc.node in Hidden(threads)
  {
  }

  /** The thread neither starts nor ends a push: nodes under construction stay the same. */
  lemma HiddenSame(threads: seq<Thread>, t: nat, x: Thread)
    requires t < |threads| && x.pc.Pushing() == threads[t].pc.Pushing()
    requires x.pc.Pushing() ==> x.pc.node == threads[t].pc.node
    ensures Hidden(threads[t := x]) == Hidden(threads)
  {
    var threads' := threads[t := x];
    forall a | a in Hidden(threads)
      ensures a in Hidden(threads')
    {
      var u :| 0 <= u < |threads| && threads[u].pc.Pushing() && threads[u].pc.node == a;
      assert threads'[u].pc.Pushing() && threads'[u].pc.node == a;
    }
    forall a | a in Hidden(threads')
      ensures a in Hidden(threads)
    {
      var u :| 0 <= u < |threads'| && threads'[u].pc.Pushing() && threads'[u].pc.node == a;
      assert threads[u].pc.Pushing() && threads[u].pc.node == a;
    }
  }

  /** A step that only moves one thread's locals between consistent states. */
  lemma MoveKeepsLinked(p: Pool, t: nat, x: Thread, history: seq<Event>)
    requires Linked(p) && t < |p.threads|
    requires x.pc.Pushing() == p.threads[t].pc.Pushing() && (x.pc.Pushing() ==> x.pc.node == p.threads[t].pc.node)
    requires LocalOk(p.heap, Hidden(p.threads), x.pc)
    ensures var p' := p.(threads := p.threads[t := x], history := history);
            Linked(p') && Contents(p') == Contents(p)
  {
    var p' := p.(threads := p.threads[t := x], history := history);
    HiddenSame(p.threads, t, x);
    assert Linked(p');
    StackIs(p', Stack(p));
  }

  /** The engines a thread is responsible for: those it holds and the one it is pushing. */
  ghost function Has(heap: map<Addr, Node>, th: Thread): set<Engine>
  {
    th.held + if th.pc.Pushing() && th.pc.node in heap then {heap[th.pc.node].engine} else {}
  }

  /** While a thread pushes an engine it no longer holds it. */
  ghost predicate Solitary(p: Pool)
  {
    forall t :: 0 <= t < |p.threads| && p.threads[t].pc.Pushing() ==>
      p.threads[t].pc.node in p.heap && p.heap[p.threads[t].pc.node].engine !in p.threads[t].held
  }

  /** What a client can tell: a stack of engines and the engines of each thread. */
  datatype View = View(stack: seq<Engine>, has: seq<set<Engine>>)

  ghost function ViewOf(p: Pool): (v: View)
    requires Linked(p)
    ensures |v.has| == |p.threads|
  {
    View(Contents(p), seq(|p.threads|, t requires 0 <= t < |p.threads| => Has(p.heap, p.threads[t])))
  }

  ghost predicate Good(p: Pool)
  {
    Linked(p) && Solitary(p)
  }

  lemma SameView(p: Pool, p': Pool)
    requires Linked(p) && Linked(p') && |p'.threads| == |p.threads|
    requires Contents(p') == Contents(p)
    requires forall u :: 0 <= u < |p.threads| ==> Has(p'.heap, p'.threads[u]) == Has(p.heap, p.threads[u])
    ensures ViewOf(p') == ViewOf(p)
  {
  }

  /** Steps that only move locals: loads, reads, failed swaps, calls. */
  lemma MoveStutters(p: Pool, t: nat, pc: Local)
    requires Good(p) && t < |p.threads|
    requires pc.Pushing() == p.threads[t].pc.Pushing() && (pc.Pushing() ==> pc.node == p.threads[t].pc.node)
    requires LocalOk(p.heap, Hidden(p.threads), pc)
    ensures Good(Goto(p, t, pc)) && ViewOf(Goto(p, t, pc)) == ViewOf(p)
  {
    var p' := Goto(p, t, pc);
    MoveKeepsLinked(p, t, p.threads[t].(pc := pc), p.history);
    assert p' == p.(threads := p.threads[t := p.threads[t].(pc := pc)], history := p.history);
    SameView(p, p');
  }

  lemma HiddenGrows(threads: seq<Thread>, t: nat, x: Thread)
    requires t < |threads| && !threads[t].pc.Pushing() && x.pc.Pushing()
    ensures Hidden(threads[t := x]) == Hidden(threads) + {x.pc.node}
  {
    var threads' := threads[t := x];
    forall a | a in Hidden(threads)
      ensures a in Hidden(threads')
    {
      var u :| 0 <= u < |threads| && threads[u].pc.Pushing() && threads[u].pc.node == a;
      assert threads'[u].pc.Pushing() && threads'[u].pc.node == a;
    }
    assert threads'[t] == x;
  }

  lemma HiddenShrinks(threads: seq<Thread>, t: nat, x: Thread)
    requires t < |threads| && threads[t].pc.Pushing() && !x.pc.Pushing()
    requires forall u :: 0 <= u < |threads| && u != t && threads[u].pc.Pushing() ==> threads[u].pc.node != threads[t].pc.node
    ensures Hidden(threads[t := x]) == Hidden(threads) - {threads[t].pc.node}
  {
    var threads' := threads[t := x];
    forall a | a in Hidden(threads) && a != threads[t].pc.node
      ensures a in Hidden(threads')
    {
      var u :| 0 <= u < |threads| && threads[u].pc.Pushing() && threads[u].pc.node == a;
      assert threads'[u].pc.Pushing() && threads'[u].pc.node == a;
    }
    forall a | a in Hidden(threads')
      ensures a in Hidden(threads) && a != threads[t].pc.node
    {
      var u :| 0 <= u < |threads'| && threads'[u].pc.Pushing() && threads'[u].pc.node == a;
      assert threads[u].pc.Pushing() && threads[u].pc.node == a && u != t;
    }
  }

  lemma StartPushLinked(p: Pool, t: nat, e: Engine, addr: Addr)
    requires Linked(p) && Enabled(p, BeginPush(t, e, addr))
    ensures Linked(StartPush(p, t, e, addr))
    ensures Contents(StartPush(p, t, e, addr)) == Contents(p)
    ensures forall u :: 0 <= u < |p.threads| && p.threads[u].pc.Pushing() ==> p.threads[u].pc.node != addr
  {
    var p' := StartPush(p, t, e, addr);
    var hidden := Hidden(p.threads);
    HiddenGrows(p.threads, t, p'.threads[t]);
    forall u | 0 <= u < |p.threads|
      ensures LocalOk(p'.heap, hidden + {addr}, p.threads[u].pc) && (p.threads[u].pc.Pushing() ==> p.threads[u].pc.node != addr)
    {
      LocalOkAlloc(p.heap, hidden, addr, Node(e, Null), p.threads[u].pc);
    }
    AnchoredAlloc(p.heap, hidden, addr, Node(e, Null), p.head);
    assert Linked(p');
    assert addr !in Stack(p);
    ChainFrame(p.heap, p.head, Stack(p), addr, Node(e, Null));
    StackIs(p', Stack(p));
  }

  lemma StartPushStutters(p: Pool, t: nat, e: Engine, addr: Addr)
    requires Good(p) && Enabled(p, BeginPush(t, e, addr))
    ensures Good(StartPush(p, t, e, addr)) && ViewOf(StartPush(p, t, e, addr)) == ViewOf(p)
  {
    var p' := StartPush(p, t, e, addr);
    StartPushLinked(p, t, e, addr);
    forall u | 0 <= u < |p.threads|
      ensures Has(p'.heap, p'.threads[u]) == Has(p.heap, p.threads[u])
    {
    }
    SameView(p, p');
  }

  lemma LinkNodeLinked(p: Pool, t: nat)
    requires Linked(p) && Enabled(p, WriteNext(t))
    ensures Linked(LinkNode(p, t)) && Contents(LinkNode(p, t)) == Contents(p)
  {
    var p' := LinkNode(p, t);
    var PushLink(node, current) := p.threads[t].pc;
    var hidden := Hidden(p.threads);
    var n := p.heap[node].(next := current);
    HiddenSame(p.threads, t, p'.threads[t]);
    HiddenHas(p.threads, t);
    forall u | 0 <= u < |p.threads| && u != t
      ensures LocalOk(p'.heap, hidden, p.threads[u].pc)
    {
      LocalOkWrite(p.heap, hidden, node, n, p.threads[u].pc);
    }
    AnchoredWrite(p.heap, hidden, node, n, current);
    AnchoredWrite(p.heap, hidden, node, n, p.head);
    assert Linked(p');
    ChainFrame(p.heap, p.head, Stack(p), node, n);
    StackIs(p', Stack(p));
  }

  lemma LinkNodeStutters(p: Pool, t: nat)
    requires Good(p) && Enabled(p, WriteNext(t))
    ensures Good(LinkNode(p, t)) && ViewOf(LinkNode(p, t)) == ViewOf(p)
  {
    LinkNodeLinked(p, t);
    SameView(p, LinkNode(p, t));
  }

  lemma FinishPushLinked(p: Pool, t: nat)
    requires Linked(p) && Enabled(p, Swap(t, false)) && p.threads[t].pc.PushSwap? && p.head == p.threads[t].pc.current
    ensures Linked(FinishPush(p, t))
  {
    var p' := FinishPush(p, t);
    var node := p.threads[t].pc.node;
    var hidden, hidden' := Hidden(p.threads), Hidden(p'.threads);
    HiddenShrinks(p.threads, t, p'.threads[t]);
    forall u | 0 <= u < |p.threads|
      ensures LocalOk(p.heap, hidden', p'.threads[u].pc)
    {
      LocalOkShrink(p.heap, hidden, hidden', p'.threads[u].pc);
    }
    AnchoredShrink(p.heap, hidden, hidden', p.head);
    AnchoredCons(p.heap, hidden', node);
  }

  lemma FinishPushContents(p: Pool, t: nat)
    requires Linked(p) && Enabled(p, Swap(t, false)) && p.threads[t].pc.PushSwap? && p.head == p.threads[t].pc.current
    requires Linked(FinishPush(p, t))
    ensures Contents(FinishPush(p, t)) == [p.heap[p.threads[t].pc.node].engine] + Contents(p)
  {
    var node := p.threads[t].pc.node;
    var p' := FinishPush(p, t);
    var s := Stack(p);
    ChainCons(p.heap, node, s);
    StackIs(p', [node] + s);
    EnginesCons(p.heap, node, s);
  }

  lemma EnginesCons(heap: map<Addr, Node>, a: Addr, s: seq<Addr>)
    requires a in heap && forall i :: 0 <= i < |s| ==> s[i] in heap
    ensures forall i :: 0 <= i < |[a] + s| ==> ([a] + s)[i] in heap
    ensures Engines(heap, [a] + s) == [heap[a].engine] + Engines(heap, s)
  {
  }

  lemma FinishPopLinked(p: Pool, t: nat)
    requires Linked(p) && Enabled(p, Swap(t, false)) && p.threads[t].pc.PopSwap? && p.head == To(p.threads[t].pc.top)
    ensures Linked(FinishPop(p, t))
    ensures Contents(p) == [p.heap[p.threads[t].pc.top].engine] + Contents(FinishPop(p, t))
  {
    var p' := FinishPop(p, t);
    HiddenSame(p.threads, t, p'.threads[t]);
    AnchoredNext(p.heap, Hidden(p.threads), p.threads[t].pc.top);
    assert Linked(p');
    var s := Stack(p);
    assert s[0] == p.threads[t].pc.top;
    ChainTail(p.heap, s);
    StackIs(p', s[1..]);
  }

  // ----- refinement of an atomic stack -----

  /** The sequential specification: what an event may do to the abstract view, if it is legal there. */
  function Effect(v: View, ev: Event): Option<View>
  {
    match ev
    case Pushed(t, e) =>
      if t < |v.has| && e in v.has[t] then Some(View([e] + v.stack, v.has[t := v.has[t] - {e}])) else None
    case Popped(t, e) =>
      if t < |v.has| && v.stack != [] && v.stack[0] == e then Some(View(v.stack[1..], v.has[t := v.has[t] + {e}])) else None
    case FoundEmpty(t) =>
      if v.stack == [] then Some(v) else None
  }

  /** The history replayed on an atomic last-in-first-out stack; None as soon as an event is illegal. */
  function Replay(v: View, history: seq<Event>): Option<View>
  {
    if history == [] then Some(v)
    else
      var before := Replay(v, history[..|history| - 1]);
      if before.None? then None else Effect(before.value, history[|history| - 1])
  }

  ghost predicate Refines(p: Pool, p': Pool)
    requires Linked(p) && Linked(p')
  {
    || (p'.history == p.history && ViewOf(p') == ViewOf(p))
    || (|p'.history| == |p.history| + 1 && p'.history[..|p.history|] == p.history &&
        Effect(ViewOf(p), p'.history[|p.history|]) == Some(ViewOf(p')))
  }

  lemma FinishPushRefines(p: Pool, t: nat)
    requires Good(p) && Enabled(p, Swap(t, false)) && p.threads[t].pc.PushSwap? && p.head == p.threads[t].pc.current
    ensures Good(FinishPush(p, t)) && Refines(p, FinishPush(p, t))
  {
    var p' := FinishPush(p, t);
    FinishPushLinked(p, t);
    FinishPushContents(p, t);
    var e := p.heap[p.threads[t].pc.node].engine;
    assert Has(p'.heap, p'.threads[t]) == Has(p.heap, p.threads[t]) - {e};
    assert ViewOf(p').has == ViewOf(p).has[t := ViewOf(p).has[t] - {e}];
  }

  lemma FinishPopRefines(p: Pool, t: nat)
    requires Good(p) && Enabled(p, Swap(t, false)) && p.threads[t].pc.PopSwap? && p.head == To(p.threads[t].pc.top)
    ensures Good(FinishPop(p, t)) && Refines(p, FinishPop(p, t))
  {
    var p' := FinishPop(p, t);
    FinishPopLinked(p, t);
    var e := p.heap[p.threads[t].pc.top].engine;
    assert Has(p'.heap, p'.threads[t]) == Has(p.heap, p.threads[t]) + {e};
    assert ViewOf(p').has == ViewOf(p).has[t := ViewOf(p).has[t] + {e}];
    assert Contents(p') == Contents(p)[1..];
  }

  lemma LoadRefines(p: Pool, t: nat, expired: bool)
    requires Good(p) && Enabled(p, Load(t, expired))
    ensures Good(LoadHead(p, t, expired)) && Refines(p, LoadHead(p, t, expired))
  {
    match p.threads[t].pc
    case PushStart(node) =>
      AnchoredNull(p.heap, Hidden(p.threads));
      MoveStutters(p, t, PushLink(node, p.head));
    case PopLoad(patient) =>
      if p.head.To? {
        HeadInHeap(p);
        MoveStutters(p, t, PopRead(patient, p.head.addr));
      } else if !patient || expired {
        EmptyAnswerRefines(p, t);
      }
  }

  lemma HeadInHeap(p: Pool)
    requires Linked(p) && p.head.To?
    ensures p.head.addr in p.heap
  {
    assert Stack(p)[0] == p.head.addr;
  }

  /** pop answers "empty" only at a moment when the abstract stack is empty. */
  lemma EmptyAnswerRefines(p: Pool, t: nat)
    requires Good(p) && t < |p.threads| && p.threads[t].pc.PopLoad? && p.head == Null
    ensures var p' := Goto(p, t, Idle).(history := p.history + [FoundEmpty(t)]); Good(p') && Refines(p, p')
  {
    var h := p.history + [FoundEmpty(t)];
    var p' := Goto(p, t, Idle).(history := h);
    MoveKeepsLinked(p, t, p.threads[t].(pc := Idle), h);
    assert p' == p.(threads := p.threads[t := p.threads[t].(pc := Idle)], history := h);
    StackIs(p, []);
    SameView(p, p');
  }

  lemma SwapRefines(p: Pool, t: nat, spurious: bool)
    requires Good(p) && Enabled(p, Swap(t, spurious))
    ensures Good(SwapHead(p, t, spurious)) && Refines(p, SwapHead(p, t, spurious))
  {
    match p.threads[t].pc
    case PushSwap(node, current) =>
      if p.head == current && !spurious {
        FinishPushRefines(p, t);
      } else {
        MoveStutters(p, t, PushLink(node, p.head));
      }
    case PopSwap(patient, top, after) =>
      if p.head == To(top) && !spurious {
        FinishPopRefines(p, t);
      } else {
        MoveStutters(p, t, PopLoad(patient));
      }
  }

  /** Each step of each thread is invisible or is one atomic operation on the abstract stack. */
  lemma StepRefines(p: Pool, p': Pool)
    requires Good(p) && Next(p, p')
    ensures Good(p') && Refines(p, p')
  {
    var a :| Enabled(p, a) && p' == Apply(p, a);
    match a
    case BeginPush(t, e, addr) => StartPushStutters(p, t, e, addr);
    case BeginPop(t, patient) => MoveStutters(p, t, PopLoad(patient));
    case Load(t, expired) => LoadRefines(p, t, expired);
    case WriteNext(t) => LinkNodeStutters(p, t);
    case ReadNext(t) =>
      var pc := p.threads[t].pc;
      MoveStutters(p, t, PopSwap(pc.patient, pc.top, p.heap[pc.top].next));
    case Swap(t, spurious) => SwapRefines(p, t, spurious);
  }

  // ----- main results -----

  lemma InitGood(holdings: seq<set<Engine>>)
    ensures Good(Init(holdings)) && ViewOf(Init(holdings)) == View([], holdings)
  {
    var p := Init(holdings);
    AnchoredNull(p.heap, Hidden(p.threads));
    StackIs(p, []);
    assert forall t :: 0 <= t < |holdings| ==> Has(p.heap, p.threads[t]) == holdings[t];
    assert ViewOf(p).has == holdings;
  }

  /**
   Linearizability: in every interleaving the successful swaps, in the order they happen,
   are a legal history of a last-in-first-out stack, and replaying them gives exactly the
   current stack and the current holdings of every thread.
   */
  lemma {:induction false} HistoryIsLegal(holdings: seq<set<Engine>>, run: seq<Pool>, i: nat)
    requires IsRun(holdings, run) && i < |run|
    ensures Good(run[i]) && Replay(View([], holdings), run[i].history) == Some(ViewOf(run[i]))
  {
    if i == 0 {
      InitGood(holdings);
    } else {
      HistoryIsLegal(holdings, run, i - 1);
      assert StepAt(run, i - 1);
      StepRefines(run[i - 1], run[i]);
    }
  }

  /** No engine twice in the stack, none both in the stack and with a thread, none with two threads. */
  ghost predicate OnePlace(v: View)
  {
    && (forall i, j :: 0 <= i < j < |v.stack| ==> v.stack[i] != v.stack[j])
    && (forall t, i :: 0 <= t < |v.has| && 0 <= i < |v.stack| ==> v.stack[i] !in v.has[t])
    && Disjoint(v.has)
  }

  ghost predicate Somewhere(v: View, e: Engine)
  {
    e in v.stack || exists t :: 0 <= t < |v.has| && e in v.has[t]
  }

  lemma EffectKeepsPlaces(v: View, ev: Event, e: Engine)
    requires OnePlace(v) && Effect(v, ev).Some?
    ensures OnePlace(Effect(v, ev).value)
    ensures Somewhere(Effect(v, ev).value, e) <==> Somewhere(v, e)
  {
    var v' := Effect(v, ev).value;
    match ev
    case Pushed(t, x) =>
      assert v'.stack[0] == x && v'.stack[1..] == v.stack;
      assert forall u :: 0 <= u < |v.has| ==> v'.has[u] == if u == t then v.has[t] - {x} else v.has[u];
    case Popped(t, x) =>
      assert v.stack == [x] + v'.stack;
      assert forall u :: 0 <= u < |v.has| ==> v'.has[u] == if u == t then v.has[t] + {x} else v.has[u];
    case FoundEmpty(t) =>
  }

  lemma {:induction false} ReplayKeepsPlaces(holdings: seq<set<Engine>>, history: seq<Event>, e: Engine)
    requires Disjoint(holdings) && Replay(View([], holdings), history).Some?
    ensures var v := Replay(View([], holdings), history).value;
            OnePlace(v) && (Somewhere(v, e) <==> exists t :: 0 <= t < |holdings| && e in holdings[t])
  {
    if history != [] {
      var k := |history| - 1;
      ReplayKeepsPlaces(holdings, history[..k], e);
      EffectKeepsPlaces(Replay(View([], holdings), history[..k]).value, history[k], e);
    }
  }

  /** Conservation: in every state of every interleaving each original engine is in exactly one place, and no other engine appears. */
  lemma EnginesConserved(holdings: seq<set<Engine>>, run: seq<Pool>, i: nat, e: Engine)
    requires IsRun(holdings, run) && i < |run|
    ensures Linked(run[i]) && OnePlace(ViewOf(run[i]))
    ensures Somewhere(ViewOf(run[i]), e) <==> exists t :: 0 <= t < |holdings| && e in holdings[t]
  {
    HistoryIsLegal(holdings, run, i);
    ReplayKeepsPlaces(holdings, run[i].history, e);
  }

  /** No ABA and nothing dangling: whenever a swap is due, the node and the successor read earlier are still exactly what the heap says. */
  lemma SwapsSeeTheNodeTheyRead(holdings: seq<set<Engine>>, run: seq<Pool>, i: nat, t: nat)
    requires IsRun(holdings, run) && i < |run| && t < |run[i].threads|
    ensures var p, pc := run[i], run[i].threads[t].pc;
            && (pc.Pushing() ==> pc.node in p.heap && !Reaches(p.heap, p.head, pc.node))
            && (pc.PushSwap? ==> p.heap[pc.node].next == pc.current)
            && (pc.PopRead? ==> pc.top in p.heap)
            && (pc.PopSwap? ==> pc.top in p.heap && p.heap[pc.top].next == pc.after)
  {
    HistoryIsLegal(holdings, run, i);
    var p, pc := run[i], run[i].threads[t].pc;
    if pc.Pushing() && Reaches(p.heap, p.head, pc.node) {
      var s :| Chain(p.heap, p.head, s) && pc.node in s;
      StackIs(p, s);
      HiddenHas(p.threads, t);
    }
  }

  // ----- how calls end -----

  /** A pop or tryPop is under way. */
  predicate InPop(pc: Local)
  {
    pc.PopLoad? || pc.PopRead? || pc.PopSwap?
  }

  ghost function EngineOf(p: Pool, pc: Local): Engine
    requires pc.Pushing()
  {
    if pc.node in p.heap then p.heap[pc.node].engine else 0
  }

  /** One step of thread `t`: what may be logged, and what a call that ends has to show for it. */
  ghost predicate EndsProperly(p: Pool, p': Pool, t: nat)
    requires Linked(p) && Linked(p') && t < |p.threads| == |p'.threads|
  {
    var pc, pc' := p.threads[t].pc, p'.threads[t].pc;
    if InPop(pc) && pc'.Idle? then
      // an engine that the thread now holds, or the answer that the stack is empty
      || (exists e :: p'.history == p.history + [Popped(t, e)] && e in p'.threads[t].held && Contents(p) == [e] + Contents(p'))
      || (p'.history == p.history + [FoundEmpty(t)] && p'.threads[t].held == p.threads[t].held && Contents(p) == [] == Contents(p'))
    else if pc.Pushing() && pc'.Idle? then
      p'.history == p.history + [Pushed(t, EngineOf(p, pc))] && Contents(p') == [EngineOf(p, pc)] + Contents(p)
    else
      // the call goes on, or one begins: nothing is logged, and the call stays what it was
      && p'.history == p.history && Contents(p') == Contents(p)
      && (InPop(pc) ==> InPop(pc') && pc'.patient == pc.patient && p'.threads[t].held == p.threads[t].held)
      && (pc.Pushing() ==> pc'.Pushing() && EngineOf(p', pc') == EngineOf(p, pc) && p'.threads[t].held == p.threads[t].held)
      && (pc.Idle? && pc'.Pushing() ==> EngineOf(p', pc') in p.threads[t].held && p'.threads[t].held == p.threads[t].held - {EngineOf(p', pc')})
  }

  /** What a step logs, read off the program counters alone. */
  lemma StepLogs(p: Pool, a: Action)
    requires Good(p) && Enabled(p, a)
    ensures var p', t := Apply(p, a), a.t;
            var pc, pc' := p.threads[t].pc, p'.threads[t].pc;
            && |p'.threads| == |p.threads| && (forall u :: 0 <= u < |p.threads| && u != t ==> p'.threads[u] == p.threads[u])
            && (InPop(pc) && pc'.Idle? ==>
                  || (exists e :: p'.history == p.history + [Popped(t, e)] && e in p'.threads[t].held)
                  || (p'.history == p.history + [FoundEmpty(t)] && p'.threads[t].held == p.threads[t].held))
            && (pc.Pushing() && pc'.Idle? ==> p'.history == p.history + [Pushed(t, EngineOf(p, pc))])
            && (pc.Idle? || !pc'.Idle? ==> p'.history == p.history)
  {
    var p', t := Apply(p, a), a.t;
    var pc := p.threads[t].pc;
    if a.Swap? && pc.PopSwap? && p.head == To(pc.top) && !a.spurious {
      assert p'.history == p.history + [Popped(t, p.heap[pc.top].engine)];
    }
  }

  /** What a step that goes on keeps. */
  lemma StepStays(p: Pool, a: Action)
    requires Good(p) && Enabled(p, a)
    ensures var p', t := Apply(p, a), a.t;
            var pc, pc' := p.threads[t].pc, p'.threads[t].pc;
            && (InPop(pc) && !pc'.Idle? ==> InPop(pc') && pc'.patient == pc.patient && p'.threads[t].held == p.threads[t].held)
            && (pc.Pushing() && !pc'.Idle? ==> pc'.Pushing() && EngineOf(p', pc') == EngineOf(p, pc) && p'.threads[t].held == p.threads[t].held)
            && (pc.Idle? && pc'.Pushing() ==> EngineOf(p', pc') in p.threads[t].held && p'.threads[t].held == p.threads[t].held - {EngineOf(p', pc')})
  {
    assert LocalsOk(p, a.t);
  }

  ghost predicate LocalsOk(p: Pool, t: nat)
    requires Linked(p) && t < |p.threads|
  {
    LocalOk(p.heap, Hidden(p.threads), p.threads[t].pc)
  }

  /** What an event says about the two stacks. */
  lemma EventContents(p: Pool, p': Pool, ev: Event)
    requires Linked(p) && Linked(p') && Refines(p, p') && p'.history == p.history + [ev]
    ensures ev.Popped? ==> Contents(p) == [ev.engine] + Contents(p')
    ensures ev.FoundEmpty? ==> Contents(p) == [] == Contents(p')
    ensures ev.Pushed? ==> Contents(p') == [ev.engine] + Contents(p)
  {
    assert p'.history[|p.history|] == ev;
    assert Effect(ViewOf(p), ev) == Some(ViewOf(p'));
    assert ViewOf(p).stack == Contents(p) && ViewOf(p').stack == Contents(p');
  }

  lemma SilentContents(p: Pool, p': Pool)
    requires Linked(p) && Linked(p') && Refines(p, p') && p'.history == p.history
    ensures Contents(p') == Contents(p)
  {
    assert ViewOf(p').stack == Contents(p');
  }

  lemma StepEndsProperly(p: Pool, a: Action)
    requires Good(p) && Enabled(p, a)
    ensures Good(Apply(p, a)) && |Apply(p, a).threads| == |p.threads| && EndsProperly(p, Apply(p, a), a.t)
  {
    var p', t := Apply(p, a), a.t;
    assert Next(p, p');
    StepRefines(p, p');
    StepLogs(p, a);
    StepStays(p, a);
    var pc, pc' := p.threads[t].pc, p'.threads[t].pc;
    if InPop(pc) && pc'.Idle? {
      if e :| p'.history == p.history + [Popped(t, e)] && e in p'.threads[t].held {
        EventContents(p, p', Popped(t, e));
      } else {
        EventContents(p, p', FoundEmpty(t));
      }
    } else if pc.Pushing() && pc'.Idle? {
      EventContents(p, p', Pushed(t, EngineOf(p, pc)));
    } else {
      SilentContents(p, p');
    }
  }

  /**
   In every step of every run one thread moves, and a call of it ends only with one event of
   its own: a pop with an engine it then holds or while the stack is empty, a push with its
   engine on top.  Whatever does not end stays the call it was.
   */
  lemma CallsEndProperly(holdings: seq<set<Engine>>, run: seq<Pool>, i: nat) returns (t: nat)
    requires IsRun(holdings, run) && i < |run| - 1
    ensures Good(run[i]) && Good(run[i + 1]) && t < |run[i].threads| == |run[i + 1].threads|
    ensures EndsProperly(run[i], run[i + 1], t)
    ensures forall u :: 0 <= u < |run[i].threads| && u != t ==> run[i + 1].threads[u] == run[i].threads[u]
  {
    HistoryIsLegal(holdings, run, i);
    assert StepAt(run, i);
    var a :| Enabled(run[i], a) && run[i + 1] == Apply(run[i], a);
    t := a.t;
    StepEndsProperly(run[i], a);
    StepLogs(run[i], a);
  }

  /** A tryPop gives up only at a load made after its deadline. */
  lemma PatientUntilDeadline(p: Pool, a: Action)
    requires Enabled(p, a) && InPop(p.threads[a.t].pc) && p.threads[a.t].pc.patient
    requires Apply(p, a).history == p.history + [FoundEmpty(a.t)]
    ensures a == Load(a.t, true)
  {
    assert Apply(p, a).history[|p.history|] == FoundEmpty(a.t);
  }

  // ----- a thread left alone finishes -----

  /** How many steps a thread still needs if no other thread interferes and no swap fails spuriously. */
  ghost function StepsLeft(p: Pool, pc: Local): nat
  {
    match pc
    case Idle => 0
    case PushStart(_) => 3
    case PushLink(_, current) => if current == p.head then 2 else 4
    case PushSwap(_, current) => if current == p.head then 1 else 3
    case PopLoad(_) => 3
    case PopRead(_, top) => if To(top) == p.head then 2 else 5
    case PopSwap(_, top, _) => if To(top) == p.head then 1 else 4
  }

  lemma AloneStep(p: Pool, t: nat) returns (a: Action)
    requires Good(p) && t < |p.threads| && !p.threads[t].pc.Idle?
    ensures a.t == t && Enabled(p, a)
    ensures |Apply(p, a).threads| == |p.threads| && StepsLeft(Apply(p, a), Apply(p, a).threads[t].pc) < StepsLeft(p, p.threads[t].pc)
  {
    assert LocalsOk(p, t);
    match p.threads[t].pc
    case PushStart(_) => a := Load(t, true);
    case PushLink(_, _) => a := WriteNext(t);
    case PushSwap(_, _) => a := Swap(t, false);
    case PopLoad(_) => a := Load(t, true);
    case PopRead(_, _) => a := ReadNext(t);
    case PopSwap(_, _, _) => a := Swap(t, false);
  }

  /** Thread `t` makes every step of `alone`. */
  ghost predicate OnlySteps(alone: seq<Pool>, t: nat)
  {
    forall k :: 0 <= k < |alone| - 1 ==> StepOf(alone[k], alone[k + 1], t)
  }

  ghost predicate StepOf(p: Pool, p': Pool, t: nat)
  {
    exists a: Action :: a.t == t && Enabled(p, a) && p' == Apply(p, a)
  }

  /** From any state of any run, a thread in the middle of a call ends it within five steps of its own if the others pause. */
  lemma LeftAloneFinishes(holdings: seq<set<Engine>>, run: seq<Pool>, i: nat, t: nat) returns (alone: seq<Pool>)
    requires IsRun(holdings, run) && i < |run| && t < |run[i].threads|
    ensures 0 < |alone| <= 6 && alone[0] == run[i] && OnlySteps(alone, t)
    ensures t < |alone[|alone| - 1].threads| && alone[|alone| - 1].threads[t].pc.Idle?
  {
    HistoryIsLegal(holdings, run, i);
    alone := GoOn(run[i], t);
  }

  lemma {:induction false} GoOn(p: Pool, t: nat) returns (alone: seq<Pool>)
    requires Good(p) && t < |p.threads|
    ensures 0 < |alone| <= StepsLeft(p, p.threads[t].pc) + 1 && alone[0] == p && OnlySteps(alone, t)
    ensures t < |alone[|alone| - 1].threads| && alone[|alone| - 1].threads[t].pc.Idle?
    decreases StepsLeft(p, p.threads[t].pc)
  {
    if p.threads[t].pc.Idle? {
      alone := [p];
    } else {
      var a := AloneStep(p, t);
      var p' := Apply(p, a);
      assert Next(p, p') && StepOf(p, p', t);
      StepRefines(p, p');
      var rest := GoOn(p', t);
      alone := [p] + rest;
      forall k | 0 <= k < |alone| - 1
        ensures StepOf(alone[k], alone[k + 1], t)
      {
        if k > 0 {
          assert StepOf(rest[k - 1], rest[k - 1 + 1], t);
        }
      }
    }
  }
}
