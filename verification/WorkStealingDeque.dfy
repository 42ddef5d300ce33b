/** The lock-free work-stealing deque: one owner pushes and pops at the back, any number of thieves steal at the front. */
module WorkStealingDeque {
  import opened Common

  // Every load, store and compare-and-swap on `head_`, `tail_` or a buffer slot is one atomic
  // step, interleaved arbitrarily (sequential consistency).  Growing the buffer is not a step
  // of this system: the header declares it unsafe next to a running steal, and the class in
  // RingDeque.dfy covers it for calls that do not overlap.

  /** Program counter of the owner; `t` is the value of tail it loaded. */
  datatype Owner<T> =
    | Ready
    | PushCheck(item: T, t: nat)       // about to load head and test the capacity
    | PushStore(item: T, t: nat)       // about to write the slot
    | PushPublish(item: T, t: nat)     // about to store tail = t + 1
    | PopReserve(t: nat)               // about to store tail = t - 1
    | PopRead(t: nat)                  // about to read slot t - 1
    | PopHead(t: nat, item: T)         // about to load head
    | PopSwap(t: nat, item: T)         // last item: about to swap head from t - 1 to t
    | PopRestore(t: nat)               // about to store tail = t
  {
    /** The owner has lowered tail and has not settled the pop yet. */
    predicate Popping() { PopRead? || PopHead? || PopSwap? || PopRestore? }
  }

  /** Program counter of a thief; `h` is the value of head it loaded. */
  datatype Thief<T> =
    | Away
    | LoadTail(h: nat)
    | ReadSlot(h: nat)
    | SwapHead(h: nat, item: T)

  /** What the calls did, in the order they took effect. */
  datatype Event<T> = PushedBack(item: T) | PoppedBack(item: T) | Stolen(item: T) | FoundEmpty

  datatype Deque<T> = Deque(
    buffer: seq<T>,
    head: nat,
    tail: nat,
    owner: Owner<T>,
    thieves: seq<Thief<T>>,
    history: seq<Event<T>>)

  datatype Action<T> =
    | BeginPush(item: T)
    | BeginPop
    | OwnerStep
    | BeginSteal(i: nat)
    | ThiefStep(i: nat)

  ghost predicate IsInit<T>(d: Deque<T>)
  {
    && |d.buffer| >= 2 && d.head == 0 && d.tail == 0 && d.owner.Ready? && d.history == []
    && forall i :: 0 <= i < |d.thieves| ==> d.thieves[i].Away?
  }

  /** The slot of logical index `i`; with a power-of-two capacity this is the mask the code applies. */
  function Slot(i: nat, capacity: nat): (s: nat)
    requires capacity > 0
    ensures s < capacity
  {
    i % capacity
  }

  function Log<T>(d: Deque<T>, ev: Event<T>): Deque<T>
  {
    d.(history := d.history + [ev])
  }

  // ----- steps -----

  ghost predicate Enabled<T>(d: Deque<T>, a: Action<T>)
  {
    && |d.buffer| > 0
    && match a
       case BeginPush(_) => d.owner.Ready?
       case BeginPop => d.owner.Ready?
       case OwnerStep =>
         && !d.owner.Ready?
         && (d.owner.PushCheck? ==> d.head <= d.owner.t && d.owner.t - d.head < |d.buffer| - 1)  // otherwise push would grow the buffer
         && (d.owner.PopReserve? || d.owner.Popping() ==> d.owner.t > 0)
       case BeginSteal(i) => i < |d.thieves| && d.thieves[i].Away?
       case ThiefStep(i) => i < |d.thieves| && !d.thieves[i].Away?
  }

  function OwnerNext<T>(d: Deque<T>): Deque<T>
    requires |d.buffer| > 0 && !d.owner.Ready?
    requires d.owner.PopReserve? || d.owner.Popping() ==> d.owner.t > 0
  {
    match d.owner
    case PushCheck(x, t) => d.(owner := PushStore(x, t))
    case PushStore(x, t) => d.(buffer := d.buffer[Slot(t, |d.buffer|) := x], owner := PushPublish(x, t))
    case PushPublish(x, t) => Log(d.(tail := t + 1, owner := Ready), PushedBack(x))
    case PopReserve(t) => d.(tail := t - 1, owner := PopRead(t))
    case PopRead(t) => d.(owner := PopHead(t, d.buffer[Slot(t - 1, |d.buffer|)]))
    case PopHead(t, x) =>
      if t - 1 > d.head then Log(d.(owner := Ready), PoppedBack(x))
      else if t - 1 == d.head then d.(owner := PopSwap(t, x))
      else Log(d.(owner := PopRestore(t)), FoundEmpty)
    case PopSwap(t, x) =>
      if d.head == t - 1 then Log(d.(head := t, owner := PopRestore(t)), PoppedBack(x))
      else Log(d.(owner := PopRestore(t)), FoundEmpty)
    case PopRestore(t) => d.(tail := t, owner := Ready)
  }

  function ThiefNext<T>(d: Deque<T>, i: nat): Deque<T>
    requires |d.buffer| > 0 && i < |d.thieves| && !d.thieves[i].Away?
  {
    match d.thieves[i]
    case LoadTail(h) => d.(thieves := d.thieves[i := if d.tail <= h then Away else ReadSlot(h)])
    case ReadSlot(h) => d.(thieves := d.thieves[i := SwapHead(h, d.buffer[Slot(h, |d.buffer|)])])
    case SwapHead(h, x) =>
      var back := d.(thieves := d.thieves[i := Away]);
      if d.head == h then Log(back.(head := h + 1), Stolen(x)) else back
  }

  ghost function Apply<T>(d: Deque<T>, a: Action<T>): Deque<T>
    requires Enabled(d, a)
  {
    match a
    case BeginPush(x) => d.(owner := PushCheck(x, d.tail))
    case BeginPop => if d.tail == 0 then Log(d, FoundEmpty) else d.(owner := PopReserve(d.tail))
    case OwnerStep => OwnerNext(d)
    case BeginSteal(i) => d.(thieves := d.thieves[i := LoadTail(d.head)])
    case ThiefStep(i) => ThiefNext(d, i)
  }

  ghost predicate Next<T(!new)>(d: Deque<T>, d': Deque<T>)
  {
    exists a :: Enabled(d, a) && d' == Apply(d, a)
  }

  ghost predicate StepAt<T(!new)>(run: seq<Deque<T>>, i: nat)
    requires i < |run| - 1
  {
    Next(run[i], run[i + 1])
  }

  ghost predicate IsRun<T(!new)>(run: seq<Deque<T>>)
  {
    && |run| > 0
    && IsInit(run[0])
    && forall i :: 0 <= i < |run| - 1 ==> StepAt(run, i)
  }

  // ----- the abstract deque -----

  /** One past the last logical item: a pop that is not settled has not removed anything yet. */
  function Back<T>(d: Deque<T>): nat
  {
    if d.owner.Popping() then d.owner.t else d.tail
  }

  function Items<T>(buffer: seq<T>, lo: nat, hi: nat): (s: seq<T>)
    requires |buffer| > 0 && lo <= hi
    ensures |s| == hi - lo && forall k :: 0 <= k < |s| ==> s[k] == buffer[Slot(lo + k, |buffer|)]
  {
    seq(hi - lo, k requires 0 <= k < hi - lo => buffer[Slot(lo + k, |buffer|)])
  }

  ghost predicate OwnerOk<T>(d: Deque<T>)
    requires |d.buffer| >= 2
  {
    var n := |d.buffer|;
    match d.owner
    case Ready => true
    case PushCheck(_, t) => t == d.tail
    case PushStore(_, t) => t == d.tail && t - d.head < n - 1
    case PushPublish(x, t) => t == d.tail && t - d.head < n - 1 && d.buffer[Slot(t, n)] == x
    case PopReserve(t) => t == d.tail && t > 0
    case PopRead(t) => t > 0 && d.tail == t - 1
    case PopHead(t, x) => t > 0 && d.tail == t - 1 && d.buffer[Slot(t - 1, n)] == x
    case PopSwap(t, x) => t > 0 && d.tail == t - 1 && d.head >= t - 1 && d.buffer[Slot(t - 1, n)] == x
    case PopRestore(t) => t > 0 && d.tail == t - 1 && d.head == t
  }

  /** A thief whose head value is still current is about to take an item that is really there. */
  ghost predicate ThiefOk<T>(d: Deque<T>, th: Thief<T>)
    requires |d.buffer| >= 2
  {
    match th
    case Away => true
    case LoadTail(h) => h <= d.head
    case ReadSlot(h) => h <= d.head && (h == d.head ==> h < Back(d))
    case SwapHead(h, x) => h <= d.head && (h == d.head ==> h < Back(d) && d.buffer[Slot(h, |d.buffer|)] == x)
  }

  ghost predicate Inv<T>(d: Deque<T>)
  {
    && |d.buffer| >= 2
    && d.head <= Back(d) && Back(d) - d.head <= |d.buffer| - 1
    && OwnerOk(d)
    && forall i :: 0 <= i < |d.thieves| ==> ThiefOk(d, d.thieves[i])
  }

  ghost function Contents<T>(d: Deque<T>): (s: seq<T>)
    requires Inv(d)
    ensures |s| == Back(d) - d.head
  {
    Items(d.buffer, d.head, Back(d))
  }

  // ----- sequential specification -----

  function Effect<T(==)>(s: seq<T>, ev: Event<T>): Option<seq<T>>
  {
    match ev
    case PushedBack(x) => Some(s + [x])
    case PoppedBack(x) => if s != [] && s[|s| - 1] == x then Some(s[..|s| - 1]) else None
    case Stolen(x) => if s != [] && s[0] == x then Some(s[1..]) else None
    case FoundEmpty => if s == [] then Some(s) else None
  }

  function Replay<T(==)>(history: seq<Event<T>>): Option<seq<T>>
  {
    if history == [] then Some([])
    else
      var before := Replay(history[..|history| - 1]);
      if before.None? then None else Effect(before.value, history[|history| - 1])
  }

  ghost predicate Refines<T>(d: Deque<T>, d': Deque<T>)
    requires Inv(d) && Inv(d')
  {
    || (d'.history == d.history && Contents(d') == Contents(d))
    || (|d'.history| == |d.history| + 1 && d'.history[..|d.history|] == d.history &&
        Effect(Contents(d), d'.history[|d.history|]) == Some(Contents(d')))
  }

  // ----- every step keeps the invariant and acts on the abstract deque -----

  /** Logical indices less than one capacity apart never share a slot. */
  lemma SlotsDiffer(i: nat, j: nat, n: nat)
    requires n > 0 && i < j < i + n
    ensures Slot(i, n) != Slot(j, n)
  {
    if i % n == j % n {
      var d := j / n - i / n;
      assert j - i == n * d;
      Multiples(n, d);
    }
  }

  lemma Multiples(n: nat, d: int)
    requires n > 0
    ensures n * d <= 0 || n * d >= n
  {
    if d <= 0 {
      assert n * d <= 0;
    } else {
      assert n * d == n + n * (d - 1);
    }
  }

  lemma WriteSlot<T>(buffer: seq<T>, lo: nat, t: nat, x: T)
    requires lo <= t < lo + |buffer|
    ensures Items(buffer[Slot(t, |buffer|) := x], lo, t) == Items(buffer, lo, t)
  {
    var before, after := Items(buffer, lo, t), Items(buffer[Slot(t, |buffer|) := x], lo, t);
    forall k | 0 <= k < |before|
      ensures after[k] == before[k]
    {
      SlotsDiffer(lo + k, t, |buffer|);
    }
  }

  lemma OwnerKeepsThieves<T>(d: Deque<T>)
    requires Inv(d) && Enabled(d, OwnerStep)
    ensures forall i :: 0 <= i < |d.thieves| ==> ThiefOk(OwnerNext(d), d.thieves[i])
  {
    forall i | 0 <= i < |d.thieves|
      ensures ThiefOk(OwnerNext(d), d.thieves[i])
    {
      var th := d.thieves[i];
      if d.owner.PushStore? && th.SwapHead? && th.h == d.head {
        SlotsDiffer(th.h, d.owner.t, |d.buffer|);
      }
    }
  }

  lemma PushStepRefines<T>(d: Deque<T>)
    requires Inv(d) && Enabled(d, OwnerStep)
    requires d.owner.PushCheck? || d.owner.PushStore? || d.owner.PushPublish?
    ensures Inv(OwnerNext(d)) && Refines(d, OwnerNext(d))
  {
    OwnerKeepsThieves(d);
    match d.owner
    case PushStore(x, t) => WriteSlot(d.buffer, d.head, t, x);
    case PushPublish(x, t) =>
      assert Items(d.buffer, d.head, t + 1) == Items(d.buffer, d.head, t) + [x];
    case _ =>
  }

  lemma PopStepRefines<T>(d: Deque<T>)
    requires Inv(d) && Enabled(d, OwnerStep)
    requires d.owner.PopReserve? || d.owner.Popping()
    ensures Inv(OwnerNext(d)) && Refines(d, OwnerNext(d))
  {
    OwnerKeepsThieves(d);
    var d' := OwnerNext(d);
    assert Inv(d');
    if d.owner.PopHead? && d.owner.t - 1 > d.head {
      assert Contents(d') == Contents(d)[..|Contents(d)| - 1];
    } else if d.owner.PopSwap? && d.head == d.owner.t - 1 {
      assert Contents(d') == Contents(d)[..0];
    }
  }

  lemma ThiefKeepsInv<T>(d: Deque<T>, i: nat)
    requires Inv(d) && Enabled(d, ThiefStep(i))
    ensures Inv(ThiefNext(d, i))
  {
    var d' := ThiefNext(d, i);
    forall j | 0 <= j < |d.thieves|
      ensures ThiefOk(d', d'.thieves[j])
    {
      assert ThiefOk(d, d.thieves[j]);
    }
  }

  lemma ThiefStepRefines<T>(d: Deque<T>, i: nat)
    requires Inv(d) && Enabled(d, ThiefStep(i))
    ensures Inv(ThiefNext(d, i)) && Refines(d, ThiefNext(d, i))
  {
    var d' := ThiefNext(d, i);
    ThiefKeepsInv(d, i);
    if d.thieves[i].SwapHead? && d.head == d.thieves[i].h {
      assert Contents(d') == Contents(d)[1..];
    }
  }

  lemma BeginRefines<T(!new)>(d: Deque<T>, a: Action<T>)
    requires Inv(d) && Enabled(d, a) && !a.OwnerStep? && !a.ThiefStep?
    ensures Inv(Apply(d, a)) && Refines(d, Apply(d, a))
  {
  }

  lemma StepRefines<T(!new)>(d: Deque<T>, d': Deque<T>)
    requires Inv(d) && Next(d, d')
    ensures Inv(d') && Refines(d, d')
  {
    var a :| Enabled(d, a) && d' == Apply(d, a);
    match a
    case OwnerStep =>
      if d.owner.PopReserve? || d.owner.Popping() {
        PopStepRefines(d);
      } else {
        PushStepRefines(d);
      }
    case ThiefStep(i) => ThiefStepRefines(d, i);
    case _ => BeginRefines(d, a);
  }

  // ----- main results -----

  /**
   Linearizability: in every interleaving the completed pushes, pops and steals form a legal
   history of a double-ended queue, and that queue is exactly the slots between head and the
   owner's end.
   */
  lemma {:induction false} HistoryIsLegal<T(!new)>(run: seq<Deque<T>>, i: nat)
    requires IsRun(run) && i < |run|
    ensures Inv(run[i]) && Replay(run[i].history) == Some(Contents(run[i]))
  {
    if i > 0 {
      HistoryIsLegal(run, i - 1);
      assert StepAt(run, i - 1);
      StepRefines(run[i - 1], run[i]);
    }
  }

  ghost function Added<T>(ev: Event<T>): multiset<T>
  {
    if ev.PushedBack? then multiset{ev.item} else multiset{}
  }

  ghost function Removed<T>(ev: Event<T>): multiset<T>
  {
    if ev.PoppedBack? || ev.Stolen? then multiset{ev.item} else multiset{}
  }

  ghost function Pushed<T>(history: seq<Event<T>>): multiset<T>
  {
    if history == [] then multiset{} else Pushed(history[..|history| - 1]) + Added(history[|history| - 1])
  }

  ghost function HandedOut<T>(history: seq<Event<T>>): multiset<T>
  {
    if history == [] then multiset{} else HandedOut(history[..|history| - 1]) + Removed(history[|history| - 1])
  }

  lemma EffectConserves<T>(s: seq<T>, ev: Event<T>)
    requires Effect(s, ev).Some?
    ensures multiset(s) + Added(ev) == multiset(Effect(s, ev).value) + Removed(ev)
  {
    match ev
    case PoppedBack(x) => assert s == s[..|s| - 1] + [x];
    case Stolen(x) => assert s == [x] + s[1..];
    case _ =>
  }

  lemma {:induction false} ReplayConserves<T>(history: seq<Event<T>>)
    requires Replay(history).Some?
    ensures Pushed(history) == HandedOut(history) + multiset(Replay(history).value)
  {
    if history != [] {
      var k := |history| - 1;
      ReplayConserves(history[..k]);
      var s := Replay(history[..k]).value;
      EffectConserves(s, history[k]);
      calc {
        Pushed(history);
        HandedOut(history[..k]) + (multiset(s) + Added(history[k]));
        HandedOut(history[..k]) + (multiset(Replay(history).value) + Removed(history[k]));
        HandedOut(history) + multiset(Replay(history).value);
      }
    }
  }

  /** Each pushed item is handed out at most once, and those not handed out are still between head and tail. */
  lemma ItemsConserved<T(!new)>(run: seq<Deque<T>>, i: nat)
    requires IsRun(run) && i < |run|
    ensures Inv(run[i])
    ensures Pushed(run[i].history) == HandedOut(run[i].history) + multiset(Contents(run[i]))
  {
    HistoryIsLegal(run, i);
    ReplayConserves(run[i].history);
  }

  // ----- how calls end -----

  /** The owner is in the middle of a pop. */
  predicate InPop<T>(owner: Owner<T>)
  {
    owner.PopReserve? || owner.Popping()
  }

  predicate InPush<T>(owner: Owner<T>)
  {
    owner.PushCheck? || owner.PushStore? || owner.PushPublish?
  }

  /** A step that settles a pop: the item at the back is handed out, or the deque is empty. */
  ghost predicate SettlesPop<T>(d: Deque<T>, d': Deque<T>)
    requires Inv(d) && Inv(d')
  {
    || (|Contents(d)| > 0 && d'.history == d.history + [PoppedBack(Contents(d)[|Contents(d)| - 1])] && Contents(d') == Contents(d)[..|Contents(d)| - 1])
    || (Contents(d) == [] == Contents(d') && d'.history == d.history + [FoundEmpty])
  }

  /**
   A step of the owner.  A pop is settled exactly once, before it restores tail or returns; a
   push returns with its item at the back; nothing else is logged, and a call stays what it is.
   */
  ghost predicate OwnerProceeds<T>(d: Deque<T>, d': Deque<T>)
    requires Inv(d) && Inv(d')
  {
    if InPush(d.owner) then
      if d'.owner.Ready? then d'.history == d.history + [PushedBack(d.owner.item)] && Contents(d') == Contents(d) + [d.owner.item]
      else InPush(d'.owner) && d'.owner.item == d.owner.item && d'.history == d.history && Contents(d') == Contents(d)
    else if d.owner.PopRestore? then
      d'.owner.Ready? && d'.history == d.history && Contents(d') == Contents(d)
    else if InPop(d.owner) then
      if d'.owner.Ready? || d'.owner.PopRestore? then SettlesPop(d, d')
      else InPop(d'.owner) && d'.history == d.history && Contents(d') == Contents(d)
    else
      // a call begins; a pop may find at once that nothing was ever pushed
      if d'.owner.Ready? then SettlesPop(d, d') else d'.history == d.history && Contents(d') == Contents(d)
  }

  /**
   A step of thief `t`.  It comes away with the front item; or it is told "empty", and then
   the deque is empty, or its reading of head is out of date, or the owner holds an unsettled
   pop of the only item; or it loses the race, and then head has moved on.
   */
  ghost predicate ThiefProceeds<T>(d: Deque<T>, d': Deque<T>, t: nat)
    requires Inv(d) && Inv(d') && t < |d.thieves| == |d'.thieves|
  {
    var th, th' := d.thieves[t], d'.thieves[t];
    if th.SwapHead? && d'.history != d.history then
      th'.Away? && |Contents(d)| > 0 && d'.history == d.history + [Stolen(Contents(d)[0])] && Contents(d') == Contents(d)[1..]
    else
      && d'.history == d.history && Contents(d') == Contents(d)
      && (th.LoadTail? && th'.Away? ==> Contents(d) == [] || d.head > th.h || (d.owner.Popping() && |Contents(d)| == 1))
      && (th.LoadTail? && !th'.Away? ==> th' == ReadSlot(th.h))
      && (th.ReadSlot? ==> th'.SwapHead? && th'.h == th.h)
      && (th.SwapHead? ==> th'.Away? && d.head > th.h)
      && (th.Away? ==> th' == LoadTail(d.head))
  }

  lemma OwnerStepProceeds<T(!new)>(d: Deque<T>)
    requires Inv(d) && Enabled(d, OwnerStep)
    ensures Inv(OwnerNext(d)) && OwnerProceeds(d, OwnerNext(d))
  {
    var d' := OwnerNext(d);
    assert Next(d, d') by {
      assert d' == Apply(d, OwnerStep);
    }
    StepRefines(d, d');
    if d'.history != d.history {
      assert d'.history == d.history + [d'.history[|d.history|]];
    }
  }

  lemma ThiefStepProceeds<T(!new)>(d: Deque<T>, t: nat)
    requires Inv(d) && Enabled(d, ThiefStep(t))
    ensures Inv(ThiefNext(d, t)) && ThiefProceeds(d, ThiefNext(d, t), t)
  {
    var d' := ThiefNext(d, t);
    ThiefStepRefines(d, t);
    assert ThiefOk(d, d.thieves[t]);
    if d'.history != d.history {
      assert d'.history == d.history + [d'.history[|d.history|]];
    }
  }

  lemma BeginProceeds<T(!new)>(d: Deque<T>, a: Action<T>)
    requires Inv(d) && Enabled(d, a) && !a.OwnerStep? && !a.ThiefStep?
    ensures Inv(Apply(d, a))
    ensures if a.BeginSteal? then ThiefProceeds(d, Apply(d, a), a.i) else OwnerProceeds(d, Apply(d, a))
  {
    BeginRefines(d, a);
  }

  /** In every step of every run the owner or one thief proceeds, in one of the ways above, and nobody else moves. */
  lemma CallsEndProperly<T(!new)>(run: seq<Deque<T>>, i: nat) returns (thief: Option<nat>)
    requires IsRun(run) && i < |run| - 1
    ensures Inv(run[i]) && Inv(run[i + 1]) && |run[i].thieves| == |run[i + 1].thieves|
    ensures thief.None? ==> OwnerProceeds(run[i], run[i + 1]) && run[i + 1].thieves == run[i].thieves
    ensures thief.Some? ==>
      && thief.value < |run[i].thieves| && ThiefProceeds(run[i], run[i + 1], thief.value) && run[i + 1].owner == run[i].owner
      && forall u :: 0 <= u < |run[i].thieves| && u != thief.value ==> run[i + 1].thieves[u] == run[i].thieves[u]
  {
    HistoryIsLegal(run, i);
    assert StepAt(run, i);
    var a :| Enabled(run[i], a) && run[i + 1] == Apply(run[i], a);
    match a
    case OwnerStep =>
      thief := None;
      OwnerStepProceeds(run[i]);
    case ThiefStep(t) =>
      thief := Some(t);
      ThiefStepProceeds(run[i], t);
    case BeginSteal(t) =>
      thief := Some(t);
      BeginProceeds(run[i], a);
    case _ =>
      thief := None;
      BeginProceeds(run[i], a);
  }

  ghost function OwnerStepsLeft<T>(owner: Owner<T>): nat
  {
    match owner
    case Ready => 0
    case PushCheck(_, _) => 3
    case PushStore(_, _) => 2
    case PushPublish(_, _) => 1
    case PopReserve(_) => 5
    case PopRead(_) => 4
    case PopHead(_, _) => 3
    case PopSwap(_, _) => 2
    case PopRestore(_) => 1
  }

  ghost function ThiefStepsLeft<T>(th: Thief<T>): nat
  {
    match th
    case Away => 0
    case LoadTail(_) => 3
    case ReadSlot(_) => 2
    case SwapHead(_, _) => 1
  }

  /** Every call ends after a bounded number of its own steps, whatever the others do. */
  lemma CallsAreBounded<T(!new)>(d: Deque<T>, a: Action<T>)
    requires Enabled(d, a)
    ensures a.OwnerStep? ==> OwnerStepsLeft(Apply(d, a).owner) < OwnerStepsLeft(d.owner)
    ensures a.ThiefStep? ==> a.i < |Apply(d, a).thieves| && ThiefStepsLeft(Apply(d, a).thieves[a.i]) < ThiefStepsLeft(d.thieves[a.i])
    ensures a.BeginPush? || a.BeginPop? ==> OwnerStepsLeft(Apply(d, a).owner) <= 5
    ensures a.BeginSteal? ==> ThiefStepsLeft(Apply(d, a).thieves[a.i]) <= 3
  {
  }

  /** In every state of every run each call can take its next step, except a push that would have to grow the buffer. */
  lemma StepsAreEnabled<T(!new)>(run: seq<Deque<T>>, i: nat, t: nat)
    requires IsRun(run) && i < |run|
    ensures t < |run[i].thieves| && !run[i].thieves[t].Away? ==> Enabled(run[i], ThiefStep(t))
    ensures !run[i].owner.Ready? ==>
      (Enabled(run[i], OwnerStep) <==> (run[i].owner.PushCheck? ==> run[i].tail - run[i].head < |run[i].buffer| - 1))
  {
    HistoryIsLegal(run, i);
  }

  // ----- a thief that loses the race -----

  lemma HandedOutGrows<T>(history: seq<Event<T>>, ev: Event<T>)
    ensures |HandedOut(history + [ev])| == |HandedOut(history)| + if ev.PoppedBack? || ev.Stolen? then 1 else 0
  {
    assert (history + [ev])[..|history|] == history;
  }

  ghost predicate Takes<T(!new)>(d: Deque<T>, d': Deque<T>)
  {
    exists ev: Event<T> :: (ev.PoppedBack? || ev.Stolen?) && d'.history == d.history + [ev]
  }

  ghost predicate Quiet<T(!new)>(d: Deque<T>, d': Deque<T>)
  {
    d'.head == d.head && (d'.history == d.history || exists ev: Event<T> :: d'.history == d.history + [ev])
  }

  lemma HeadMoves<T(!new)>(d: Deque<T>, a: Action<T>)
    requires Enabled(d, a)
    ensures Quiet(d, Apply(d, a)) || (Apply(d, a).head == d.head + 1 && Takes(d, Apply(d, a)))
  {
    var d' := Apply(d, a);
    if a.OwnerStep? {
      match d.owner
      case PushPublish(x, t) => assert d'.history == d.history + [PushedBack(x)];
      case PopHead(t, x) => assert t - 1 > d.head ==> d'.history == d.history + [PoppedBack(x)];
      case PopSwap(t, x) => assert d.head == t - 1 ==> d'.history == d.history + [PoppedBack(x)];
      case _ =>
    } else if a.ThiefStep? && d.thieves[a.i].SwapHead? && d.head == d.thieves[a.i].h {
      assert d'.history == d.history + [Stolen(d.thieves[a.i].item)];
    }
  }

  /** How many items have been handed out. */
  ghost function Out<T>(d: Deque<T>): nat
  {
    |HandedOut(d.history)|
  }

  lemma StepHandsOut<T(!new)>(run: seq<Deque<T>>, i: nat)
    requires IsRun(run) && i < |run| - 1
    ensures run[i].head <= run[i + 1].head && Out(run[i + 1]) - Out(run[i]) >= run[i + 1].head - run[i].head
  {
    assert StepAt(run, i);
    var d, d' := run[i], run[i + 1];
    var a :| Enabled(d, a) && d' == Apply(d, a);
    HeadMoves(d, a);
    if d'.history != d.history {
      var ev :| d'.history == d.history + [ev];
      HandedOutGrows(d.history, ev);
    }
  }

  lemma {:induction false} Accumulates(heads: seq<int>, outs: seq<int>, j: nat, i: nat)
    requires |heads| == |outs| && j <= i < |heads|
    requires forall k :: 0 <= k < |heads| - 1 ==> 0 <= heads[k + 1] - heads[k] <= outs[k + 1] - outs[k]
    ensures 0 <= heads[i] - heads[j] <= outs[i] - outs[j]
  {
    if j < i {
      Accumulates(heads, outs, j, i - 1);
      assert heads[i - 1 + 1] - heads[i - 1] <= outs[i - 1 + 1] - outs[i - 1];
    }
  }

  /** Head moves on only by handing items out, one item per position. */
  lemma HeadCountsItems<T(!new)>(run: seq<Deque<T>>, j: nat, i: nat)
    requires IsRun(run) && j <= i < |run|
    ensures 0 <= run[i].head - run[j].head <= Out(run[i]) - Out(run[j])
  {
    var heads: seq<int> := seq(|run|, k requires 0 <= k < |run| => run[k].head);
    var outs: seq<int> := seq(|run|, k requires 0 <= k < |run| => Out(run[k]));
    forall k | 0 <= k < |run| - 1
      ensures 0 <= heads[k + 1] - heads[k] <= outs[k + 1] - outs[k]
    {
      StepHandsOut(run, k);
    }
    Accumulates(heads, outs, j, i);
  }

  /**
   A thief comes away from its swap with nothing only if some item was handed out since it
   read head: `j` is a state in which head still was what it had read.
   */
  lemma LostRaceIsExcused<T(!new)>(run: seq<Deque<T>>, j: nat, i: nat, t: nat)
    requires IsRun(run) && j <= i < |run| - 1 && t < |run[i].thieves| == |run[i + 1].thieves| && run[i].thieves[t].SwapHead?
    requires run[j].head == run[i].thieves[t].h
    requires run[i + 1].thieves[t].Away? && run[i + 1].history == run[i].history
    ensures Out(run[i]) > Out(run[j])
  {
    HeadCountsItems(run, j, i);
    var thief := CallsEndProperly(run, i);
  }
}
