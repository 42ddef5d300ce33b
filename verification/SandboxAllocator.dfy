/**
 The memory-capping allocator of the sandbox.  Lua calls it to allocate, resize and free;
 it counts only what passes through it, while the Lua state may already own blocks when it
 is installed.  The counter is a 64-bit size with saturating subtraction.
 */
module SandboxAllocator {
  import opened Common

  const SIZE_LIMIT := 0x1_0000_0000_0000_0000

  type Ptr = nat

  // ----- live bytes -----

  ghost function LiveBytes(blocks: map<Ptr, nat>): nat
  {
    if blocks == map[] then 0
    else
      var p := Pick(blocks.Keys);
      blocks[p] + LiveBytes(blocks - {p})
  }

  ghost function Pick(s: set<Ptr>): (p: Ptr)
    requires s != {}
    ensures p in s
  {
    ghost var p :| p in s;
    p
  }

  lemma {:induction false} LiveWithout(blocks: map<Ptr, nat>, p: Ptr)
    requires p in blocks
    ensures LiveBytes(blocks) == blocks[p] + LiveBytes(blocks - {p})
  {
    var q := Pick(blocks.Keys);
    if q != p {
      LiveWithout(blocks - {q}, p);
      LiveWithout(blocks - {p}, q);
      assert blocks - {q} - {p} == blocks - {p} - {q};
    }
  }

  lemma LiveWith(blocks: map<Ptr, nat>, p: Ptr, n: nat)
    requires p !in blocks
    ensures LiveBytes(blocks[p := n]) == LiveBytes(blocks) + n
  {
    LiveWithout(blocks[p := n], p);
    assert blocks[p := n] - {p} == blocks;
  }

  function SaturatingSub(a: nat, b: nat): nat
  {
    if b <= a then a - b else 0
  }

  // ----- calls -----

  /** A call as the allocator sees it: `owner` is the block being resized or freed, if any. */
  datatype Call = Call(owner: Option<Ptr>, tag: nat, nsize: nat, granted: Option<Ptr>)

  datatype Memory = Memory(used: nat, limit: nat, blocks: map<Ptr, nat>)

  ghost function Freed(m: Memory, c: Call): nat
  {
    if c.owner.Some? && c.owner.value in m.blocks then m.blocks[c.owner.value] else 0
  }

  /** Lua passes blocks it owns, and the C library hands out addresses and sizes that exist. */
  ghost predicate Proper(m: Memory, c: Call)
  {
    && c.nsize < SIZE_LIMIT && c.tag < SIZE_LIMIT
    && (c.owner.Some? ==> c.owner.value in m.blocks)
    && (c.granted.Some? ==> c.granted.value !in m.blocks || c.granted == c.owner)
    && (c.granted.Some? ==> LiveBytes(m.blocks) - Freed(m, c) + c.nsize < SIZE_LIMIT)
  }

  /** The count as it would be after the call, in 64-bit arithmetic. */
  ghost function Projected(m: Memory, c: Call): nat
  {
    (SaturatingSub(m.used, Freed(m, c)) + c.nsize) % SIZE_LIMIT
  }

  ghost predicate Denied(m: Memory, c: Call)
  {
    m.limit != 0 && Projected(m, c) > m.limit
  }

  /** What a call does to the count and to the blocks: a refused request changes nothing. */
  ghost function Step(m: Memory, c: Call): Memory
  {
    var rest := if c.owner.Some? then m.blocks - {c.owner.value} else m.blocks;
    if c.nsize == 0 then m.(used := SaturatingSub(m.used, Freed(m, c)), blocks := rest)
    else if Denied(m, c) || c.granted.None? then m
    else m.(used := Projected(m, c), blocks := rest[c.granted.value := c.nsize])
  }

  /** The two counters the sandbox keeps; `blocks` are the blocks the Lua state owns, with their sizes. */
  class SandboxState {
    var memUsed: nat
    var memLimit: nat
    ghost var blocks: map<Ptr, nat>

    ghost function View(): Memory
      reads this
    {
      Memory(memUsed, memLimit, blocks)
    }

    /** Installing the allocator, with nothing counted yet, on a state that already owns `existing`. */
    constructor (limit: nat, ghost existing: map<Ptr, nat>)
      ensures View() == Memory(0, limit, existing)
    {
      memUsed, memLimit, blocks := 0, limit, existing;
    }

    /**
     One call from Lua: `ptr` with its true size, or null with a tag in place of the size.
     `granted` is what the C library's realloc answers if it is asked.
     */
    method LimitAlloc(ptr: Option<Ptr>, osize: nat, nsize: nat, granted: Option<Ptr>) returns (np: Option<Ptr>)
      requires Proper(View(), Call(ptr, osize, nsize, granted))
      requires ptr.Some? ==> blocks[ptr.value] == osize
      modifies this`memUsed, this`blocks
      ensures View() == Step(old(View()), Call(ptr, osize, nsize, granted))
      ensures nsize == 0 ==> np == None
      ensures nsize > 0 && old(memUsed) + nsize < SIZE_LIMIT ==>
        var kept := if ptr.None? then old(memUsed) else if osize <= old(memUsed) then old(memUsed) - osize else 0;
        np == if memLimit == 0 || kept + nsize <= memLimit then granted else None
    {
      var freed := if ptr.Some? then osize else 0;
      if nsize == 0 {
        blocks := if ptr.Some? then blocks - {ptr.value} else blocks;
        memUsed := memUsed - if freed <= memUsed then freed else memUsed;
        return None;
      }
      if memLimit != 0 {
        var projected := (memUsed - (if freed <= memUsed then freed else memUsed) + nsize) % SIZE_LIMIT;
        if projected > memLimit {
          return None;
        }
      }
      np := granted;
      if np.Some? {
        memUsed := (memUsed - (if freed <= memUsed then freed else memUsed) + nsize) % SIZE_LIMIT;
        blocks := (if ptr.Some? then blocks - {ptr.value} else blocks)[np.value := nsize];
      }
    }

    /** Changing the limit leaves the count alone. */
    method SetMemoryLimit(limit: nat)
      modifies this`memLimit
      ensures View() == old(View()).(limit := limit)
    {
      memLimit := limit;
    }
  }

  ghost predicate IsRun(start: Memory, calls: seq<Call>, states: seq<Memory>)
  {
    && |states| == |calls| + 1 && states[0] == start
    && forall i :: 0 <= i < |calls| ==> StepAt(calls, states, i)
  }

  ghost predicate StepAt(calls: seq<Call>, states: seq<Memory>, i: nat)
    requires i < |calls| && i + 1 < |states|
  {
    Proper(states[i], calls[i]) && states[i + 1] == Step(states[i], calls[i])
  }

  lemma LiveAfterFree(m: Memory, c: Call)
    requires Proper(m, c)
    ensures LiveBytes(if c.owner.Some? then m.blocks - {c.owner.value} else m.blocks) == LiveBytes(m.blocks) - Freed(m, c)
  {
    if c.owner.Some? {
      LiveWithout(m.blocks, c.owner.value);
    }
  }

  /** The count never runs ahead of the live bytes, and live bytes never run further ahead than the baseline. */
  ghost predicate Bounded(m: Memory, baseline: nat)
  {
    m.used < SIZE_LIMIT && m.used <= LiveBytes(m.blocks) <= baseline + m.used
  }

  /** When memory is really granted, the 64-bit sum does not wrap around. */
  lemma NoWrap(m: Memory, c: Call)
    requires Proper(m, c) && m.used <= LiveBytes(m.blocks) && c.granted.Some? && Freed(m, c) <= LiveBytes(m.blocks)
    ensures Projected(m, c) == SaturatingSub(m.used, Freed(m, c)) + c.nsize
  {
    var sum := SaturatingSub(m.used, Freed(m, c)) + c.nsize;
    assert 0 <= sum < SIZE_LIMIT;
  }

  lemma StepKeepsBounds(m: Memory, c: Call, baseline: nat)
    requires Proper(m, c) && Bounded(m, baseline)
    ensures Bounded(Step(m, c), baseline) && Step(m, c).limit == m.limit
    ensures m.limit != 0 && m.used <= m.limit ==> Step(m, c).used <= m.limit
  {
    LiveAfterFree(m, c);
    if c.nsize > 0 && c.granted.Some? && !Denied(m, c) {
      var rest := if c.owner.Some? then m.blocks - {c.owner.value} else m.blocks;
      LiveWith(rest, c.granted.value, c.nsize);
      NoWrap(m, c);
    }
  }

  /** For every run of calls: the counter stays under a non-zero limit, live bytes stay under the baseline plus the limit, and from an empty start the counter is exact. */
  lemma {:induction false} RunStaysCapped(start: Memory, calls: seq<Call>, states: seq<Memory>, i: nat)
    requires IsRun(start, calls, states) && i < |states| && start.used == 0
    ensures states[i].limit == start.limit && states[i].used < SIZE_LIMIT
    ensures states[i].used <= LiveBytes(states[i].blocks) <= LiveBytes(start.blocks) + states[i].used
    ensures start.limit != 0 ==> states[i].used <= start.limit && LiveBytes(states[i].blocks) <= LiveBytes(start.blocks) + start.limit
    ensures start.blocks == map[] ==> states[i].used == LiveBytes(states[i].blocks)
  {
    if i > 0 {
      RunStaysCapped(start, calls, states, i - 1);
      assert StepAt(calls, states, i - 1);
      StepKeepsBounds(states[i - 1], calls[i - 1], LiveBytes(start.blocks));
    }
  }

  // ----- what is granted -----

  /** The size of the block that a call resizes or frees. */
  ghost function OldSize(blocks: map<Ptr, nat>, c: Call): nat
  {
    if c.owner.Some? && c.owner.value in blocks then blocks[c.owner.value] else 0
  }

  ghost function Without(blocks: map<Ptr, nat>, c: Call): map<Ptr, nat>
  {
    if c.owner.Some? then blocks - {c.owner.value} else blocks
  }

  /** Memory the C library can serve is granted exactly if the count, less the block given up but not below zero, plus the new size is within the limit. */
  lemma GrantedIffWithinLimit(start: Memory, calls: seq<Call>, states: seq<Memory>, i: nat)
    requires IsRun(start, calls, states) && i < |calls| && start.used == 0
    requires calls[i].nsize > 0 && calls[i].granted.Some?
    ensures var m, c := states[i], calls[i];
            var kept := if OldSize(m.blocks, c) <= m.used then m.used - OldSize(m.blocks, c) else 0;
            states[i + 1] == if m.limit == 0 || kept + c.nsize <= m.limit
                             then Memory(kept + c.nsize, m.limit, Without(m.blocks, c)[c.granted.value := c.nsize]) else m
  {
    RunStaysCapped(start, calls, states, i);
    assert StepAt(calls, states, i);
    LiveAfterFree(states[i], calls[i]);
    NoWrap(states[i], calls[i]);
  }

  /** From an empty start that is: exactly if the live bytes without the block given up, plus the new size, are within the limit. */
  lemma GrantedIffBytesFit(start: Memory, calls: seq<Call>, states: seq<Memory>, i: nat)
    requires IsRun(start, calls, states) && i < |calls| && start == Memory(0, start.limit, map[])
    requires calls[i].nsize > 0 && calls[i].granted.Some?
    ensures var blocks, c := states[i].blocks, calls[i];
            states[i + 1].blocks == if start.limit == 0 || LiveBytes(blocks) - OldSize(blocks, c) + c.nsize <= start.limit
                                    then Without(blocks, c)[c.granted.value := c.nsize] else blocks
  {
    RunStaysCapped(start, calls, states, i);
    assert StepAt(calls, states, i);
    LiveAfterFree(states[i], calls[i]);
    GrantedIffWithinLimit(start, calls, states, i);
  }

  /** Freeing always succeeds and gives the bytes of the block back, to the count as far as it reaches. */
  lemma FreeingGivesBack(start: Memory, calls: seq<Call>, states: seq<Memory>, i: nat)
    requires IsRun(start, calls, states) && i < |calls| && calls[i].nsize == 0
    ensures states[i + 1].blocks == Without(states[i].blocks, calls[i])
    ensures LiveBytes(states[i + 1].blocks) == LiveBytes(states[i].blocks) - OldSize(states[i].blocks, calls[i])
    ensures states[i + 1].used == if OldSize(states[i].blocks, calls[i]) <= states[i].used then states[i].used - OldSize(states[i].blocks, calls[i]) else 0
  {
    assert StepAt(calls, states, i);
    LiveAfterFree(states[i], calls[i]);
  }

  // ----- changing the limit during a run -----

  datatype Event = Called(call: Call) | LimitSet(limit: nat)

  ghost predicate Happens(m: Memory, ev: Event, m': Memory)
  {
    match ev
    case Called(c) => Proper(m, c) && m' == Step(m, c)
    case LimitSet(n) => m' == m.(limit := n)
  }

  ghost predicate EventAt(events: seq<Event>, states: seq<Memory>, i: nat)
    requires i < |events| && i + 1 < |states|
  {
    Happens(states[i], events[i], states[i + 1])
  }

  /** A run in which the limit may be set anew at any time. */
  ghost predicate IsHistory(start: Memory, events: seq<Event>, states: seq<Memory>)
  {
    && |states| == |events| + 1 && states[0] == start
    && forall i :: 0 <= i < |events| ==> EventAt(events, states, i)
  }

  /** Whatever limits are set, the count stays within the live bytes and those within the baseline plus the count. */
  lemma {:induction false} HistoryStaysBounded(start: Memory, events: seq<Event>, states: seq<Memory>, i: nat)
    requires IsHistory(start, events, states) && i < |states| && start.used == 0
    ensures Bounded(states[i], LiveBytes(start.blocks))
  {
    if i > 0 {
      HistoryStaysBounded(start, events, states, i - 1);
      assert EventAt(events, states, i - 1);
      if events[i - 1].Called? {
        StepKeepsBounds(states[i - 1], events[i - 1].call, LiveBytes(start.blocks));
      }
    }
  }

  lemma StepKeepsCap(m: Memory, c: Call, cap: nat)
    requires 0 < m.limit <= cap && m.used <= cap
    ensures Step(m, c).used <= cap
  {
  }

  /** From a moment on when the count is within a cap that no later limit exceeds, it stays within it; lowering the limit takes nothing back. */
  lemma {:induction false} CapHoldsFrom(start: Memory, events: seq<Event>, states: seq<Memory>, i: nat, j: nat, cap: nat)
    requires IsHistory(start, events, states) && i <= j < |states| && states[i].used <= cap
    requires forall k :: i <= k < j ==> 0 < states[k].limit <= cap
    ensures states[j].used <= cap
  {
    if i < j {
      CapHoldsFrom(start, events, states, i, j - 1, cap);
      assert EventAt(events, states, j - 1);
      if events[j - 1].Called? {
        StepKeepsCap(states[j - 1], events[j - 1].call, cap);
      }
    }
  }
}
