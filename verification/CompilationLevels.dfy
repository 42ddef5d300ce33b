/**
 Levels for compiling rules in parallel.

 Top-level rules are numbered by their position.  `kids[p]` lists the children of rule p as
 its source lists them: a number below |kids| is a child that is itself top-level, anything
 else stands for a null entry or a child that is not.
 */
module CompilationLevels {
  import opened Common
  import opened Chains

  type Family = seq<seq<int>>

  predicate IsTop(kids: Family, c: int)
  {
    0 <= c < |kids|
  }

  function Everyone(kids: Family): set<int>
  {
    set i | 0 <= i < |kids| && IsTop(kids, i)
  }

  /** The distinct top-level children of rule `p`. */
  ghost function Kids(kids: Family, p: int): set<int>
    requires IsTop(kids, p)
  {
    set c | c in kids[p] && IsTop(kids, c)
  }

  /** The entries that count towards the in-degree, repetitions included. */
  ghost function Entries(kids: Family, list: seq<int>): nat
  {
    if list == [] then 0 else Entries(kids, list[..|list| - 1]) + if IsTop(kids, list[|list| - 1]) then 1 else 0
  }

  ghost predicate ListedOnce(kids: Family)
  {
    forall p :: IsTop(kids, p) ==> !Repeats(kids, p)
  }

  /** A walk from a rule to a child of it and on. */
  ghost predicate IsPath(kids: Family, path: seq<int>)
  {
    && |path| > 0
    && (forall i :: 0 <= i < |path| ==> IsTop(kids, path[i]))
    && forall i :: 0 <= i < |path| - 1 ==> path[i + 1] in Kids(kids, path[i])
  }

  ghost predicate IsCycle(kids: Family, path: seq<int>)
  {
    IsPath(kids, path) && |path| >= 2 && path[0] == path[|path| - 1]
  }

  ghost predicate Acyclic(kids: Family)
  {
    forall path :: !IsCycle(kids, path)
  }

  ghost predicate Repeats(kids: Family, p: int)
    requires IsTop(kids, p)
  {
    Entries(kids, kids[p]) != |Kids(kids, p)|
  }

  /** A path that ends in a rule listing a child twice, or in a rule it has visited before. */
  ghost predicate IsTrouble(kids: Family, path: seq<int>)
  {
    IsPath(kids, path) && (Repeats(kids, path[|path| - 1]) || path[|path| - 1] in path[..|path| - 1])
  }

  /** A repeated child or a cycle can be reached from rule `p`. */
  ghost predicate Stuck(kids: Family, p: int)
  {
    exists path :: IsTrouble(kids, path) && path[0] == p
  }

  /** There is a chain of `n` children of children below `p`. */
  ghost predicate HasChain(kids: Family, p: int, n: nat)
  {
    exists path :: IsPath(kids, path) && path[0] == p && |path| == n + 1
  }

  ghost predicate LongestChain(kids: Family, p: int, n: nat)
  {
    HasChain(kids, p, n) && !HasChain(kids, p, n + 1)
  }

  function Flat(levels: seq<seq<int>>): seq<int>
  {
    if levels == [] then [] else Flat(levels[..|levels| - 1]) + levels[|levels| - 1]
  }

  ghost predicate NoRepeats(s: seq<int>)
  {
    forall i, j :: 0 <= i < j < |s| ==> s[i] != s[j]
  }

  ghost function SetOf(s: seq<int>): set<int>
  {
    set x | x in s
  }

  // ----- counting -----

  lemma {:induction false} DistinctAtMostEntries(kids: Family, list: seq<int>)
    ensures |set c | c in list && IsTop(kids, c)| <= Entries(kids, list)
  {
    var all := set c | c in list && IsTop(kids, c);
    if list == [] {
      assert all == {};
    } else {
      var n := |list| - 1;
      DistinctAtMostEntries(kids, list[..n]);
      var before := set c | c in list[..n] && IsTop(kids, c);
      var last := if IsTop(kids, list[n]) then {list[n]} else {};
      assert all <= before + last;
      SubsetSize(all, before + last);
    }
  }

  /** The open in-degree of rule `p` once the rules in `done` have been dealt with. */
  ghost function OpenDegree(kids: Family, p: int, done: set<int>): int
    requires IsTop(kids, p)
  {
    Entries(kids, kids[p]) - |Kids(kids, p) * done|
  }

  lemma ZeroMeansAllDone(kids: Family, p: int, done: set<int>)
    requires IsTop(kids, p) && OpenDegree(kids, p, done) <= 0
    ensures Kids(kids, p) <= done && Entries(kids, kids[p]) == |Kids(kids, p)|
  {
    DistinctAtMostEntries(kids, kids[p]);
    assert Kids(kids, p) == set c | c in kids[p] && IsTop(kids, c);
    var open := Kids(kids, p) - done;
    assert Kids(kids, p) == open + Kids(kids, p) * done;
    if open != {} {
      var x := Member(open);
      SubsetSize({x}, open);
    }
    forall c | c in Kids(kids, p)
      ensures c in done
    {
      assert c !in open;
    }
    assert Kids(kids, p) * done == Kids(kids, p);
  }

  lemma DegreeAfter(kids: Family, p: int, done: set<int>, a: int)
    requires IsTop(kids, p) && a !in done
    ensures OpenDegree(kids, p, done + {a}) == OpenDegree(kids, p, done) - if a in Kids(kids, p) then 1 else 0
  {
    var before, after := Kids(kids, p) * done, Kids(kids, p) * (done + {a});
    if a in Kids(kids, p) {
      assert after == before + {a};
    } else {
      assert after == before;
    }
  }

  // ----- the level builder -----

  method CountChildren(kids: Family) returns (inDegree: seq<int>)
    ensures |inDegree| == |kids|
    ensures forall p :: IsTop(kids, p) ==> inDegree[p] == OpenDegree(kids, p, {})
  {
    inDegree := [];
    for p := 0 to |kids|
      invariant |inDegree| == p
      invariant forall q :: 0 <= q < p ==> inDegree[q] == Entries(kids, kids[q])
    {
      var count := 0;
      for i := 0 to |kids[p]|
        invariant count == Entries(kids, kids[p][..i])
      {
        assert kids[p][..i + 1][..i] == kids[p][..i];
        if IsTop(kids, kids[p][i]) {
          count := count + 1;
        }
      }
      assert kids[p][..|kids[p]|] == kids[p];
      inDegree := inDegree + [count];
    }
    forall p | IsTop(kids, p)
      ensures inDegree[p] == OpenDegree(kids, p, {})
    {
      assert Kids(kids, p) * {} == {};
    }
  }

  /** In-degrees are right for the rules not yet placed, and `ready` lists those of them with none left. */
  ghost predicate Tracking(kids: Family, inDegree: seq<int>, remaining: set<int>, ready: seq<int>, done: set<int>)
  {
    && |inDegree| == |kids| && remaining <= Everyone(kids)
    && NoRepeats(ready)
    && (forall p :: p in remaining ==> inDegree[p] == OpenDegree(kids, p, done))
    && (forall p :: p in ready <==> p in remaining && inDegree[p] == 0)
    && (forall p :: p in remaining ==> inDegree[p] >= 0)
  }

  /** Rule `a` is placed: every parent still waiting loses one open edge, however often it lists `a`. */
  method Relax(kids: Family, a: int, remaining: set<int>, degrees: seq<int>, ready0: seq<int>, ghost done: set<int>)
    returns (inDegree: seq<int>, ready: seq<int>)
    requires IsTop(kids, a) && a !in done && Tracking(kids, degrees, remaining, ready0, done)
    ensures Tracking(kids, inDegree, remaining, ready, done + {a})
  {
    inDegree, ready := degrees, ready0;
    for p := 0 to |kids|
      invariant |inDegree| == |kids| && NoRepeats(ready)
      invariant forall q :: q in remaining ==> inDegree[q] == OpenDegree(kids, q, if q < p then done + {a} else done)
      invariant forall q :: q in ready <==> q in remaining && inDegree[q] == 0
      invariant forall q :: q in remaining ==> inDegree[q] >= 0
    {
      if p !in remaining {
        continue;
      }
      DegreeAfter(kids, p, done, a);
      if a in kids[p] {
        if inDegree[p] == 0 {
          ZeroMeansAllDone(kids, p, done);
          assert a in Kids(kids, p);
        }
        inDegree := inDegree[p := inDegree[p] - 1];
        if inDegree[p] == 0 {
          ready := ready + [p];
        }
      }
    }
  }

  ghost predicate ChildIn(kids: Family, p: int, level: seq<int>)
  {
    IsTop(kids, p) && exists c :: c in level && c in Kids(kids, p)
  }

  /** A rule that became ready when a level was placed has a child in that level. */
  lemma ReadyHasChild(kids: Family, before: seq<int>, after: seq<int>, remaining: set<int>, ready: seq<int>, done: set<int>, level: seq<int>)
    requires Tracking(kids, before, remaining, [], done) && Tracking(kids, after, remaining, ready, done + SetOf(level))
    ensures forall p :: p in ready ==> ChildIn(kids, p, level)
  {
    forall p | p in ready
      ensures ChildIn(kids, p, level)
    {
      assert p in Everyone(kids) && p !in [];
      var newer := Kids(kids, p) * SetOf(level);
      assert Kids(kids, p) * (done + SetOf(level)) == Kids(kids, p) * done + newer;
      if newer != {} {
        var c := Member(newer);
      }
    }
  }

  /** The rules of a placed level, one after another. */
  method RelaxLevel(kids: Family, level: seq<int>, remaining: set<int>, degrees: seq<int>, ghost done: set<int>)
    returns (inDegree: seq<int>, ready: seq<int>)
    requires NoRepeats(level) && SetOf(level) !! done && (forall a :: a in level ==> IsTop(kids, a))
    requires Tracking(kids, degrees, remaining, [], done)
    ensures Tracking(kids, inDegree, remaining, ready, done + SetOf(level))
  {
    inDegree, ready := degrees, [];
    assert done + SetOf(level[..0]) == done;
    for i := 0 to |level|
      invariant Tracking(kids, inDegree, remaining, ready, done + SetOf(level[..i]))
    {
      assert level[i] in level;
      assert level[i] !in done + SetOf(level[..i]);
      inDegree, ready := Relax(kids, level[i], remaining, inDegree, ready, done + SetOf(level[..i]));
      assert level[..i + 1] == level[..i] + [level[i]];
      assert done + SetOf(level[..i]) + {level[i]} == done + SetOf(level[..i + 1]);
    }
    assert level[..|level|] == level;
  }

  /** All top-level children of the rule are in `done`, and none is listed twice. */
  ghost predicate Settled(kids: Family, p: int, done: set<int>)
  {
    IsTop(kids, p) && Kids(kids, p) <= done && Entries(kids, kids[p]) == |Kids(kids, p)|
  }

  /** Each rule of a regular level has all its top-level children in earlier levels. */
  ghost predicate ChildrenEarlier(kids: Family, levels: seq<seq<int>>, k: nat)
    requires k < |levels|
  {
    forall p :: p in levels[k] ==> Settled(kids, p, SetOf(Flat(levels[..k])))
  }

  /** Each rule of a later level has a child in the level just before, so it could not have come earlier. */
  ghost predicate ChildJustBefore(kids: Family, levels: seq<seq<int>>, k: nat)
    requires k < |levels|
  {
    k > 0 ==> forall p :: p in levels[k] ==> ChildIn(kids, p, levels[k - 1])
  }

  ghost predicate LevelOk(kids: Family, levels: seq<seq<int>>, k: nat)
    requires k < |levels|
  {
    ChildrenEarlier(kids, levels, k) && ChildJustBefore(kids, levels, k)
  }

  /** The members of `from` in the order of the rules. */
  method InOrder(kids: Family, from: set<int>) returns (level: seq<int>)
    requires from <= Everyone(kids)
    ensures NoRepeats(level) && forall p :: p in level <==> p in from
  {
    level := [];
    for p := 0 to |kids|
      invariant NoRepeats(level)
      invariant forall q :: q in level <==> 0 <= q < p && q in from
    {
      if p in from {
        level := level + [p];
      }
    }
    forall q | q in from
      ensures q in level
    {
      assert q in Everyone(kids);
    }
  }

  /** What holds between two levels. */
  ghost predicate Between(kids: Family, levels: seq<seq<int>>, remaining: set<int>, inDegree: seq<int>, current: seq<int>)
  {
    && Tracking(kids, inDegree, remaining, current, SetOf(Flat(levels)))
    && NoRepeats(Flat(levels)) && SetOf(Flat(levels)) <= Everyone(kids)
    && remaining == Everyone(kids) - SetOf(Flat(levels))
    && (forall k :: 0 <= k < |levels| ==> LevelOk(kids, levels, k))
    && (levels != [] ==> forall p :: p in current ==> ChildIn(kids, p, levels[|levels| - 1]))
  }

  method FirstLevel(kids: Family) returns (inDegree: seq<int>, current: seq<int>)
    ensures Between(kids, [], Everyone(kids), inDegree, current)
  {
    inDegree := CountChildren(kids);
    current := InOrder(kids, set p | p in Everyone(kids) && inDegree[p] == 0);
    assert SetOf(Flat([])) == {};
    forall p | p in Everyone(kids)
      ensures inDegree[p] >= 0
    {
      assert Kids(kids, p) * {} == {};
    }
  }

  /** One turn of the loop: place the ready rules, then see which rules that made ready. */
  method PlaceLevel(kids: Family, levels: seq<seq<int>>, remaining: set<int>, inDegree: seq<int>, current: seq<int>)
    returns (levels': seq<seq<int>>, remaining': set<int>, inDegree': seq<int>, current': seq<int>)
    requires Between(kids, levels, remaining, inDegree, current) && current != []
    ensures Between(kids, levels', remaining', inDegree', current') && remaining' < remaining
  {
    ghost var done := SetOf(Flat(levels));
    LevelIsEarly(kids, inDegree, remaining, current, done);
    remaining' := remaining - set p | p in current;
    TakenOut(kids, inDegree, remaining, current, remaining', done);
    inDegree', current' := RelaxLevel(kids, current, remaining', inDegree, done);
    levels' := levels + [current];
    ReadyHasChild(kids, inDegree, inDegree', remaining', current', done, current);
    StillBetween(kids, levels, remaining, current, remaining', inDegree', current');
  }

  lemma StillBetween(kids: Family, levels: seq<seq<int>>, remaining: set<int>, level: seq<int>, rest: set<int>, inDegree: seq<int>, ready: seq<int>)
    requires NoRepeats(Flat(levels)) && SetOf(Flat(levels)) <= Everyone(kids) && remaining == Everyone(kids) - SetOf(Flat(levels))
    requires forall k :: 0 <= k < |levels| ==> LevelOk(kids, levels, k)
    requires levels != [] ==> forall p :: p in level ==> ChildIn(kids, p, levels[|levels| - 1])
    requires NoRepeats(level) && SetOf(level) <= remaining && rest == remaining - SetOf(level)
    requires forall p :: p in level ==> Settled(kids, p, SetOf(Flat(levels)))
    requires Tracking(kids, inDegree, rest, ready, SetOf(Flat(levels)) + SetOf(level))
    requires forall p :: p in ready ==> ChildIn(kids, p, level)
    ensures Between(kids, levels + [level], rest, inDegree, ready)
  {
    var more := levels + [level];
    LevelPlaced(kids, levels, level);
    Differences(Everyone(kids), SetOf(Flat(levels)), SetOf(level));
    assert forall k :: 0 <= k < |more| ==> LevelOk(kids, more, k);
    assert more[|more| - 1] == level;
  }

  lemma Differences(all: set<int>, done: set<int>, more: set<int>)
    requires done <= all && more <= all - done
    ensures all - done - more == all - (done + more) && done + more <= all && more !! done
  {
  }

  lemma TakenOut(kids: Family, inDegree: seq<int>, remaining: set<int>, current: seq<int>, rest: set<int>, done: set<int>)
    requires Tracking(kids, inDegree, remaining, current, done) && current != [] && remaining !! done
    requires rest == remaining - SetOf(current)
    ensures rest < remaining && SetOf(current) <= remaining && SetOf(current) !! done
    ensures Tracking(kids, inDegree, rest, [], done)
  {
    assert current[0] in current;
    assert current[0] in remaining && current[0] !in rest;
    NothingReady(kids, inDegree, remaining, current, rest, done);
  }

  /** Every rule of the set lists a child twice or has a child in the set. */
  ghost predicate Held(kids: Family, rest: set<int>)
  {
    rest <= Everyone(kids) && forall p :: p in rest ==> Repeats(kids, p) || Kids(kids, p) * rest != {}
  }

  lemma LeftoversAreHeld(kids: Family, inDegree: seq<int>, remaining: set<int>, done: set<int>)
    requires Tracking(kids, inDegree, remaining, [], done) && remaining == Everyone(kids) - done
    ensures Held(kids, remaining)
  {
    forall p | p in remaining
      ensures Repeats(kids, p) || Kids(kids, p) * remaining != {}
    {
      assert p in Everyone(kids) && inDegree[p] > 0;
      if Kids(kids, p) * remaining == {} {
        forall c | c in Kids(kids, p)
          ensures c in done
        {
          assert c !in Kids(kids, p) * remaining;
        }
        assert Kids(kids, p) * done == Kids(kids, p);
      }
    }
  }

  lemma LevelsStay(kids: Family, levels: seq<seq<int>>, level: seq<int>)
    requires forall k :: 0 <= k < |levels| ==> LevelOk(kids, levels, k)
    ensures forall k :: 0 <= k < |levels| ==> LevelOk(kids, levels + [level], k)
  {
    forall k | 0 <= k < |levels|
      ensures LevelOk(kids, levels + [level], k)
    {
      assert LevelOk(kids, levels, k);
      assert (levels + [level])[..k] == levels[..k];
    }
  }

  lemma SameMembers(s: seq<int>, members: set<int>)
    requires forall p :: p in s <==> p in members
    ensures SetOf(s) == members
  {
    forall p
      ensures p in SetOf(s) <==> p in members
    {
    }
  }

  /** The regular levels, and what is left over. */
  ghost predicate Placed(kids: Family, regular: seq<seq<int>>, rest: seq<int>)
  {
    && NoRepeats(Flat(regular)) && SetOf(Flat(regular)) <= Everyone(kids)
    && NoRepeats(rest) && SetOf(rest) == Everyone(kids) - SetOf(Flat(regular))
    && (forall k :: 0 <= k < |regular| ==> LevelOk(kids, regular, k))
    && Held(kids, SetOf(rest))
  }

  /** All levels, in order: what is left over makes one last level. */
  ghost function AllLevels(regular: seq<seq<int>>, rest: seq<int>): seq<seq<int>>
  {
    if rest == [] then regular else regular + [rest]
  }

  /**
   Every rule is placed exactly once, always.  Regular levels put children strictly before
   their parents; whatever never became ready goes into one last level.
   */
  method BuildCompilationLevels(kids: Family) returns (levels: seq<seq<int>>, ghost regular: seq<seq<int>>, ghost rest: seq<int>)
    ensures Placed(kids, regular, rest) && levels == AllLevels(regular, rest)
    ensures NoRepeats(Flat(levels)) && SetOf(Flat(levels)) == Everyone(kids)
  {
    var remaining := Everyone(kids);
    var inDegree, current := FirstLevel(kids);
    levels := [];
    while current != []
      invariant Between(kids, levels, remaining, inDegree, current)
      decreases remaining
    {
      levels, remaining, inDegree, current := PlaceLevel(kids, levels, remaining, inDegree, current);
    }
    regular := levels;
    LeftoversAreHeld(kids, inDegree, remaining, SetOf(Flat(levels)));
    var leftovers := InOrder(kids, remaining);
    SameMembers(leftovers, remaining);
    rest := leftovers;
    PlacedRest(levels, leftovers);
    if leftovers != [] {
      levels := levels + [leftovers];
    } else {
      assert SetOf(leftovers) == {};
    }
    EverythingPlaced(kids, regular, rest);
  }

  lemma EverythingPlaced(kids: Family, regular: seq<seq<int>>, rest: seq<int>)
    requires Placed(kids, regular, rest)
    ensures NoRepeats(Flat(AllLevels(regular, rest))) && SetOf(Flat(AllLevels(regular, rest))) == Everyone(kids)
  {
    PlacedRest(regular, rest);
    if rest == [] {
      assert SetOf(rest) == {};
      EmptyDifference(Everyone(kids), SetOf(Flat(regular)));
    } else {
      assert SetOf(Flat(regular)) + SetOf(rest) == Everyone(kids);
    }
  }

  lemma {:induction false} LevelHolding(levels: seq<seq<int>>, p: int) returns (k: nat)
    requires p in Flat(levels)
    ensures k < |levels| && p in levels[k]
  {
    var n := |levels| - 1;
    if p in levels[n] {
      k := n;
    } else {
      k := LevelHolding(levels[..n], p);
    }
  }

  /** Along a path of children the level number goes down by at least one a step. */
  lemma {:induction false} PathDescends(kids: Family, levels: seq<seq<int>>, path: seq<int>, i: nat, j: nat, k: nat) returns (m: nat)
    requires forall l :: 0 <= l < |levels| ==> LevelOk(kids, levels, l)
    requires IsPath(kids, path) && i <= j < |path|
    requires k < |levels| && path[i] in levels[k]
    ensures m < |levels| && path[j] in levels[m] && m + (j - i) <= k
    decreases j
  {
    if i == j {
      m := k;
    } else {
      var before := PathDescends(kids, levels, path, i, j - 1, k);
      assert LevelOk(kids, levels, before);
      assert path[j - 1 + 1] in Kids(kids, path[j - 1]);
      assert path[j] in SetOf(Flat(levels[..before]));
      m := LevelHolding(levels[..before], path[j]);
    }
  }

  lemma {:induction false} OneLevelOnly(levels: seq<seq<int>>, k: nat, m: nat, p: int)
    requires NoRepeats(Flat(levels)) && k <= m < |levels| && p in levels[k] && p in levels[m]
    ensures k == m
  {
    var n := |levels| - 1;
    var a, b := Flat(levels[..n]), levels[n];
    if m < n {
      forall i, j | 0 <= i < j < |a|
        ensures a[i] != a[j]
      {
        assert Flat(levels)[i] == a[i] && Flat(levels)[j] == a[j];
      }
      OneLevelOnly(levels[..n], k, m, p);
    } else if k < n {
      FlatHas(levels[..n], k, p);
      var i :| 0 <= i < |a| && a[i] == p;
      var j :| 0 <= j < |b| && b[j] == p;
      HalvesDiffer(a, b, i, j);
    }
  }

  lemma HalvesDiffer(a: seq<int>, b: seq<int>, i: nat, j: nat)
    requires NoRepeats(a + b) && i < |a| && j < |b|
    ensures a[i] != b[j]
  {
    assert (a + b)[i] == a[i] && (a + b)[|a| + j] == b[j];
  }

  lemma {:induction false} FlatHas(levels: seq<seq<int>>, k: nat, p: int)
    requires k < |levels| && p in levels[k]
    ensures p in Flat(levels)
  {
    var n := |levels| - 1;
    if k < n {
      FlatHas(levels[..n], k, p);
    }
  }

  lemma EmptyDifference(a: set<int>, b: set<int>)
    requires a - b == {} && b <= a
    ensures a == b
  {
    forall x | x in a
      ensures x in b
    {
      assert x !in a - b;
    }
  }

  lemma LevelIsEarly(kids: Family, inDegree: seq<int>, remaining: set<int>, current: seq<int>, done: set<int>)
    requires Tracking(kids, inDegree, remaining, current, done)
    ensures forall p :: p in current ==> Settled(kids, p, done)
  {
    forall p | p in current
      ensures Settled(kids, p, done)
    {
      assert p in Everyone(kids);
      ZeroMeansAllDone(kids, p, done);
    }
  }

  lemma NothingReady(kids: Family, inDegree: seq<int>, before: set<int>, level: seq<int>, remaining: set<int>, done: set<int>)
    requires Tracking(kids, inDegree, before, level, done) && remaining == before - SetOf(level)
    ensures Tracking(kids, inDegree, remaining, [], done)
  {
  }

  lemma FlatSnoc(levels: seq<seq<int>>, level: seq<int>)
    ensures Flat(levels + [level]) == Flat(levels) + level
  {
    assert (levels + [level])[..|levels|] == levels;
  }

  lemma LevelPlaced(kids: Family, levels: seq<seq<int>>, level: seq<int>)
    requires NoRepeats(Flat(levels)) && NoRepeats(level) && SetOf(level) !! SetOf(Flat(levels))
    requires forall p :: p in level ==> Settled(kids, p, SetOf(Flat(levels)))
    requires forall k :: 0 <= k < |levels| ==> LevelOk(kids, levels, k)
    requires levels != [] ==> forall p :: p in level ==> ChildIn(kids, p, levels[|levels| - 1])
    ensures NoRepeats(Flat(levels + [level])) && SetOf(Flat(levels + [level])) == SetOf(Flat(levels)) + SetOf(level)
    ensures forall k :: 0 <= k <= |levels| ==> LevelOk(kids, levels + [level], k)
  {
    PlacedRest(levels, level);
    LevelsStay(kids, levels, level);
    assert (levels + [level])[..|levels|] == levels;
    assert LevelOk(kids, levels + [level], |levels|);
  }

  lemma ConcatNoRepeats(a: seq<int>, b: seq<int>)
    requires NoRepeats(a) && NoRepeats(b) && SetOf(a) !! SetOf(b)
    ensures NoRepeats(a + b)
  {
    forall i, j | 0 <= i < j < |a + b|
      ensures (a + b)[i] != (a + b)[j]
    {
      if i < |a| <= j {
        assert a[i] in SetOf(a) && b[j - |a|] in SetOf(b);
      }
    }
  }

  lemma PlacedRest(levels: seq<seq<int>>, rest: seq<int>)
    requires NoRepeats(Flat(levels)) && NoRepeats(rest) && SetOf(rest) !! SetOf(Flat(levels))
    ensures NoRepeats(Flat(levels + [rest])) && SetOf(Flat(levels + [rest])) == SetOf(Flat(levels)) + SetOf(rest)
  {
    FlatSnoc(levels, rest);
    ConcatNoRepeats(Flat(levels), rest);
  }

  // ----- which rules are left over, and how early the others come -----

  /** A path inside the set: to a rule that lists a child twice, or of any length. */
  lemma {:induction false} PathInside(kids: Family, s: set<int>, p: int, n: nat) returns (path: seq<int>)
    requires Held(kids, s) && p in s && n > 0
    ensures IsPath(kids, path) && path[0] == p && |path| <= n && forall i :: 0 <= i < |path| ==> path[i] in s
    ensures |path| == n || Repeats(kids, path[|path| - 1])
    decreases n
  {
    assert p in Everyone(kids);
    if n == 1 || Repeats(kids, p) {
      path := [p];
    } else {
      var c := Member(Kids(kids, p) * s);
      var rest := PathInside(kids, s, c, n - 1);
      path := [p] + rest;
      Prepended(kids, p, rest);
    }
  }

  lemma Prepended(kids: Family, p: int, rest: seq<int>)
    requires IsTop(kids, p) && IsPath(kids, rest) && rest[0] in Kids(kids, p)
    ensures IsPath(kids, [p] + rest)
  {
    var path := [p] + rest;
    forall i | 0 <= i < |path| - 1
      ensures path[i + 1] in Kids(kids, path[i])
    {
      if i > 0 {
        assert rest[i - 1 + 1] in Kids(kids, rest[i - 1]);
      }
    }
  }

  lemma HeldIsStuck(kids: Family, s: set<int>, p: int)
    requires Held(kids, s) && p in s
    ensures Stuck(kids, p)
  {
    var path := PathInside(kids, s, p, |s| + 1);
    if Repeats(kids, path[|path| - 1]) {
      assert IsTrouble(kids, path);
    } else {
      Pigeonhole(path, s);
      var i, j :| 0 <= i < j < |path| && path[i] == path[j];
      var back := path[..j + 1];
      assert IsPath(kids, back);
      assert back[..|back| - 1][i] == back[|back| - 1];
      assert IsTrouble(kids, back);
    }
  }

  lemma PlacedIsNotStuck(kids: Family, regular: seq<seq<int>>, rest: seq<int>, k: nat, p: int)
    requires Placed(kids, regular, rest) && k < |regular| && p in regular[k]
    ensures !Stuck(kids, p)
  {
    forall path | IsPath(kids, path) && path[0] == p
      ensures !IsTrouble(kids, path)
    {
      var n := |path| - 1;
      var m := PathDescends(kids, regular, path, 0, n, k);
      assert LevelOk(kids, regular, m);
      if path[n] in path[..n] {
        var i :| 0 <= i < n && path[i] == path[n];
        NeverBack(kids, regular, path, i, k);
      }
    }
  }

  /** Along a path the level number goes down, so the path does not come back. */
  lemma NeverBack(kids: Family, regular: seq<seq<int>>, path: seq<int>, i: nat, k: nat)
    requires forall j :: 0 <= j < |regular| ==> LevelOk(kids, regular, j)
    requires NoRepeats(Flat(regular)) && IsPath(kids, path) && i < |path| - 1 && k < |regular| && path[0] in regular[k]
    ensures path[i] != path[|path| - 1]
  {
    var m := PathDescends(kids, regular, path, 0, i, k);
    var l := PathDescends(kids, regular, path, i, |path| - 1, m);
    if path[i] == path[|path| - 1] {
      OneLevelOnly(regular, l, m, path[i]);
    }
  }

  /** A rule is left over exactly if a cycle or a repeated child can be reached from it. */
  lemma LeftOverIffStuck(kids: Family, regular: seq<seq<int>>, rest: seq<int>, p: int)
    requires Placed(kids, regular, rest) && IsTop(kids, p)
    ensures p in rest <==> Stuck(kids, p)
  {
    if p in rest {
      HeldIsStuck(kids, SetOf(rest), p);
    } else {
      var k := RegularLevel(kids, regular, rest, p);
      PlacedIsNotStuck(kids, regular, rest, k, p);
    }
  }

  lemma RegularLevel(kids: Family, regular: seq<seq<int>>, rest: seq<int>, p: int) returns (k: nat)
    requires Placed(kids, regular, rest) && IsTop(kids, p) && p !in rest
    ensures k < |regular| && p in regular[k]
  {
    assert p in Everyone(kids) && p !in SetOf(rest);
    k := LevelHolding(regular, p);
  }

  lemma {:induction false} ChainDown(kids: Family, regular: seq<seq<int>>, k: nat, p: int) returns (path: seq<int>)
    requires forall j :: 0 <= j < |regular| ==> LevelOk(kids, regular, j)
    requires k < |regular| && p in regular[k]
    ensures IsPath(kids, path) && path[0] == p && |path| == k + 1
  {
    assert LevelOk(kids, regular, k);
    if k == 0 {
      path := [p];
    } else {
      var c :| c in regular[k - 1] && c in Kids(kids, p);
      var rest := ChainDown(kids, regular, k - 1, c);
      path := [p] + rest;
      Prepended(kids, p, rest);
    }
  }

  lemma LevelIsLongest(kids: Family, regular: seq<seq<int>>, rest: seq<int>, k: nat, p: int)
    requires Placed(kids, regular, rest) && k < |regular| && p in regular[k]
    ensures LongestChain(kids, p, k)
  {
    var path := ChainDown(kids, regular, k, p);
    forall longer | IsPath(kids, longer) && longer[0] == p && |longer| == k + 2
      ensures false
    {
      var m := PathDescends(kids, regular, longer, 0, k + 1, k);
    }
  }

  lemma LongestIsUnique(kids: Family, p: int, m: nat, n: nat)
    requires LongestChain(kids, p, m) && HasChain(kids, p, n)
    ensures n <= m
  {
    if n > m {
      var path :| IsPath(kids, path) && path[0] == p && |path| == n + 1;
      var shorter := path[..m + 2];
      assert IsPath(kids, shorter);
      assert false;
    }
  }

  /** Every other rule sits exactly at the length of its longest chain of children: no level is later than it must be. */
  lemma LevelIffLongestChain(kids: Family, regular: seq<seq<int>>, rest: seq<int>, k: nat, p: int)
    requires Placed(kids, regular, rest) && IsTop(kids, p) && k < |regular|
    ensures p in regular[k] <==> !Stuck(kids, p) && LongestChain(kids, p, k)
  {
    LeftOverIffStuck(kids, regular, rest, p);
    if p in regular[k] {
      PlacedIsNotStuck(kids, regular, rest, k, p);
      LevelIsLongest(kids, regular, rest, k, p);
    }
    if !Stuck(kids, p) && LongestChain(kids, p, k) {
      var m := RegularLevel(kids, regular, rest, p);
      LevelIsLongest(kids, regular, rest, m, p);
      LongestIsUnique(kids, p, m, k);
      LongestIsUnique(kids, p, k, m);
    }
  }

  /** So nothing is left over exactly if the child graph has no cycle and no child is listed twice. */
  lemma NothingLeftIff(kids: Family, regular: seq<seq<int>>, rest: seq<int>)
    requires Placed(kids, regular, rest)
    ensures rest == [] <==> Acyclic(kids) && ListedOnce(kids)
  {
    if rest != [] {
      assert rest[0] in SetOf(rest);
      HeldIsStuck(kids, SetOf(rest), rest[0]);
      var path :| IsTrouble(kids, path) && path[0] == rest[0];
      TroubleIsCycleOrRepeat(kids, path);
    } else {
      forall p | IsTop(kids, p)
        ensures !Stuck(kids, p)
      {
        LeftOverIffStuck(kids, regular, rest, p);
      }
      NoneStuck(kids);
    }
  }

  lemma TroubleIsCycleOrRepeat(kids: Family, path: seq<int>)
    requires IsTrouble(kids, path)
    ensures !(Acyclic(kids) && ListedOnce(kids))
  {
    var n := |path| - 1;
    if !Repeats(kids, path[n]) {
      var i :| 0 <= i < n && path[i] == path[n];
      var cycle := path[i..];
      forall m | 0 <= m < |cycle| - 1
        ensures cycle[m + 1] in Kids(kids, cycle[m])
      {
        assert path[i + m + 1] in Kids(kids, path[i + m]);
      }
      assert IsCycle(kids, cycle);
    }
  }

  lemma NoneStuck(kids: Family)
    requires forall p :: IsTop(kids, p) ==> !Stuck(kids, p)
    ensures Acyclic(kids) && ListedOnce(kids)
  {
    forall p | IsTop(kids, p)
      ensures !Repeats(kids, p)
    {
      assert !IsTrouble(kids, [p]);
    }
    forall path
      ensures !IsCycle(kids, path)
    {
      if IsCycle(kids, path) {
        assert false;
      }
    }
  }
}
