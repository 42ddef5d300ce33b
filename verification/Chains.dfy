/**
 Finite graphs in which every node has at most one successor: rules and the one rule each
 of them may depend on.  A walk from a node either ends or runs into a cycle.
 */
module Chains {
  import opened Common

  /** The successor of every node; the keys are the nodes. */
  type Graph = map<int, Option<int>>

  ghost predicate Closed(g: Graph)
  {
    forall v {:trigger g[v]} :: v in g && g[v].Some? ==> g[v].value in g
  }

  /** The node reached from `v` by `k` edges, if the walk lasts that long. */
  ghost function Walk(g: Graph, v: int, k: nat): (r: Option<int>)
    requires Closed(g) && v in g
    ensures r.Some? ==> r.value in g
  {
    if k == 0 then Some(v)
    else
      var u := Walk(g, v, k - 1);
      if u.None? then None else var w: int := u.value; g[w]
  }

  ghost predicate Ends(g: Graph, v: int)
    requires Closed(g) && v in g
  {
    exists k :: Walk(g, v, k).None?
  }

  ghost predicate HasCycle(g: Graph)
    requires Closed(g)
  {
    exists v, k :: v in g && k > 0 && Walk(g, v, k) == Some(v)
  }

  /** Edges into the id `sentinel` are not seen. */
  function Ignore(g: Graph, sentinel: int): Graph
  {
    map v | v in g :: if g[v] == Some(sentinel) then None else g[v]
  }

  // ----- walks -----

  lemma {:induction false} WalkAdd(g: Graph, v: int, j: nat, k: nat)
    requires Closed(g) && v in g && Walk(g, v, j).Some?
    ensures Walk(g, v, j + k) == Walk(g, Walk(g, v, j).value, k)
  {
    if k > 0 {
      WalkAdd(g, v, j, k - 1);
    }
  }

  lemma {:induction false} WalkStops(g: Graph, v: int, j: nat, k: nat)
    requires Closed(g) && v in g && j <= k && Walk(g, v, j).None?
    ensures Walk(g, v, k).None?
  {
    if j < k {
      WalkStops(g, v, j, k - 1);
    }
  }

  /** The number of nodes on the walk from `v`, itself included. */
  ghost function Length(g: Graph, v: int): (n: nat)
    requires Closed(g) && v in g && Ends(g, v)
    ensures n > 0 && Walk(g, v, n).None? && forall j :: 0 <= j < n ==> Walk(g, v, j).Some?
  {
    var k :| Walk(g, v, k).None?;
    FirstStop(g, v, k)
  }

  ghost function FirstStop(g: Graph, v: int, k: nat): (n: nat)
    requires Closed(g) && v in g && Walk(g, v, k).None?
    ensures n > 0 && Walk(g, v, n).None? && forall j :: 0 <= j < n ==> Walk(g, v, j).Some?
  {
    if Walk(g, v, k - 1).None? then FirstStop(g, v, k - 1)
    else
      assert forall j :: 0 <= j < k ==> Walk(g, v, j).Some? by {
        forall j | 0 <= j < k
          ensures Walk(g, v, j).Some?
        {
          if Walk(g, v, j).None? { WalkStops(g, v, j, k - 1); }
        }
      }
      k
  }

  ghost function Depth(g: Graph, v: int): nat
    requires Closed(g) && v in g && Ends(g, v)
  {
    Length(g, v) - 1
  }

  lemma LengthIs(g: Graph, v: int, n: nat)
    requires Closed(g) && v in g && n > 0 && Walk(g, v, n).None? && Walk(g, v, n - 1).Some?
    ensures Ends(g, v) && Length(g, v) == n
  {
    var m := Length(g, v);
    if m < n {
      WalkStops(g, v, m, n - 1);
    }
  }

  /** A node without a successor has depth 0; otherwise it is one deeper than its successor. */
  lemma DepthStep(g: Graph, v: int)
    requires Closed(g) && v in g
    ensures g[v].None? ==> Ends(g, v) && Depth(g, v) == 0
    ensures g[v].Some? ==> (Ends(g, v) <==> Ends(g, g[v].value))
    ensures g[v].Some? && Ends(g, v) ==> Depth(g, v) == Depth(g, g[v].value) + 1
  {
    assert Walk(g, v, 0) == Some(v) && Walk(g, v, 1) == g[v];
    if g[v].None? {
      LengthIs(g, v, 1);
    } else {
      var u := g[v].value;
      if Ends(g, u) {
        var n := Length(g, u);
        WalkAdd(g, v, 1, n);
        WalkAdd(g, v, 1, n - 1);
        LengthIs(g, v, n + 1);
      }
      if Ends(g, v) {
        var n := Length(g, v);
        assert n > 1;
        WalkAdd(g, v, 1, n - 1);
      }
    }
  }

  // ----- cycles -----

  /** Returning to a node already met means that the walk never ends. */
  lemma RepeatNeverEnds(g: Graph, v: int, i: nat, j: nat)
    requires Closed(g) && v in g && i < j && Walk(g, v, i).Some? && Walk(g, v, j) == Walk(g, v, i)
    ensures !Ends(g, v) && HasCycle(g)
  {
    var u := Walk(g, v, i).value;
    WalkAdd(g, v, i, j - i);
    assert Walk(g, u, j - i) == Some(u);
    if Ends(g, v) {
      var n := Length(g, v);
      if n <= j {
        WalkStops(g, v, n, j);
      }
      WalkAdd(g, v, j, n - j);
      WalkAdd(g, v, i, n - j);
      assert false;
    }
  }

  /** The nodes of the first `k` steps. */
  ghost function Path(g: Graph, v: int, k: nat): (s: seq<int>)
    requires Closed(g) && v in g && (k == 0 || Walk(g, v, k - 1).Some?)
    ensures |s| == k && forall i :: 0 <= i < k ==> Walk(g, v, i) == Some(s[i])
  {
    if k == 0 then []
    else
      assert k > 1 ==> Walk(g, v, k - 2).Some?;
      Path(g, v, k - 1) + [Walk(g, v, k - 1).value]
  }

  lemma {:induction false} Pigeonhole(s: seq<int>, nodes: set<int>)
    requires forall i :: 0 <= i < |s| ==> s[i] in nodes
    requires |s| > |nodes|
    ensures exists i, j :: 0 <= i < j < |s| && s[i] == s[j]
  {
    var k := |s| - 1;
    if i :| 0 <= i < k && s[i] == s[k] {
    } else {
      Pigeonhole(s[..k], nodes - {s[k]});
      var i, j :| 0 <= i < j < k && s[..k][i] == s[..k][j];
      assert s[i] == s[j];
    }
  }

  lemma LongWalkNeverEnds(g: Graph, v: int)
    requires Closed(g) && v in g && Walk(g, v, |g|).Some?
    ensures !Ends(g, v) && HasCycle(g)
  {
    var s := Path(g, v, |g| + 1);
    forall i | 0 <= i < |s|
      ensures s[i] in g.Keys
    {
      assert Walk(g, v, i) == Some(s[i]);
    }
    Pigeonhole(s, g.Keys);
    var i, j :| 0 <= i < j < |s| && s[i] == s[j];
    RepeatNeverEnds(g, v, i, j);
  }

  /** There is a cycle exactly when some walk never ends. */
  lemma CycleIffSomeWalkNeverEnds(g: Graph)
    requires Closed(g)
    ensures HasCycle(g) <==> exists v :: v in g && !Ends(g, v)
  {
    if HasCycle(g) {
      var v, k :| v in g && k > 0 && Walk(g, v, k) == Some(v);
      assert Walk(g, v, 0) == Some(v);
      RepeatNeverEnds(g, v, 0, k);
    }
    if v :| v in g && !Ends(g, v) {
      LongWalkNeverEnds(g, v);
    }
  }

  /** Walking down from depth `m` passes every smaller depth. */
  lemma {:induction false} DepthReached(g: Graph, v: int, k: nat) returns (u: int)
    requires Closed(g) && v in g && Ends(g, v) && k <= Depth(g, v)
    ensures u in g && Ends(g, u) && Depth(g, u) == k
    decreases Depth(g, v)
  {
    if Depth(g, v) == k {
      u := v;
    } else {
      DepthStep(g, v);
      u := DepthReached(g, g[v].value, k);
    }
  }

  lemma IgnoreClosed(g: Graph, sentinel: int)
    requires Closed(g)
    ensures Closed(Ignore(g, sentinel))
    ensures sentinel !in g ==> Ignore(g, sentinel) == g
  {
    if sentinel !in g {
      forall v | v in g
        ensures g[v] != Some(sentinel)
      {
      }
      assert Ignore(g, sentinel) == g;
    }
  }

  /** The walk from `v` comes to `id` after one edge or more. */
  ghost predicate Reaches(g: Graph, v: int, id: int)
    requires Closed(g) && v in g
  {
    exists k :: k > 0 && Walk(g, v, k) == Some(id)
  }

  /** Without the edges into `sentinel` a walk is the same up to the first time it would arrive there. */
  lemma {:induction false} WalkIgnoring(g: Graph, sentinel: int, v: int, k: nat)
    requires Closed(g) && Closed(Ignore(g, sentinel)) && v in g
    ensures Walk(Ignore(g, sentinel), v, k) ==
            if exists j :: 0 < j <= k && Walk(g, v, j) == Some(sentinel) then None else Walk(g, v, k)
  {
    if k > 0 {
      WalkIgnoring(g, sentinel, v, k - 1);
      if Walk(g, v, k - 1).Some? {
        var w: int := Walk(g, v, k - 1).value;
        assert Walk(g, v, k) == g[w];
      }
    }
  }

  /** Ignoring `sentinel` cuts exactly the walks that come to it. */
  lemma EndsIgnoring(g: Graph, sentinel: int, v: int)
    requires Closed(g) && Closed(Ignore(g, sentinel)) && v in g
    ensures Ends(Ignore(g, sentinel), v) <==> Ends(g, v) || Reaches(g, v, sentinel)
  {
    var h := Ignore(g, sentinel);
    if Ends(h, v) {
      var k :| Walk(h, v, k).None?;
      WalkIgnoring(g, sentinel, v, k);
    }
    if Ends(g, v) {
      var k :| Walk(g, v, k).None?;
      WalkIgnoring(g, sentinel, v, k);
      assert Walk(h, v, k).None?;
    }
    if Reaches(g, v, sentinel) {
      var k :| k > 0 && Walk(g, v, k) == Some(sentinel);
      WalkIgnoring(g, sentinel, v, k);
      assert Walk(h, v, k).None?;
    }
  }

  /** A cycle is still seen exactly if some endless walk never comes to `sentinel`. */
  lemma CycleIgnoring(g: Graph, sentinel: int)
    requires Closed(g) && Closed(Ignore(g, sentinel))
    ensures HasCycle(Ignore(g, sentinel)) <==> exists v :: v in g && !Ends(g, v) && !Reaches(g, v, sentinel)
  {
    var h := Ignore(g, sentinel);
    CycleIffSomeWalkNeverEnds(h);
    forall v | v in g
      ensures Ends(h, v) <==> Ends(g, v) || Reaches(g, v, sentinel)
    {
      EndsIgnoring(g, sentinel, v);
    }
  }
}
