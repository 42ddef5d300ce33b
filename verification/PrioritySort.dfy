/** The stable sort by priority that orders the rules of one dependency level. */
module PrioritySort {
  import opened Rules

  ghost predicate Sorted(s: seq<Rule>)
  {
    forall i, j :: 0 <= i < j < |s| ==> s[i].priority <= s[j].priority
  }

  /** The rules of one priority, in the order in which they occur. */
  function WithPriority(s: seq<Rule>, p: int): (r: seq<Rule>)
  {
    if s == [] then [] else (if s[0].priority == p then [s[0]] else []) + WithPriority(s[1..], p)
  }

  function Insert(x: Rule, s: seq<Rule>): seq<Rule>
  {
    if s == [] || x.priority <= s[0].priority then [x] + s else [s[0]] + Insert(x, s[1..])
  }

  function SortByPriority(s: seq<Rule>): (r: seq<Rule>)
    ensures multiset(r) == multiset(s)
  {
    if s == [] then []
    else
      InsertMultiset(s[0], SortByPriority(s[1..]));
      assert s == [s[0]] + s[1..];
      Insert(s[0], SortByPriority(s[1..]))
  }

  lemma {:induction false} InsertMultiset(x: Rule, s: seq<Rule>)
    ensures multiset(Insert(x, s)) == multiset{x} + multiset(s)
  {
    if s != [] && x.priority > s[0].priority {
      InsertMultiset(x, s[1..]);
      assert s == [s[0]] + s[1..];
    }
  }

  lemma {:induction false} InsertSorted(x: Rule, s: seq<Rule>)
    requires Sorted(s)
    ensures Sorted(Insert(x, s))
    ensures Insert(x, s)[0] == x || (s != [] && Insert(x, s)[0] == s[0])
  {
    if s != [] && x.priority > s[0].priority {
      InsertSorted(x, s[1..]);
    }
  }

  lemma {:induction false} SortSorted(s: seq<Rule>)
    ensures Sorted(SortByPriority(s))
  {
    if s != [] {
      SortSorted(s[1..]);
      InsertSorted(s[0], SortByPriority(s[1..]));
    }
  }

  lemma {:induction false} InsertStable(x: Rule, s: seq<Rule>, p: int)
    requires Sorted(s)
    ensures WithPriority(Insert(x, s), p) == (if x.priority == p then [x] else []) + WithPriority(s, p)
  {
    if s != [] && x.priority > s[0].priority {
      InsertStable(x, s[1..], p);
      assert Insert(x, s)[1..] == Insert(x, s[1..]);
      if x.priority == p {
        assert s[0].priority != p;
      }
    } else {
      assert Insert(x, s)[1..] == s;
    }
  }

  /** Rules of equal priority keep their insertion order. */
  lemma {:induction false} SortStable(s: seq<Rule>, p: int)
    ensures WithPriority(SortByPriority(s), p) == WithPriority(s, p)
  {
    if s != [] {
      SortStable(s[1..], p);
      SortSorted(s[1..]);
      InsertStable(s[0], SortByPriority(s[1..]), p);
    }
  }

  lemma {:induction false} WithPriorityHas(s: seq<Rule>, i: nat)
    requires i < |s|
    ensures WithPriority(s, s[i].priority) != []
  {
    if i > 0 {
      WithPriorityHas(s[1..], i - 1);
    }
  }

  lemma {:induction false} WithPriorityFrom(s: seq<Rule>, p: int)
    requires WithPriority(s, p) != []
    ensures exists i :: 0 <= i < |s| && s[i].priority == p
  {
    if s[0].priority != p {
      WithPriorityFrom(s[1..], p);
      var i :| 0 <= i < |s[1..]| && s[1..][i].priority == p;
      assert s[i + 1].priority == p;
    }
  }

  lemma FirstComesFirst(s: seq<Rule>)
    requires s != []
    ensures WithPriority(s, s[0].priority) != [] && WithPriority(s, s[0].priority)[0] == s[0]
  {
  }

  lemma LeastFirst(s: seq<Rule>, p: int)
    requires Sorted(s) && WithPriority(s, p) != []
    ensures s != [] && s[0].priority <= p
  {
    WithPriorityFrom(s, p);
  }

  /** Two sorted lists that agree on the priorities of their first elements have the same first element. */
  lemma SameHead(s: seq<Rule>, t: seq<Rule>)
    requires s != [] && t != [] && Sorted(s) && Sorted(t)
    requires WithPriority(s, s[0].priority) == WithPriority(t, s[0].priority)
    requires WithPriority(s, t[0].priority) == WithPriority(t, t[0].priority)
    ensures s[0] == t[0]
  {
    FirstComesFirst(s);
    FirstComesFirst(t);
    LeastFirst(t, s[0].priority);
    LeastFirst(s, t[0].priority);
  }

  lemma TailAgrees(s: seq<Rule>, t: seq<Rule>, p: int)
    requires s != [] && t != [] && s[0] == t[0] && WithPriority(s, p) == WithPriority(t, p)
    ensures WithPriority(s[1..], p) == WithPriority(t[1..], p)
  {
    var k := if s[0].priority == p then 1 else 0;
    assert WithPriority(s[1..], p) == WithPriority(s, p)[k..];
    assert WithPriority(t[1..], p) == WithPriority(t, p)[k..];
  }

  /** Sortedness and stability leave only one result, so any correct stable sort computes this one. */
  lemma {:induction false} StableSortUnique(s: seq<Rule>, t: seq<Rule>)
    requires Sorted(s) && Sorted(t)
    requires forall p :: WithPriority(s, p) == WithPriority(t, p)
    ensures s == t
  {
    if s == [] || t == [] {
      if t != [] {
        WithPriorityHas(t, 0);
      }
      if s != [] {
        WithPriorityHas(s, 0);
      }
    } else {
      SameHead(s, t);
      forall p
        ensures WithPriority(s[1..], p) == WithPriority(t[1..], p)
      {
        TailAgrees(s, t, p);
      }
      StableSortUnique(s[1..], t[1..]);
      assert s == [s[0]] + s[1..] && t == [t[0]] + t[1..];
    }
  }
}
