/** Rules as a workflow sees them, and the dependency graph that their names induce. */
module Rules {
  import opened Common
  import opened Chains

  datatype Rule = Rule(id: int, name: string, dependsOn: Option<string>, priority: int, active: bool)

  /** Ids are unique, names are unique except for unnamed rules, and a dependency names something, without NUL characters. */
  ghost predicate Valid(rules: seq<Rule>)
  {
    && (forall i, j :: 0 <= i < j < |rules| ==> rules[i].id != rules[j].id)
    && (forall i, j :: 0 <= i < j < |rules| && rules[i].name == rules[j].name ==> rules[i].name == "")
    && (forall i :: 0 <= i < |rules| && rules[i].dependsOn.Some? ==> IsName(rules[i].dependsOn.value))
  }

  predicate IsName(s: string)
  {
    s != "" && '\0' !in s
  }

  /** The id map that every traversal builds first. */
  function ById(rules: seq<Rule>): map<int, Rule>
  {
    if rules == [] then map[]
    else
      var last := rules[|rules| - 1];
      ById(rules[..|rules| - 1])[last.id := last]
  }

  /** Looking a name up; unnamed rules are never found. */
  function IdOfName(rules: seq<Rule>, name: string): Option<int>
  {
    if rules == [] || name == "" then None
    else if rules[|rules| - 1].name == name then Some(rules[|rules| - 1].id)
    else IdOfName(rules[..|rules| - 1], name)
  }

  function DependencyId(rules: seq<Rule>, rule: Rule): Option<int>
  {
    if rule.dependsOn.None? then None else IdOfName(rules, rule.dependsOn.value)
  }

  /** Every rule id with the id of the rule it depends on; an unknown name gives no edge. */
  function GraphOf(rules: seq<Rule>): Graph
  {
    var all := ById(rules);
    map id | id in all :: DependencyId(rules, all[id])
  }

  lemma {:induction false} ByIdHas(rules: seq<Rule>, i: nat)
    requires Valid(rules) && i < |rules|
    ensures rules[i].id in ById(rules) && ById(rules)[rules[i].id] == rules[i]
  {
    if i < |rules| - 1 {
      ByIdHas(rules[..|rules| - 1], i);
    }
  }

  lemma InGraph(rules: seq<Rule>, rule: Rule)
    requires Valid(rules) && rule in rules
    ensures rule.id in GraphOf(rules) && ById(rules)[rule.id] == rule
  {
    var i :| 0 <= i < |rules| && rules[i] == rule;
    ByIdHas(rules, i);
  }

  lemma {:induction false} ByIdOnly(rules: seq<Rule>, id: int) returns (i: nat)
    requires id in ById(rules)
    ensures i < |rules| && rules[i].id == id && rules[i] == ById(rules)[id]
  {
    var n := |rules| - 1;
    if rules[n].id == id {
      i := n;
    } else {
      i := ByIdOnly(rules[..n], id);
    }
  }

  lemma {:induction false} IdOfNameHas(rules: seq<Rule>, i: nat)
    requires Valid(rules) && i < |rules| && rules[i].name != ""
    ensures IdOfName(rules, rules[i].name) == Some(rules[i].id)
  {
    if i < |rules| - 1 {
      IdOfNameHas(rules[..|rules| - 1], i);
    }
  }

  lemma {:induction false} IdOfNameOnly(rules: seq<Rule>, name: string) returns (i: nat)
    requires IdOfName(rules, name).Some?
    ensures i < |rules| && rules[i].name == name && IdOfName(rules, name) == Some(rules[i].id)
  {
    var n := |rules| - 1;
    if rules[n].name == name {
      i := n;
    } else {
      i := IdOfNameOnly(rules[..n], name);
    }
  }

  lemma GraphClosed(rules: seq<Rule>)
    requires Valid(rules)
    ensures Closed(GraphOf(rules))
  {
    var g := GraphOf(rules);
    forall v | v in g && g[v].Some?
      ensures g[v].value in g
    {
      var i := IdOfNameOnly(rules, ById(rules)[v].dependsOn.value);
      ByIdHas(rules, i);
    }
  }

  /** Comparing a dependency with a rule's name is the same as following the edge of the graph. */
  lemma EdgeIsName(rules: seq<Rule>, a: int, b: int)
    requires Valid(rules) && a in ById(rules) && b in ById(rules)
    ensures GraphOf(rules)[a] == Some(b) <==> ById(rules)[a].dependsOn == Some(ById(rules)[b].name)
  {
    var i := ByIdOnly(rules, a);
    var j := ByIdOnly(rules, b);
    if rules[i].dependsOn == Some(rules[j].name) {
      IdOfNameHas(rules, j);
    }
    if GraphOf(rules)[a] == Some(b) {
      var k := IdOfNameOnly(rules, rules[i].dependsOn.value);
      ByIdHas(rules, k);
      ByIdHas(rules, j);
    }
  }

  /** Searching a part of the id map for the dependency's name finds something exactly when the dependency is in that part. */
  lemma SearchByName(rules: seq<Rule>, part: map<int, Rule>, a: int)
    requires Valid(rules) && a in ById(rules)
    requires forall id :: id in part ==> id in ById(rules) && part[id] == ById(rules)[id]
    ensures var edge := GraphOf(rules)[a];
            (edge.Some? && edge.value in part) <==>
            (ById(rules)[a].dependsOn.Some? && exists id :: id in part && part[id].name == ById(rules)[a].dependsOn.value)
  {
    var edge, rule := GraphOf(rules)[a], ById(rules)[a];
    if edge.Some? && edge.value in part {
      var b: int := edge.value;
      EdgeIsName(rules, a, b);
      assert part[b].name == rule.dependsOn.value;
    }
    if rule.dependsOn.Some? {
      if id :| id in part && part[id].name == rule.dependsOn.value {
        EdgeIsName(rules, a, id);
      }
    }
  }
}
