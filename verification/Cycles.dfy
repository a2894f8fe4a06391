/** Detection of cycles among gates, parameters, branches, rules or links. */
module Cycles {
  import opened Options
  import Sets

  /** How a node leads to others: directly, or through formulas, expressions, forks or blocks
      in the order of their traversal. */
  datatype Connector = Leaf(node: int) | Group(parts: seq<Connector>)

  function Nodes(c: Connector): set<int> {
    match c
    case Leaf(node) => {node}
    case Group(parts) => set p <- parts, n <- Nodes(p) :: n
  }

  datatype Mark = Clear | Temporary | Permanent

  type Graph = map<int, Connector>

  /** Every reference is to a node. */
  ghost predicate Closed(graph: Graph) {
    forall n <- graph :: Nodes(graph[n]) <= graph.Keys
  }

  predicate Edge(graph: Graph, n: int, m: int) {
    n in graph && m in Nodes(graph[n])
  }

  ghost predicate IsPath(graph: Graph, path: seq<int>) {
    forall i | 0 < i < |path| :: Edge(graph, path[i - 1], path[i])
  }

  ghost predicate IsCycle(graph: Graph, path: seq<int>) {
    |path| > 1 && IsPath(graph, path) && path[0] == path[|path| - 1]
  }

  ghost predicate Reachable(graph: Graph, n: int, m: int) {
    exists path: seq<int> :: path != [] && IsPath(graph, path) && path[0] == n && path[|path| - 1] == m
  }

  /** A cycle can be reached from the container. */
  ghost predicate LeadsToCycle(graph: Graph, container: seq<int>) {
    exists n <- container, path: seq<int> :: IsCycle(graph, path) && Reachable(graph, n, path[0])
  }

  ghost predicate Cyclic(graph: Graph) {
    exists path: seq<int> :: IsCycle(graph, path)
  }

  function Reversed(s: seq<int>): (r: seq<int>)
    ensures |r| == |s| && forall i | 0 <= i < |s| :: r[i] == s[|s| - 1 - i]
  {
    if s == [] then [] else [s[|s| - 1]] + Reversed(s[..|s| - 1])
  }

  /** Finished nodes lead only to finished nodes that have been finished before. */
  ghost predicate Settled(graph: Graph, marks: map<int, Mark>, rank: map<int, nat>, finished: nat) {
    forall n <- graph :: n in marks && (marks[n].Permanent? ==>
      && n in rank && rank[n] < finished
      && forall m <- Nodes(graph[n]) :: m in graph && m in marks && marks[m].Permanent? && m in rank && rank[m] < rank[n])
  }

  /** The temporary marks are on the nodes of the path to the current node. */
  ghost predicate OnPath(graph: Graph, marks: map<int, Mark>, path: seq<int>) {
    && IsPath(graph, path)
    && (forall i | 0 <= i < |path| :: path[i] in graph)
    && forall n <- graph :: n in marks && (marks[n].Temporary? <==> n in path)
  }

  /** What is reported so far, in reverse: from a node on the path back to the last node. */
  ghost predicate Partial(graph: Graph, cycle: seq<int>, path: seq<int>, last: int) {
    && cycle != [] && IsPath(graph, Reversed(cycle))
    && cycle[|cycle| - 1] == last && cycle[0] in path
    && (|cycle| > 1 ==> cycle[0] != last)
  }

  ghost predicate Reported(graph: Graph, cycle: seq<int>, path: seq<int>, last: int) {
    || (IsCycle(graph, Reversed(cycle)) && Reachable(graph, last, cycle[0]))
    || Partial(graph, cycle, path, last)
  }

  ghost function Unmarked(graph: Graph, marks: map<int, Mark>): set<int> {
    set n <- graph | n in marks && marks[n].Clear?
  }

  /** Marks change from clear to temporary to permanent only. */
  ghost predicate Later(graph: Graph, before: map<int, Mark>, after: map<int, Mark>) {
    forall n <- graph :: n in before && n in after
      && (before[n].Permanent? ==> after[n].Permanent?)
      && (!before[n].Clear? ==> !after[n].Clear?)
  }

  class Traversal {
    const graph: Graph
    var marks: map<int, Mark>
    var cycle: seq<int>
    /** Finished nodes have the order in which they are finished. */
    ghost var rank: map<int, nat>
    ghost var finished: nat

    constructor (graph: Graph)
      requires Closed(graph)
      ensures this.graph == graph && Valid([]) && cycle == []
    {
      this.graph := graph;
      marks := map n <- graph :: Clear;
      cycle := [];
      rank := map[];
      finished := 0;
    }

    ghost predicate Valid(path: seq<int>)
      reads this
    {
      Closed(graph) && OnPath(graph, marks, path) && Settled(graph, marks, rank, finished)
    }

    /** Searches from one node; `path` leads to it. */
    method DetectCycle(node: int, ghost path: seq<int>) returns (found: bool)
      requires Valid(path) && cycle == [] && node in graph
      requires path != [] ==> Edge(graph, path[|path| - 1], node)
      modifies this
      ensures found ==> Reported(graph, cycle, path, node)
      ensures !found ==> Valid(path) && cycle == [] && marks[node].Permanent?
      ensures Later(graph, old(marks), marks)
      decreases |Unmarked(graph, marks)|, 0
    {
      if marks[node].Clear? {
        marks := marks[node := Temporary];
        EnterNode(graph, old(marks), rank, finished, path, node);
        ghost var entered := marks;
        found := ContinueConnector(graph[node], path + [node], node);
        LaterEnter(graph, old(marks), entered, marks, node);
        if found {
          ReportNode(graph, cycle, path, node);
          if |cycle| == 1 || cycle[|cycle| - 1] != cycle[0] {
            cycle := cycle + [node];
          }
        } else {
          FinishNode(graph, marks, rank, finished, path, node);
          marks := marks[node := Permanent];
          rank := rank[node := finished];
          finished := finished + 1;
        }
      } else if marks[node].Temporary? {
        cycle := cycle + [node];
        return true;
      } else {
        return false;
      }
    }

    method ContinueConnector(c: Connector, ghost path: seq<int>, ghost node: int) returns (found: bool)
      requires Valid(path) && cycle == [] && path != [] && path[|path| - 1] == node && Nodes(c) <= Nodes(graph[node])
      modifies this
      ensures found ==> exists m <- Nodes(c) :: Reported(graph, cycle, path, m)
      ensures !found ==> Valid(path) && cycle == [] && forall m <- Nodes(c) :: m in marks && marks[m].Permanent?
      ensures Later(graph, old(marks), marks)
      decreases |Unmarked(graph, marks)|, 1, c
    {
      match c
      case Leaf(m) =>
        found := DetectCycle(m, path);
      case Group(parts) =>
        for i := 0 to |parts|
          invariant Valid(path) && cycle == []
          invariant forall m <- Nodes(Group(parts[..i])) :: m in marks && marks[m].Permanent?
          invariant Later(graph, old(marks), marks)
        {
          FewerUnmarked(graph, old(marks), marks);
          found := ContinueConnector(parts[i], path, node);
          if found {
            return;
          }
        }
        found := false;
    }
  }

  /** Searches from every node of a container, in order, and stops at the first cycle. */
  method CheckCycle(graph: Graph, container: seq<int>) returns (cycle: Option<seq<int>>, marks: map<int, Mark>, ghost rank: map<int, nat>)
    requires Closed(graph) && forall n <- container :: n in graph
    ensures cycle.Some? ==> |cycle.value| > 1 && cycle.value[0] == cycle.value[|cycle.value| - 1] && IsCycle(graph, Reversed(cycle.value))
    ensures cycle.None? <==> !LeadsToCycle(graph, container)
    ensures cycle.None? ==> forall n <- container, m :: Reachable(graph, n, m) ==> m in marks && marks[m].Permanent?
    ensures cycle.None? ==> Descends(graph, rank, container)
  {
    hide IsCycle, Partial, LeadsToCycle, Settled, OnPath, Reachable, Later;
    var t := new Traversal(graph);
    for i := 0 to |container|
      invariant t.graph == graph && t.Valid([]) && t.cycle == []
      invariant Done(graph, t.marks, container[..i])
    {
      ghost var before := t.marks;
      var found := t.DetectCycle(container[i], []);
      if found {
        WholeCycle(graph, t.cycle, container, container[i]);
        return Some(t.cycle), t.marks, t.rank;
      }
      StillDone(graph, before, t.marks, container, i);
    }
    marks := t.marks;
    rank := t.rank;
    cycle := None;
    assert container[..|container|] == container;
    NoCycle(graph, marks, t.rank, t.finished, container);
  }

  /** A search from all nodes finds a cycle if there is one at all. */
  lemma WholeGraph(graph: Graph, container: seq<int>)
    requires forall n :: n in container <==> n in graph
    ensures LeadsToCycle(graph, container) <==> Cyclic(graph)
  {
    if path: seq<int> :| IsCycle(graph, path) {
      assert Edge(graph, path[0], path[1]);
      assert IsPath(graph, [path[0]]) && [path[0]][0] == path[0];
      assert Reachable(graph, path[0], path[0]);
      assert path[0] in container;
    }
  }

  /** Searches from all nodes. */
  method CheckGraph(graph: Graph) returns (ok: bool)
    requires Closed(graph)
    ensures ok <==> !Cyclic(graph)
  {
    var nodes := Sets.Listed(graph.Keys);
    forall n
      ensures n in nodes <==> n in graph
    {
      assert n in nodes <==> n in graph.Keys;
    }
    WholeGraph(graph, nodes);
    var cycle, marks;
    ghost var rank;
    cycle, marks, rank := CheckCycle(graph, nodes);
    ok := cycle.None?;
  }

  /** The ranks of the nodes of the container are greater than those of their successors. */
  ghost predicate Descends(graph: Graph, rank: map<int, nat>, container: seq<int>) {
    forall n <- container :: n in graph && n in rank && forall m <- Nodes(graph[n]) :: m in rank && rank[m] < rank[n]
  }

  ghost predicate Done(graph: Graph, marks: map<int, Mark>, nodes: seq<int>) {
    forall n <- nodes :: n in graph && n in marks && marks[n].Permanent?
  }

  lemma StillDone(graph: Graph, before: map<int, Mark>, after: map<int, Mark>, container: seq<int>, i: nat)
    requires i < |container| && Done(graph, before, container[..i]) && Later(graph, before, after)
    requires container[i] in graph && container[i] in after && after[container[i]].Permanent?
    ensures Done(graph, after, container[..i + 1])
  {
    assert container[..i + 1] == container[..i] + [container[i]];
  }

  /** Without a path to the first node, only whole cycles are reported. */
  lemma WholeCycle(graph: Graph, cycle: seq<int>, container: seq<int>, n: int)
    requires Reported(graph, cycle, [], n) && n in container
    ensures |cycle| > 1 && cycle[0] == cycle[|cycle| - 1] && IsCycle(graph, Reversed(cycle)) && LeadsToCycle(graph, container)
  {
    assert Reversed(cycle)[0] == cycle[|cycle| - 1];
    assert Reversed(cycle)[|cycle| - 1] == cycle[0];
    assert IsCycle(graph, Reversed(cycle)) && Reachable(graph, n, Reversed(cycle)[0]);
  }

  /** Finished nodes lead to no cycle, and only to finished nodes. */
  lemma NoCycle(graph: Graph, marks: map<int, Mark>, rank: map<int, nat>, finished: nat, container: seq<int>)
    requires Settled(graph, marks, rank, finished) && Done(graph, marks, container)
    ensures !LeadsToCycle(graph, container)
    ensures forall n <- container, m :: Reachable(graph, n, m) ==> m in marks && marks[m].Permanent?
    ensures Descends(graph, rank, container)
  {
    forall n <- container, m | Reachable(graph, n, m)
      ensures m in graph && m in marks && marks[m].Permanent?
    {
      SettledReach(graph, marks, rank, finished, n, m);
    }
    if LeadsToCycle(graph, container) {
      var n, path: seq<int> :| n in container && IsCycle(graph, path) && Reachable(graph, n, path[0]);
      SettledPath(graph, marks, rank, finished, path, |path| - 1);
    }
  }

  lemma ReachStep(graph: Graph, n: int, m: int, v: int)
    requires Edge(graph, n, m) && Reachable(graph, m, v)
    ensures Reachable(graph, n, v)
  {
    var path: seq<int> :| path != [] && IsPath(graph, path) && path[0] == m && path[|path| - 1] == v;
    var longer := [n] + path;
    assert forall i | 0 < i < |longer| :: Edge(graph, longer[i - 1], longer[i]) by {
      forall i | 0 < i < |longer|
        ensures Edge(graph, longer[i - 1], longer[i])
      {
        assert i > 1 ==> Edge(graph, path[i - 2], path[i - 1]);
      }
    }
    assert longer[0] == n && longer[|longer| - 1] == v;
  }

  /** Paths from finished nodes stay among finished nodes and go down in rank. */
  lemma {:induction false} SettledPath(graph: Graph, marks: map<int, Mark>, rank: map<int, nat>, finished: nat, path: seq<int>, i: nat)
    requires Settled(graph, marks, rank, finished) && IsPath(graph, path) && i < |path|
    requires path[0] in graph && path[0] in marks && marks[path[0]].Permanent?
    ensures path[i] in graph && path[i] in marks && marks[path[i]].Permanent? && path[0] in rank && path[i] in rank
    ensures i > 0 ==> rank[path[i]] < rank[path[0]]
  {
    if i > 0 {
      SettledPath(graph, marks, rank, finished, path, i - 1);
      assert Edge(graph, path[i - 1], path[i]);
    }
  }

  lemma SettledReach(graph: Graph, marks: map<int, Mark>, rank: map<int, nat>, finished: nat, n: int, m: int)
    requires Settled(graph, marks, rank, finished) && n in graph && n in marks && marks[n].Permanent? && Reachable(graph, n, m)
    ensures m in graph && m in marks && marks[m].Permanent?
  {
    var path: seq<int> :| path != [] && IsPath(graph, path) && path[0] == n && path[|path| - 1] == m;
    SettledPath(graph, marks, rank, finished, path, |path| - 1);
  }

  lemma EnterNode(graph: Graph, marks: map<int, Mark>, rank: map<int, nat>, finished: nat, path: seq<int>, node: int)
    requires OnPath(graph, marks, path) && Settled(graph, marks, rank, finished) && node in graph && marks[node].Clear?
    requires path != [] ==> Edge(graph, path[|path| - 1], node)
    ensures OnPath(graph, marks[node := Temporary], path + [node]) && Settled(graph, marks[node := Temporary], rank, finished)
    ensures |Unmarked(graph, marks[node := Temporary])| < |Unmarked(graph, marks)|
  {
    var marks' := marks[node := Temporary];
    assert Unmarked(graph, marks) == Unmarked(graph, marks') + {node};
  }

  lemma LaterEnter(graph: Graph, marks: map<int, Mark>, entered: map<int, Mark>, after: map<int, Mark>, node: int)
    requires node in graph && node in marks && marks[node].Clear? && entered == marks[node := Temporary]
    requires Later(graph, entered, after)
    ensures Later(graph, marks, after) && Later(graph, marks, after[node := Permanent])
  {
  }

  lemma FewerUnmarked(graph: Graph, before: map<int, Mark>, after: map<int, Mark>)
    requires Later(graph, before, after)
    ensures |Unmarked(graph, after)| <= |Unmarked(graph, before)|
  {
    forall n <- Unmarked(graph, after)
      ensures n in Unmarked(graph, before)
    {
      assert n in graph;
    }
    Sets.Subset(Unmarked(graph, after), Unmarked(graph, before));
  }

  /** The node is added to the report unless the report is a whole cycle. */
  lemma ReportNode(graph: Graph, cycle: seq<int>, path: seq<int>, node: int)
    requires node in graph && exists m <- Nodes(graph[node]) :: Reported(graph, cycle, path + [node], m)
    ensures cycle != []
    ensures var whole := if |cycle| == 1 || cycle[|cycle| - 1] != cycle[0] then cycle + [node] else cycle;
            Reported(graph, whole, path, node)
  {
    var m :| m in Nodes(graph[node]) && Reported(graph, cycle, path + [node], m);
    if |cycle| == 1 || cycle[|cycle| - 1] != cycle[0] {
      assert Partial(graph, cycle, path + [node], m);
      var whole := cycle + [node];
      assert Reversed(whole) == [node] + Reversed(cycle);
      assert Edge(graph, node, m);
      assert Reachable(graph, node, node) by {
        assert IsPath(graph, [node]) && [node][0] == node;
      }
    } else {
      assert Reversed(cycle)[0] == Reversed(cycle)[|cycle| - 1];
      ReachStep(graph, node, m, cycle[0]);
    }
  }

  /** A node whose successors are finished is finished. */
  lemma FinishNode(graph: Graph, marks: map<int, Mark>, rank: map<int, nat>, finished: nat, path: seq<int>, node: int)
    requires Closed(graph) && OnPath(graph, marks, path + [node]) && Settled(graph, marks, rank, finished)
    requires node in graph && node !in path
    requires forall m <- Nodes(graph[node]) :: m in marks && marks[m].Permanent?
    ensures OnPath(graph, marks[node := Permanent], path)
    ensures Settled(graph, marks[node := Permanent], rank[node := finished], finished + 1)
  {
    var extended := path + [node];
    assert forall i | 0 <= i < |path| :: path[i] == extended[i];
    forall n <- graph
      ensures n in extended <==> n in path || n == node
    {
    }
    assert marks[node].Temporary? by {
      assert extended[|path|] == node;
    }
  }
}
