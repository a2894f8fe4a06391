/** Translation of fault trees into propositional graphs. */
module Translation {
  import opened Indices
  import opened Sets
  import opened Connectives
  import opened Links
  import opened Formulas
  import opened Meanings
  import opened Joining
  import opened Separation
  import opened Progress
  import opened Rewriting

  /** Gates at the level of a formula are above those of its arguments. */
  function Height(level: nat): nat {
    4 * level + 3
  }

  /** The node of an argument: a variable, the gate of a gate, or a gate of its own for a
      house event. */
  ghost predicate Placed(tree: FaultTree, index: VariableIndex, nodes: map<int, int>, gates: Gates, e: Event, s: int) {
    match tree.Resolve(e)
    case BasicEvent(b) => b in index && Abs(s) == index[b]
    case GateEvent(g) => g in nodes && Abs(s) == nodes[g]
    case HouseEvent(_) => Abs(s) in gates && !InUse(nodes, Abs(s))
  }

  ghost predicate InUse(nodes: map<int, int>, n: int) {
    exists g <- nodes :: nodes[g] == n
  }

  ghost predicate PlacedAll(tree: FaultTree, index: VariableIndex, nodes: map<int, int>, gates: Gates, f: Formula, s: seq<int>) {
    |s| <= |f.args| && forall i | 0 <= i < |s| :: Placed(tree, index, nodes, gates, f.args[i].event, s[i])
  }

  /** The position of each event, counted from 2. */
  function IndexOf(events: seq<int>): VariableIndex {
    if events == [] then map[] else
      var last := |events| - 1;
      IndexOf(events[..last])[events[last] := 2 + last]
  }

  lemma {:induction false} IndexIs(events: seq<int>, b: int)
    ensures b in IndexOf(events) <==> b in events
    ensures b in events ==> 2 <= IndexOf(events)[b] < 2 + |events| && events[IndexOf(events)[b] - 2] == b
  {
    if events != [] {
      var last := |events| - 1;
      IndexIs(events[..last], b);
      assert events == events[..last] + [events[last]];
    }
  }

  /** The events have different variables, with the indices from 2 on. */
  lemma IndexInjective(events: seq<int>, variables: set<int>)
    requires forall n :: n in variables <==> 2 <= n < 2 + |events|
    ensures Indexed(IndexOf(events), variables)
  {
    var index := IndexOf(events);
    forall b <- index
      ensures index[b] in variables
    {
      IndexIs(events, b);
    }
    forall b <- index, c <- index | index[b] == index[c]
      ensures b == c
    {
      IndexIs(events, b);
      IndexIs(events, c);
    }
  }

  /** Every basic event has a variable of its own. */
  ghost predicate Indexed(index: VariableIndex, variables: set<int>) {
    && (forall b <- index :: index[b] in variables)
    && forall b <- index, c <- index :: index[b] == index[c] ==> b == c
  }

  /** The formula's basic events have variables, and its gates have been gathered. */
  ghost predicate Known(tree: FaultTree, index: VariableIndex, seen: set<int>, f: Formula) {
    forall i | 0 <= i < |f.args| ::
      match tree.Resolve(f.args[i].event)
      case BasicEvent(b) => b in index
      case GateEvent(g) => g in seen
      case HouseEvent(_) => true
  }

  ghost predicate Gathered(tree: FaultTree, index: VariableIndex, seen: set<int>) {
    seen <= tree.gates.Keys && forall g <- seen :: Known(tree, index, seen, tree.gates[g])
  }

  /** The gates that have been constructed mean their formulas. */
  ghost predicate Constructed(tree: FaultTree, index: VariableIndex, nodes: map<int, int>, gates: Gates, rank: Rank, open: set<int>) {
    && (forall g <- nodes ::
          && g in tree.gates && g in tree.rank && nodes[g] in rank && rank[nodes[g]] <= Height(tree.rank[g])
          && Means(tree, index, gates, open, nodes[g], tree.gates[g], tree.rank[g]))
    && forall g <- nodes, h <- nodes :: nodes[g] == nodes[h] ==> g == h
  }

  /** Nodes are added for new gates only. */
  ghost predicate NodesGrow(nodes: map<int, int>, gates: Gates, nodes': map<int, int>) {
    && (forall g <- nodes :: g in nodes' && nodes'[g] == nodes[g])
    && forall g <- nodes' :: g !in nodes ==> nodes'[g] !in gates
  }

  lemma ConstructedKept(tree: FaultTree, index: VariableIndex, nodes: map<int, int>, before: Gates, rank: Rank, open: set<int>,
                        after: Gates, rank': Rank, open': set<int>)
    requires Constructed(tree, index, nodes, before, rank, open)
    requires forall h <- before :: h !in open ==> h !in open' && h in after && after[h] == before[h]
    requires forall h <- before :: h !in open && h in rank ==> h in rank' && rank'[h] == rank[h]
    ensures Constructed(tree, index, nodes, after, rank', open')
  {
    forall g <- nodes
      ensures nodes[g] in rank' && rank'[nodes[g]] <= Height(tree.rank[g])
      ensures Means(tree, index, after, open', nodes[g], tree.gates[g], tree.rank[g])
    {
      MeansKept(tree, index, before, open, after, open', nodes[g], tree.gates[g], tree.rank[g]);
    }
  }

  /** The node of an argument is none of those of earlier arguments. */
  lemma PlacedApart(tree: FaultTree, index: VariableIndex, variables: set<int>, nodes: map<int, int>, gates: Gates, f: Formula, s: seq<int>, x: int, before: Gates)
    requires tree.WellFormed(f) && Indexed(index, variables) && |s| < |f.args|
    requires forall g <- nodes, h <- nodes :: nodes[g] == nodes[h] ==> g == h
    requires forall g <- nodes :: nodes[g] in gates
    requires forall n <- variables :: n !in gates
    requires PlacedAll(tree, index, nodes, gates, f, s) && Placed(tree, index, nodes, gates, f.args[|s|].event, x)
    requires forall h <- before :: h in gates
    requires tree.Resolve(f.args[|s|].event).HouseEvent? ==> Abs(x) !in before
    requires forall i | 0 <= i < |s| :: Abs(s[i]) in before || Abs(s[i]) in variables
    ensures forall i | 0 <= i < |s| :: Abs(s[i]) != Abs(x)
  {
    forall i | 0 <= i < |s|
      ensures Abs(s[i]) != Abs(x)
    {
      assert Placed(tree, index, nodes, gates, f.args[i].event, s[i]);
    }
  }

  ghost predicate KeptBut(before: Gates, after: Gates, rank: Rank, rank': Rank, parent: int) {
    forall h <- before ::
      && h in after && (h != parent ==> after[h] == before[h])
      && (h in rank ==> h in rank' && rank'[h] == rank[h])
  }

  /** The event of an argument has been gathered. */
  ghost predicate EventKnown(tree: FaultTree, index: VariableIndex, seen: set<int>, e: Event) {
    match tree.Resolve(e)
    case BasicEvent(b) => b in index
    case GateEvent(g) => g in seen
    case HouseEvent(_) => true
  }

  /** A cardinality over one argument that allows a single number of true arguments becomes a
      gate with too few arguments. */
  predicate Sized(f: Formula) {
    f.kind.Cardinality? && |f.args| == 1 ==> f.minNumber < f.maxNumber
  }

  /** The gates of a formula are among some gates of the fault tree. */
  ghost predicate Covered(tree: FaultTree, gates: set<int>, f: Formula) {
    forall i | 0 <= i < |f.args| :: EventCovered(tree, gates, f.args[i].event)
  }

  ghost predicate EventCovered(tree: FaultTree, gates: set<int>, e: Event) {
    var r := tree.Resolve(e);
    r.GateEvent? ==> r.id in gates
  }

  /** The gates that are finished have as many arguments as their connectives demand. */
  ghost predicate Clean(gates: Gates, open: set<int>) {
    forall h <- gates :: h !in open ==> gates[h].Complete()
  }

  /** The formulas of the constructed gates have been constructed, with all gates below. */
  ghost predicate Counted(tree: FaultTree, seen: set<int>, formulas: set<Formula>, nodes: map<int, int>, built: set<Formula>) {
    && built <= formulas && (forall g <- seen :: g in tree.gates && tree.gates[g] in formulas)
    && forall g <- nodes :: g in seen && g in tree.gates && tree.gates[g] in built && Covered(tree, nodes.Keys, tree.gates[g])
  }

  /** Pass-through gates are listed, ranks are bounded, and the finished gates are complete
      exactly if all constructed formulas are sized. */
  ghost predicate Tracked(s: Snapshot, nullGates: seq<int>, open: set<int>, limit: nat, built: set<Formula>) {
    && AreNull(s.gates, nullGates, s.last)
    && (forall h <- s.gates :: h in s.rank && s.rank[h] <= limit)
    && (Clean(s.gates, open) <==> forall f <- built :: Sized(f))
  }

  lemma TrackedStep(s: Snapshot, nullGates: seq<int>, open: set<int>, t: Snapshot, nullGates': seq<int>, open': set<int>,
                    limit: nat, built: set<Formula>)
    requires Tracked(s, nullGates, open, limit, built) && s.last <= t.last
    requires forall h <- s.gates ::
               && h in t.gates && (h in open || t.gates[h] == s.gates[h]) && (IsNull(s.gates, h) ==> IsNull(t.gates, h))
               && (h in s.rank ==> h in t.rank && t.rank[h] == s.rank[h])
    requires open <= open' && forall h <- open' :: h in open || h !in s.gates
    requires forall h <- t.gates :: h !in s.gates ==>
               h > s.last && h in t.rank && t.rank[h] <= limit && (h in open' || t.gates[h].Complete())
    requires forall n <- nullGates' :: n in nullGates || (n <= t.last && IsNull(t.gates, n))
    ensures Tracked(t, nullGates', open', limit, built)
  {
    forall n <- nullGates'
      ensures n <= t.last && (n in t.gates ==> IsNull(t.gates, n))
    {
      assert n in nullGates && n in t.gates ==> n in s.gates;
    }
  }

  lemma TrackedNone(s: Snapshot, limit: nat)
    requires s.gates == map[]
    ensures Tracked(s, [], {}, limit, {})
  {
  }

  lemma TrackedRank(s: Snapshot, nullGates: seq<int>, open: set<int>, limit: nat, built: set<Formula>, g: int)
    requires Tracked(s, nullGates, open, limit, built) && g in s.gates
    ensures g in s.rank && s.rank[g] <= limit
  {
  }

  /** Gates are finished once their formula is constructed. */
  lemma TrackedClosed(s: Snapshot, nullGates: seq<int>, all: set<int>, open: set<int>, limit: nat, built: set<Formula>, built': set<Formula>)
    requires Tracked(s, nullGates, all, limit, built) && open <= all && forall h <- all :: h in s.gates
    requires (forall f <- built' :: Sized(f))
        <==> (forall f <- built :: Sized(f)) && forall h <- all :: h in open || s.gates[h].Complete()
    ensures Tracked(s, nullGates, open, limit, built')
  {
    hide Gate.Complete, Sized, AreNull;
    assert Clean(s.gates, open) <==> Clean(s.gates, all) && forall h <- all :: h in open || s.gates[h].Complete();
  }

  lemma ConstructedNone(tree: FaultTree, index: VariableIndex, gates: Gates, rank: Rank)
    ensures Constructed(tree, index, map[], gates, rank, {})
  {
  }

  lemma CountedNone(tree: FaultTree, seen: set<int>, formulas: set<Formula>)
    requires forall g <- seen :: g in tree.gates && tree.gates[g] in formulas
    ensures Counted(tree, seen, formulas, map[], {})
  {
  }

  lemma CountedMore(tree: FaultTree, seen: set<int>, formulas: set<Formula>, nodes: map<int, int>, built: set<Formula>, f: Formula)
    requires Counted(tree, seen, formulas, nodes, built) && f in formulas
    ensures Counted(tree, seen, formulas, nodes, built + {f})
  {
  }

  lemma CountedNode(tree: FaultTree, seen: set<int>, formulas: set<Formula>, nodes: map<int, int>, built: set<Formula>, g: int, n: int)
    requires Counted(tree, seen, formulas, nodes, built) && g in seen && g in tree.gates && tree.gates[g] in built
    requires Covered(tree, nodes.Keys, tree.gates[g])
    ensures Counted(tree, seen, formulas, nodes[g := n], built)
  {
    var nodes' := nodes[g := n];
    forall h <- nodes'
      ensures h in seen && h in tree.gates && tree.gates[h] in built && Covered(tree, nodes'.Keys, tree.gates[h])
    {
      CoveredMore(tree, nodes.Keys, nodes'.Keys, tree.gates[h]);
    }
  }

  lemma CoveredMore(tree: FaultTree, gates: set<int>, gates': set<int>, f: Formula)
    requires Covered(tree, gates, f) && forall g <- gates :: g in gates'
    ensures Covered(tree, gates', f)
  {
  }

  class Translator {
    const tree: FaultTree
    const index: VariableIndex
    const pdag: Pdag
    ghost const seen: set<int>
    /** The formulas to construct, and those that have been constructed. */
    ghost const formulas: set<Formula>
    ghost var built: set<Formula>
    /** No gate has a greater rank. */
    ghost const limit: nat
    /** The gates that have been constructed so far. */
    var nodes: map<int, int>

    ghost predicate Valid(open: set<int>)
      reads this, pdag
    {
      && tree.Valid() && pdag.Valid() && pdag.registerNullGates && pdag.root == 0 && !pdag.complement
      && Indexed(index, pdag.variables) && Gathered(tree, index, seen)
      && (forall g <- open :: g in pdag.gates)
      && Constructed(tree, index, nodes, pdag.gates, pdag.rank, open)
      && Counted(tree, seen, formulas, nodes, built)
      && Tracked(pdag.Now(), pdag.nullGates, open, limit, built)
    }

    /** The variables have the indices from 2 on, in the order of the basic events. */
    constructor (tree: FaultTree, events: seq<int>, ghost seen: set<int>, ghost formulas: set<Formula>, ghost limit: nat, rule: PairRule)
      requires tree.Valid() && Gathered(tree, IndexOf(events), seen)
      requires forall g <- seen :: g in tree.gates && tree.gates[g] in formulas
      ensures fresh(pdag) && this.tree == tree && this.index == IndexOf(events) && this.seen == seen && pdag.rule == rule
      ensures this.formulas == formulas && this.limit == limit && built == {}
      ensures Valid({}) && nodes == map[] && pdag.gates == map[]
      ensures forall n :: n in pdag.variables <==> 2 <= n < 2 + |events|
    {
      hide Sound, Indexed, Gathered, Counted, Tracked, Constructed, IndexOf;
      this.tree, this.index, this.seen := tree, IndexOf(events), seen;
      this.formulas, this.limit := formulas, limit;
      nodes, built := map[], {};
      pdag := new Pdag(|events|, rule);
      new;
      IndexInjective(events, pdag.variables);
      ConstructedNone(tree, index, pdag.gates, pdag.rank);
      CountedNone(tree, seen, formulas);
      TrackedNone(pdag.Now(), limit);
    }

    /** The node of an argument with its sign. */
    method ArgumentNode(arg: Arg, ghost level: nat, ghost open: set<int>) returns (s: int)
      requires Valid(open) && tree.EventBelow(arg.event, level) && EventKnown(tree, index, seen, arg.event)
      requires Height(level) <= limit
      modifies this, pdag
      ensures old(built) <= built
      ensures Valid(open) && KeptBut(old(pdag.gates), pdag.gates, old(pdag.rank), pdag.rank, 0)
      ensures NodesGrow(old(nodes), old(pdag.gates), nodes)
      ensures forall h <- nodes :: h in old(nodes) || (h in tree.rank && tree.rank[h] < level)
      ensures Placed(tree, index, nodes, pdag.gates, arg.event, s)
      ensures arg.event.BasicEvent? ==>
                if arg.event.id in tree.ccf
                then tree.ccf[arg.event.id] in nodes && Abs(s) == nodes[tree.ccf[arg.event.id]]
                else arg.event.id in index && Abs(s) == index[arg.event.id]
      ensures !arg.event.HouseEvent? ==> (s < 0) == arg.complement
      ensures tree.Resolve(arg.event).HouseEvent? ==> Abs(s) !in old(pdag.gates)
      ensures Stands(tree, index, pdag.gates, open, s, arg, level)
      ensures Abs(s) > 1 && Abs(s) in pdag.parents && Abs(s) !in open
      ensures Abs(s) in pdag.gates || Abs(s) in pdag.variables
      ensures Abs(s) in pdag.gates ==> Abs(s) in pdag.rank && pdag.rank[Abs(s)] < Height(level) - 1
      decreases level, 0
    {
      match tree.Resolve(arg.event)
      case BasicEvent(b) =>
        s := if arg.complement then -index[b] else index[b];
        VariableNode(pdag.gates, pdag.parents, pdag.variables, pdag.nodeIndex, pdag.rank, index[b]);
      case HouseEvent(state) =>
        s := HouseNode(state != arg.complement, open);
        HouseStands(tree, index, pdag.gates, open, s, arg, level);
      case GateEvent(g) =>
        var n := GateNode(g, level, open);
        s := if arg.complement then -n else n;
        GateStands(tree, index, pdag.gates, open, n, arg, g, level);
    }

    /** A pass-through gate that holds a constant. */
    method HouseNode(state: bool, ghost open: set<int>) returns (g: int)
      requires Valid(open)
      modifies pdag
      ensures Valid(open) && KeptBut(old(pdag.gates), pdag.gates, old(pdag.rank), pdag.rank, 0)
      ensures g > 1 && g !in old(pdag.gates) && g in pdag.gates && g in pdag.parents && g !in open && !InUse(nodes, g)
      ensures g in pdag.rank && pdag.rank[g] == 0
      ensures pdag.gates[g] == Constant(Gate(Null, 0, {}, {}, {}, false), state)
    {
      hide Constructed, Sound, Gate.Accepts, Counted, Tracked;
      NodeFacts(pdag.gates, pdag.parents, pdag.variables, pdag.nodeIndex, pdag.rank);
      g := pdag.NewNullGate(0);
      ConstantAccepted(pdag.gates[g], state, pdag.rule);
      NodeFacts(pdag.gates, pdag.parents, pdag.variables, pdag.nodeIndex, pdag.rank);
      pdag.AddArg(g, if state then 1 else -1);
      NodeFacts(pdag.gates, pdag.parents, pdag.variables, pdag.nodeIndex, pdag.rank);
      NodesAreGates(tree, index, nodes, old(pdag.gates), old(pdag.rank), open);
      ConstructedKept(tree, index, nodes, old(pdag.gates), old(pdag.rank), open, pdag.gates, pdag.rank, open);
      ConstantCompletes(Gate(Null, 0, {}, {}, {}, false), state);
      TrackedStep(old(pdag.Now()), old(pdag.nullGates), open, pdag.Now(), pdag.nullGates, open, limit, built);
    }

    method GateNode(g: int, ghost level: nat, ghost open: set<int>) returns (n: int)
      requires Valid(open) && g in seen && g in tree.rank && tree.rank[g] < level
      requires Height(level) <= limit
      modifies this, pdag
      ensures old(built) <= built
      ensures Valid(open) && KeptBut(old(pdag.gates), pdag.gates, old(pdag.rank), pdag.rank, 0)
      ensures NodesGrow(old(nodes), old(pdag.gates), nodes)
      ensures forall h <- nodes :: h in old(nodes) || (h in tree.rank && tree.rank[h] < level)
      ensures g in nodes && nodes[g] == n && n > 1 && n in pdag.gates && n in pdag.parents && n !in open
      ensures n in pdag.rank && pdag.rank[n] < Height(level) - 1
      decreases level, 0, 0
    {
      if g in nodes {
        n := nodes[g];
      } else {
        n := ConstructFormula(tree.gates[g], tree.rank[g], open);
        CountedNode(tree, seen, formulas, nodes, built, g, n);
        nodes := nodes[g := n];
      }
      NodeFacts(pdag.gates, pdag.parents, pdag.variables, pdag.nodeIndex, pdag.rank);
    }

    method ConstructFormula(f: Formula, ghost level: nat, ghost open: set<int>) returns (g: int)
      requires Valid(open) && tree.Below(f, level) && tree.WellFormed(f) && Known(tree, index, seen, f)
      requires Height(level) <= limit && f in formulas
      modifies this, pdag
      ensures old(built) <= built && f in built && Covered(tree, nodes.Keys, f)
      ensures Valid(open) && KeptBut(old(pdag.gates), pdag.gates, old(pdag.rank), pdag.rank, 0)
      ensures NodesGrow(old(nodes), old(pdag.gates), nodes)
      ensures forall h <- nodes :: h in old(nodes) || (h in tree.rank && tree.rank[h] < level)
      ensures g !in old(pdag.gates) && g in pdag.gates && g !in open && !InUse(nodes, g)
      ensures g in pdag.rank && pdag.rank[g] == Height(level)
      ensures Means(tree, index, pdag.gates, open, g, f, level)
      decreases level, 3
    {
      match f.kind
      case Core(kind) => g := ConstructCore(f, level, open);
      case Iff => g := ConstructIff(f, level, open);
      case Imply => g := ConstructImply(f, level, open);
      case Cardinality => g := ConstructCardinality(f, level, open);
    }

    /** A new gate without arguments, to be filled while it is open. */
    method OpenGate(kind: Connective, minNumber: int, ghost rank: nat, ghost open: set<int>) returns (g: int)
      requires Valid(open) && rank <= limit
      modifies pdag
      ensures g > 1 && g !in old(pdag.gates) && g in pdag.gates && g in pdag.parents && Valid(open + {g})
      ensures KeptBut(old(pdag.gates), pdag.gates, old(pdag.rank), pdag.rank, 0)
      ensures pdag.gates[g] == Gate(kind, if kind.Null? then 0 else minNumber, {}, {}, {}, false)
      ensures g in pdag.rank && pdag.rank[g] == rank
      ensures forall h <- pdag.gates :: h in old(pdag.gates) || h == g
    {
      hide Sound, Constructed, Counted, Tracked;
      NodeFacts(pdag.gates, pdag.parents, pdag.variables, pdag.nodeIndex, pdag.rank);
      if kind.Null? {
        g := pdag.NewNullGate(rank);
      } else {
        g := pdag.NewGate(kind, minNumber, rank);
      }
      NodeFacts(pdag.gates, pdag.parents, pdag.variables, pdag.nodeIndex, pdag.rank);
      ConstructedKept(tree, index, nodes, old(pdag.gates), old(pdag.rank), open, pdag.gates, pdag.rank, open + {g});
      TrackedStep(old(pdag.Now()), old(pdag.nullGates), open, pdag.Now(), pdag.nullGates, open + {g}, limit, built);
    }

    /** Gates are finished, and their formula has been constructed. */
    ghost method Close(f: Formula, all: set<int>, open: set<int>)
      requires Valid(all) && open <= all && f in formulas
      requires (forall h <- all :: h in open || pdag.gates[h].Complete()) <==> Sized(f)
      modifies this`built
      ensures Valid(open) && built == old(built) + {f}
    {
      hide Sound, Constructed, Counted, Tracked, Sized, Gate.Complete;
      NodesAreGates(tree, index, nodes, pdag.gates, pdag.rank, all);
      ConstructedKept(tree, index, nodes, pdag.gates, pdag.rank, all, pdag.gates, pdag.rank, open);
      SizedMore(built, f);
      TrackedClosed(pdag.Now(), pdag.nullGates, all, open, limit, built, built + {f});
      CountedMore(tree, seen, formulas, nodes, built, f);
      built := built + {f};
    }

    /** So are gates that stand for no formula of their own. */
    lemma Finish(all: set<int>, open: set<int>)
      requires Valid(all) && open <= all && forall h <- all :: h in open || pdag.gates[h].Complete()
      ensures Valid(open)
    {
      hide Sound, Constructed, Tracked, Gate.Complete;
      NodesAreGates(tree, index, nodes, pdag.gates, pdag.rank, all);
      ConstructedKept(tree, index, nodes, pdag.gates, pdag.rank, all, pdag.gates, pdag.rank, open);
      TrackedClosed(pdag.Now(), pdag.nullGates, all, open, limit, built, built);
    }

    /** The eight connectives of the graph. */
    method ConstructCore(f: Formula, ghost level: nat, ghost open: set<int>) returns (g: int)
      requires Valid(open) && tree.Below(f, level) && tree.WellFormed(f) && Known(tree, index, seen, f) && f.kind.Core?
      requires Height(level) <= limit && f in formulas
      modifies this, pdag
      ensures old(built) <= built && f in built && Covered(tree, nodes.Keys, f)
      ensures Valid(open) && KeptBut(old(pdag.gates), pdag.gates, old(pdag.rank), pdag.rank, 0)
      ensures NodesGrow(old(nodes), old(pdag.gates), nodes)
      ensures forall h <- nodes :: h in old(nodes) || (h in tree.rank && tree.rank[h] < level)
      ensures g !in old(pdag.gates) && g in pdag.gates && g !in open && !InUse(nodes, g)
      ensures g in pdag.rank && pdag.rank[g] == Height(level)
      ensures Means(tree, index, pdag.gates, open, g, f, level)
      decreases level, 2
    {
      hide Sound, Constructed, Counted, Tracked, Covered, Sized, StandAll, Means, Known;
      NodeFacts(pdag.gates, pdag.parents, pdag.variables, pdag.nodeIndex, pdag.rank);
      var kind := f.kind.connective;
      g := OpenGate(kind, if kind.Atleast? then f.minNumber else 0, Height(level), open);
      ghost var started := pdag.gates;
      ghost var startedRank := pdag.rank;
      ghost var s := AddArguments(g, f, level, open + {g});
      GateMeans(tree, index, pdag.gates, open, g, s, f, level);
      NodesAreGates(tree, index, nodes, pdag.gates, pdag.rank, open + {g});
      GrowFrom(old(pdag.gates), started, pdag.gates, old(pdag.rank), startedRank, pdag.rank, g, old(nodes), nodes);
      StandAllFacts(tree, index, pdag.gates, open + {g}, s, f, level);
      CoreCompletes(tree, f, pdag.gates[g], s);
      Close(f, open + {g}, open);
    }

    /** Equivalence: the complement of XOR, behind a pass-through gate. */
    method ConstructIff(f: Formula, ghost level: nat, ghost open: set<int>) returns (g: int)
      requires Valid(open) && tree.Below(f, level) && tree.WellFormed(f) && Known(tree, index, seen, f) && f.kind.Iff?
      requires Height(level) <= limit && f in formulas
      modifies this, pdag
      ensures old(built) <= built && f in built && Covered(tree, nodes.Keys, f)
      ensures Valid(open) && KeptBut(old(pdag.gates), pdag.gates, old(pdag.rank), pdag.rank, 0)
      ensures NodesGrow(old(nodes), old(pdag.gates), nodes)
      ensures forall h <- nodes :: h in old(nodes) || (h in tree.rank && tree.rank[h] < level)
      ensures g !in old(pdag.gates) && g in pdag.gates && g !in open && !InUse(nodes, g)
      ensures g in pdag.rank && pdag.rank[g] == Height(level)
      ensures Means(tree, index, pdag.gates, open, g, f, level)
      decreases level, 2
    {
      hide Sound, Constructed, Counted, Tracked, Covered, Sized, StandAll, Means, Known, Filled, Distinct;
      NodeFacts(pdag.gates, pdag.parents, pdag.variables, pdag.nodeIndex, pdag.rank);
      var xor;
      ghost var s;
      g, xor, s := FillIff(f, level, open);
      ghost var all := open + {g} + {xor};
      ghost var filled, filledRank, base := pdag.gates, pdag.rank, pdag.gates[g];
      NodeFacts(pdag.gates, pdag.parents, pdag.variables, pdag.nodeIndex, pdag.rank);
      NothingFilled(base);
      AloneDistinct(-xor);
      Attach(g, -xor, all, base, [], 1);
      FilledAlone(base, pdag.gates[g], -xor);
      StandAllKept(tree, index, filled, pdag.gates, all, g, s, f, level);
      IffClosed(tree, index, pdag.gates, open, g, xor, s, f, level, all);
      NodesAreGates(tree, index, nodes, pdag.gates, pdag.rank, all);
      KeptNew(old(pdag.gates), filled, pdag.gates, old(pdag.rank), filledRank, pdag.rank, g);
      StandAllFacts(tree, index, filled, all, s, f, level);
      IffCompletes(f, pdag.gates[g], -xor, pdag.gates[xor], s);
      Close(f, all, open);
    }

    /** The XOR gate of an equivalence over both arguments, and the gate for its complement. */
    method FillIff(f: Formula, ghost level: nat, ghost open: set<int>) returns (g: int, xor: int, ghost s: seq<int>)
      requires Valid(open) && tree.Below(f, level) && tree.WellFormed(f) && Known(tree, index, seen, f) && f.kind.Iff?
      requires Height(level) <= limit
      modifies this, pdag
      ensures old(built) <= built && Covered(tree, nodes.Keys, f)
      ensures Valid(open + {g} + {xor})
      ensures KeptBut(old(pdag.gates), pdag.gates, old(pdag.rank), pdag.rank, 0)
      ensures NodesGrow(old(nodes), old(pdag.gates), nodes)
      ensures forall h <- nodes :: h in old(nodes) || (h in tree.rank && tree.rank[h] < level)
      ensures g !in old(pdag.gates) && xor !in old(pdag.gates) && g !in open && xor !in open && g != xor && xor > 1
      ensures g in pdag.gates && xor in pdag.gates && pdag.gates[g] == Gate(Null, 0, {}, {}, {}, false)
      ensures pdag.gates[xor].kind.Xor? && pdag.gates[xor].args == Elements(s)
      ensures StandAll(tree, index, pdag.gates, open + {g} + {xor}, s, f, level)
      ensures g in pdag.rank && xor in pdag.rank && pdag.rank[g] == Height(level) && pdag.rank[xor] < pdag.rank[g]
      decreases level, 2, 0
    {
      hide Sound, Constructed, Counted, Tracked, Covered, StandAll, Known, Filled;
      NodeFacts(pdag.gates, pdag.parents, pdag.variables, pdag.nodeIndex, pdag.rank);
      g := OpenGate(Null, 0, Height(level), open);
      ghost var one, oneRank := pdag.gates, pdag.rank;
      NodeFacts(pdag.gates, pdag.parents, pdag.variables, pdag.nodeIndex, pdag.rank);
      xor := OpenGate(Xor, 0, Height(level) - 1, open + {g});
      ghost var two, twoRank := pdag.gates, pdag.rank;
      NodeFacts(pdag.gates, pdag.parents, pdag.variables, pdag.nodeIndex, pdag.rank);
      s := AddArguments(xor, f, level, open + {g} + {xor});
      ghost var three, threeRank := pdag.gates, pdag.rank;
      NodeFacts(pdag.gates, pdag.parents, pdag.variables, pdag.nodeIndex, pdag.rank);
      FilledFacts(two[xor], three[xor], s);
      KeptThrough(old(pdag.gates), one, two, three, three, old(pdag.rank), oneRank, twoRank, threeRank, threeRank,
                  g, xor, old(nodes), nodes);
    }

    /** Implication: the first argument is complemented. */
    method ConstructImply(f: Formula, ghost level: nat, ghost open: set<int>) returns (g: int)
      requires Valid(open) && tree.Below(f, level) && tree.WellFormed(f) && Known(tree, index, seen, f) && f.kind.Imply?
      requires Height(level) <= limit && f in formulas
      modifies this, pdag
      ensures old(built) <= built && f in built && Covered(tree, nodes.Keys, f)
      ensures Valid(open) && KeptBut(old(pdag.gates), pdag.gates, old(pdag.rank), pdag.rank, 0)
      ensures NodesGrow(old(nodes), old(pdag.gates), nodes)
      ensures forall h <- nodes :: h in old(nodes) || (h in tree.rank && tree.rank[h] < level)
      ensures g !in old(pdag.gates) && g in pdag.gates && g !in open && !InUse(nodes, g)
      ensures g in pdag.rank && pdag.rank[g] == Height(level)
      ensures Means(tree, index, pdag.gates, open, g, f, level)
      decreases level, 2
    {
      hide Sound, Constructed, Counted, Tracked, Covered, Sized, Means, Stands;
      NodeFacts(pdag.gates, pdag.parents, pdag.variables, pdag.nodeIndex, pdag.rank);
      g := OpenGate(Or, 0, Height(level), open);
      ghost var started, startedRank := pdag.gates, pdag.rank;
      var flipped := FlipFirst(f);
      FlippedFacts(tree, index, seen, f, level);
      ghost var s := AddArguments(g, flipped, level, open + {g});
      assert s[0] in s;
      FlippedStands(tree, index, pdag.gates, open + {g}, s, f, level);
      ghost var t := [-s[0], s[1]];
      ElementsOfTwo(s);
      ImplyMeans(tree, index, pdag.gates, open, g, t, f, level);
      NodesAreGates(tree, index, nodes, pdag.gates, pdag.rank, open + {g});
      GrowFrom(old(pdag.gates), started, pdag.gates, old(pdag.rank), startedRank, pdag.rank, g, old(nodes), nodes);
      assert Abs(s[0]) != Abs(s[1]);
      ImplyCompletes(f, pdag.gates[g], s[0], s[1]);
      FlippedCovered(tree, nodes.Keys, f);
      Close(f, open + {g}, open);
    }

    /** Between two numbers of true arguments: enough true ones, and enough false ones. */
    method ConstructCardinality(f: Formula, ghost level: nat, ghost open: set<int>) returns (g: int)
      requires Valid(open) && tree.Below(f, level) && tree.WellFormed(f) && Known(tree, index, seen, f) && f.kind.Cardinality?
      requires Height(level) <= limit && f in formulas
      modifies this, pdag
      ensures old(built) <= built && f in built && Covered(tree, nodes.Keys, f)
      ensures Valid(open) && KeptBut(old(pdag.gates), pdag.gates, old(pdag.rank), pdag.rank, 0)
      ensures NodesGrow(old(nodes), old(pdag.gates), nodes)
      ensures forall h <- nodes :: h in old(nodes) || (h in tree.rank && tree.rank[h] < level)
      ensures g !in old(pdag.gates) && g in pdag.gates && g !in open && !InUse(nodes, g)
      ensures g in pdag.rank && pdag.rank[g] == Height(level)
      ensures Means(tree, index, pdag.gates, open, g, f, level)
      decreases level, 2
    {
      hide Sound, Constructed, Counted, Tracked, Covered, Sized, StandAll, Means, Known, Gate.Negated, Holds;
      NodeFacts(pdag.gates, pdag.parents, pdag.variables, pdag.nodeIndex, pdag.rank);
      var first, second;
      ghost var s;
      g, first, second, s := FillCardinality(f, level, open);
      ghost var all := open + {g} + {first} + {second};
      ghost var filled, filledRank := pdag.gates, pdag.rank;
      NegatedFacts(pdag.gates[first]);
      CloseCardinality(g, first, second, all);
      StandAllExcept(tree, index, filled, pdag.gates, filledRank, pdag.rank, {g, first, second}, all, s, f, level);
      CardinalityClosed(tree, index, pdag.gates, open, g, first, second, s, f, level, filled[first], filled[second], filled[first], all);
      NodesAreGates(tree, index, nodes, pdag.gates, pdag.rank, all);
      KeptThenExcept(old(pdag.gates), filled, pdag.gates, old(pdag.rank), filledRank, pdag.rank, g, first, second);
      StandAllFacts(tree, index, filled, all, s, f, level);
      CardinalityCompletes(f, pdag.gates[g], filled[first], filled[second], pdag.gates[first], pdag.gates[second], first, second, s);
      Close(f, all, open);
    }

    /** The AND gate of a cardinality formula, and its two K/N gates over all arguments. */
    method FillCardinality(f: Formula, ghost level: nat, ghost open: set<int>) returns (g: int, first: int, second: int, ghost s: seq<int>)
      requires Valid(open) && tree.Below(f, level) && tree.WellFormed(f) && Known(tree, index, seen, f) && f.kind.Cardinality?
      requires Height(level) <= limit
      modifies this, pdag
      ensures old(built) <= built && Covered(tree, nodes.Keys, f)
      ensures Valid(open + {g} + {first} + {second})
      ensures KeptBut(old(pdag.gates), pdag.gates, old(pdag.rank), pdag.rank, 0)
      ensures NodesGrow(old(nodes), old(pdag.gates), nodes)
      ensures forall h <- nodes :: h in old(nodes) || (h in tree.rank && tree.rank[h] < level)
      ensures g !in old(pdag.gates) && first !in old(pdag.gates) && second !in old(pdag.gates)
      ensures g !in open && first !in open && second !in open
      ensures g != first && g != second && first != second && first > 1 && second > 1
      ensures g in pdag.gates && first in pdag.gates && second in pdag.gates
      ensures pdag.gates[g] == Gate(And, 0, {}, {}, {}, false)
      ensures pdag.gates[first].kind.Atleast? && pdag.gates[first].minNumber == f.minNumber && !pdag.gates[first].constant
      ensures pdag.gates[first].args == Elements(s) && forall i <- s :: i != 0
      ensures pdag.gates[second] == pdag.gates[first].Negated().(minNumber := |f.args| - f.maxNumber)
      ensures StandAll(tree, index, pdag.gates, open + {g} + {first} + {second}, s, f, level)
      ensures g in pdag.rank && first in pdag.rank && second in pdag.rank && pdag.rank[g] == Height(level)
      ensures pdag.rank[first] < pdag.rank[g] && pdag.rank[second] < pdag.rank[g]
      decreases level, 2, 0
    {
      hide Sound, Constructed, Counted, Tracked, Covered, StandAll, Known, Gate.Negated, Filled;
      NodeFacts(pdag.gates, pdag.parents, pdag.variables, pdag.nodeIndex, pdag.rank);
      g := OpenGate(And, 0, Height(level), open);
      ghost var one, oneRank := pdag.gates, pdag.rank;
      NodeFacts(pdag.gates, pdag.parents, pdag.variables, pdag.nodeIndex, pdag.rank);
      first := OpenGate(Atleast, f.minNumber, Height(level) - 1, open + {g});
      ghost var two, twoRank := pdag.gates, pdag.rank;
      NodeFacts(pdag.gates, pdag.parents, pdag.variables, pdag.nodeIndex, pdag.rank);
      s := AddArguments(first, f, level, open + {g} + {first});
      ghost var three, threeRank := pdag.gates, pdag.rank;
      NodeFacts(pdag.gates, pdag.parents, pdag.variables, pdag.nodeIndex, pdag.rank);
      FilledFacts(two[first], pdag.gates[first], s);
      second := CloneComplement(first, |f.args| - f.maxNumber, open + {g} + {first});
      StandAllAnew(tree, index, three, pdag.gates, open + {g} + {first}, second, s, f, level);
      KeptThrough(old(pdag.gates), one, two, three, pdag.gates, old(pdag.rank), oneRank, twoRank, threeRank, pdag.rank,
                  g, first, old(nodes), nodes);
    }

    /** Reduces both K/N gates, and makes them the arguments of the AND gate. */
    method CloseCardinality(g: int, first: int, second: int, ghost open: set<int>)
      requires Valid(open) && g in open && first in open && second in open && g != first && g != second && first != second
      requires g in pdag.gates && first in pdag.gates && second in pdag.gates && first > 1 && second > 1
      requires pdag.gates[g] == Gate(And, 0, {}, {}, {}, false)
      requires pdag.gates[first].kind.Atleast? && !pdag.gates[first].constant
      requires pdag.gates[second].kind.Atleast? && !pdag.gates[second].constant
      requires g in pdag.rank && first in pdag.rank && second in pdag.rank
      requires pdag.rank[first] < pdag.rank[g] && pdag.rank[second] < pdag.rank[g]
      modifies pdag
      ensures Valid(open) && KeptExcept(old(pdag.gates), pdag.gates, old(pdag.rank), pdag.rank, {g, first, second})
      ensures g in pdag.gates && first in pdag.gates && second in pdag.gates
      ensures pdag.gates[g].kind.And? && pdag.gates[g].args == {first, second}
      ensures pdag.gates[first] == Reduced(old(pdag.gates)[first]) && pdag.gates[second] == Reduced(old(pdag.gates)[second])
      ensures forall w: Valuation | 1 in w ::
                Holds(pdag.gates[first], w) <==> |Trues(old(pdag.gates)[first].args, w)| >= old(pdag.gates)[first].minNumber
      ensures forall w: Valuation | 1 in w ::
                Holds(pdag.gates[second], w) <==> |Trues(old(pdag.gates)[second].args, w)| >= old(pdag.gates)[second].minNumber
    {
      hide Sound, Constructed, Counted, Tracked, Holds, Filled;
      WellForm(first, open);
      WellForm(second, open);
      NodeFacts(pdag.gates, pdag.parents, pdag.variables, pdag.nodeIndex, pdag.rank);
      ghost var base := pdag.gates[g];
      NothingFilled(base);
      assert Distinct([] + [first]);
      Attach(g, first, open, base, [], 2);
      NodeFacts(pdag.gates, pdag.parents, pdag.variables, pdag.nodeIndex, pdag.rank);
      assert Distinct([first] + [second]);
      assert [] + [first] == [first];
      Attach(g, second, open, base, [first], 2);
      assert [first] + [second] == [first, second];
      FilledFacts(base, pdag.gates[g], [first, second]);
      ElementsOfTwo([first, second]);
    }

    /** A clone of an open gate with all arguments complemented. */
    method CloneComplement(first: int, minNumber: int, ghost open: set<int>) returns (second: int)
      requires Valid(open) && first in open && first in pdag.gates && pdag.gates[first].kind.Atleast? && !pdag.gates[first].constant
      requires first in pdag.rank
      modifies pdag
      ensures second > 1 && second !in old(pdag.gates) && second in pdag.gates && second in pdag.parents && Valid(open + {second})
      ensures KeptBut(old(pdag.gates), pdag.gates, old(pdag.rank), pdag.rank, 0)
      ensures pdag.gates[second] == old(pdag.gates)[first].Negated().(minNumber := minNumber)
      ensures second in pdag.rank && pdag.rank[second] == old(pdag.rank)[first]
      ensures forall h <- pdag.gates :: h in old(pdag.gates) || h == second
    {
      hide Sound, Constructed, Gate.Negated, Counted, Tracked;
      NodeFacts(pdag.gates, pdag.parents, pdag.variables, pdag.nodeIndex, pdag.rank);
      ArgumentNodes(pdag.gates, pdag.parents, pdag.variables, pdag.nodeIndex, pdag.rank, first);
      TrackedRank(pdag.Now(), pdag.nullGates, open, limit, built, first);
      second := pdag.Clone(first, pdag.rank[first]);
      pdag.NegateArgs(second);
      pdag.SetMinNumber(second, minNumber);
      NodeFacts(pdag.gates, pdag.parents, pdag.variables, pdag.nodeIndex, pdag.rank);
      ConstructedKept(tree, index, nodes, old(pdag.gates), old(pdag.rank), open, pdag.gates, pdag.rank, open + {second});
      TrackedStep(old(pdag.Now()), old(pdag.nullGates), open, pdag.Now(), pdag.nullGates, open + {second}, limit, built);
    }

    /** K/N with K equal to 0 is true, with K equal to 1 is OR, and with K equal to N is AND. */
    method WellForm(g: int, ghost open: set<int>)
      requires Valid(open) && g in open && g in pdag.gates && pdag.gates[g].kind.Atleast? && !pdag.gates[g].constant
      modifies pdag
      ensures Valid(open) && KeptBut(old(pdag.gates), pdag.gates, old(pdag.rank), pdag.rank, g) && pdag.rank == old(pdag.rank)
      ensures pdag.gates.Keys == old(pdag.gates.Keys)
      ensures pdag.gates[g] == Reduced(old(pdag.gates)[g])
      ensures forall w: Valuation | 1 in w ::
                Holds(pdag.gates[g], w) <==> |Trues(old(pdag.gates)[g].args, w)| >= old(pdag.gates)[g].minNumber
    {
      hide Sound, Constructed, Counted, Tracked;
      ghost var gate := pdag.gates[g];
      if pdag.gates[g].minNumber == 0 {
        pdag.MakeConstant(g, true);
      } else if pdag.gates[g].minNumber == 1 {
        pdag.SetType(g, Or);
      } else if pdag.gates[g].minNumber == |pdag.gates[g].args| {
        pdag.SetType(g, And);
      }
      ConstructedKept(tree, index, nodes, old(pdag.gates), old(pdag.rank), open, pdag.gates, pdag.rank, open);
      NodeFacts(old(pdag.gates), old(pdag.parents), pdag.variables, old(pdag.nodeIndex), old(pdag.rank));
      TrackedStep(old(pdag.Now()), old(pdag.nullGates), open, pdag.Now(), pdag.nullGates, open, limit, built);
      forall w: Valuation | 1 in w
        ensures Holds(pdag.gates[g], w) <==> |Trues(gate.args, w)| >= gate.minNumber
      {
        WellFormedMeaning(gate, pdag.gates[g], w);
      }
    }

    /** A node becomes an argument of an open gate. */
    method Attach(g: int, x: int, ghost open: set<int>, ghost base: Gate, ghost s: seq<int>, ghost size: nat)
      requires Valid(open) && g in open && g in pdag.gates && Abs(x) > 1 && Abs(x) in pdag.parents
      requires Abs(x) in pdag.gates ==> Abs(x) in pdag.rank && g in pdag.rank && pdag.rank[Abs(x)] < pdag.rank[g]
      requires Filled(base, pdag.gates[g], s) && |s| < size && Takes(base.kind, size) && Distinct(s + [x])
      modifies pdag
      ensures Valid(open) && KeptBut(old(pdag.gates), pdag.gates, old(pdag.rank), pdag.rank, g) && pdag.rank == old(pdag.rank)
      ensures pdag.gates.Keys == old(pdag.gates.Keys) && Filled(base, pdag.gates[g], s + [x])
    {
      hide Sound, Constructed, Counted, Tracked, Gate.Accepts, Filled, IsSplit, Splits, Insert, Gate.With;
      NewArgument(pdag.gates[g], base, s, x, size, Abs(x) in pdag.gates, pdag.rule);
      pdag.AddArg(g, x);
      ConstructedKept(tree, index, nodes, old(pdag.gates), old(pdag.rank), open, pdag.gates, pdag.rank, open);
      AttachedKind(base, old(pdag.gates)[g], pdag.gates[g], s, s + [x]);
      NodeFacts(old(pdag.gates), old(pdag.parents), pdag.variables, old(pdag.nodeIndex), old(pdag.rank));
      TrackedStep(old(pdag.Now()), old(pdag.nullGates), open, pdag.Now(), pdag.nullGates, open, limit, built);
    }

    /** Adds the node of the next argument. */
    method AddOne(g: int, f: Formula, i: nat, ghost level: nat, ghost open: set<int>, ghost s: seq<int>, ghost base: Gate) returns (ghost next: int)
      requires Valid(open) && tree.Below(f, level) && tree.WellFormed(f) && Known(tree, index, seen, f)
      requires g in open && g in pdag.gates && g in pdag.rank && pdag.rank[g] >= Height(level) - 1
      requires |s| == i < |f.args| && Takes(base.kind, |f.args|) && Filled(base, pdag.gates[g], s)
      requires Partly(tree, index, nodes, pdag.gates, pdag.variables, open, g, s, f, level)
      requires Height(level) <= limit
      modifies this, pdag
      ensures old(built) <= built
      ensures Valid(open) && KeptBut(old(pdag.gates), pdag.gates, old(pdag.rank), pdag.rank, g)
      ensures NodesGrow(old(nodes), old(pdag.gates), nodes)
      ensures forall h <- nodes :: h in old(nodes) || (h in tree.rank && tree.rank[h] < level)
      ensures Partly(tree, index, nodes, pdag.gates, pdag.variables, open, g, s + [next], f, level)
      ensures g in pdag.gates && Filled(base, pdag.gates[g], s + [next])
      decreases level, 1, 0
    {
      hide Sound, Constructed, Counted, Tracked, Stands, Partly, Placed, FaultTree.WellFormed, FaultTree.Below, Known, Filled, Indexed, Takes;
      NodeFacts(pdag.gates, pdag.parents, pdag.variables, pdag.nodeIndex, pdag.rank);
      ArgumentFacts(tree, index, seen, f, level, i);
      var x := ArgumentNode(f.args[i], level, open);
      next := x;
      NodeFacts(pdag.gates, pdag.parents, pdag.variables, pdag.nodeIndex, pdag.rank);
      PartlyNext(tree, index, old(nodes), nodes, old(pdag.gates), pdag.gates, old(pdag.rank), pdag.rank, pdag.variables, open, g, s, x, f, level);
      ghost var middle, middleRank := pdag.gates, pdag.rank;
      Attach(g, x, open, base, s, |f.args|);
      PartlyKept(tree, index, nodes, middle, pdag.gates, middleRank, pdag.rank, pdag.variables, open, g, s + [x], f, level);
      KeptThenBut(old(pdag.gates), middle, pdag.gates, old(pdag.rank), middleRank, pdag.rank, g);
    }

    /** Adds the nodes of all arguments to a new gate. */
    method AddArguments(g: int, f: Formula, ghost level: nat, ghost open: set<int>) returns (ghost s: seq<int>)
      requires Valid(open) && tree.Below(f, level) && tree.WellFormed(f) && Known(tree, index, seen, f)
      requires g in open && g in pdag.gates && g in pdag.rank && pdag.rank[g] >= Height(level) - 1
      requires pdag.gates[g] == pdag.gates[g].Bare() && Takes(pdag.gates[g].kind, |f.args|)
      requires Height(level) <= limit
      modifies this, pdag
      ensures old(built) <= built && Covered(tree, nodes.Keys, f)
      ensures Valid(open) && KeptBut(old(pdag.gates), pdag.gates, old(pdag.rank), pdag.rank, g)
      ensures NodesGrow(old(nodes), old(pdag.gates), nodes)
      ensures forall h <- nodes :: h in old(nodes) || (h in tree.rank && tree.rank[h] < level)
      ensures StandAll(tree, index, pdag.gates, open, s, f, level) && forall i <- s :: i != 0 && Abs(i) != g
      ensures Filled(old(pdag.gates)[g], pdag.gates[g], s)
      decreases level, 1
    {
      s := [];
      for i := 0 to |f.args|
        invariant Valid(open) && KeptBut(old(pdag.gates), pdag.gates, old(pdag.rank), pdag.rank, g)
        invariant old(built) <= built
        invariant NodesGrow(old(nodes), old(pdag.gates), nodes)
        invariant forall h <- nodes :: h in old(nodes) || (h in tree.rank && tree.rank[h] < level)
        invariant |s| == i && Partly(tree, index, nodes, pdag.gates, pdag.variables, open, g, s, f, level)
        invariant Filled(old(pdag.gates)[g], pdag.gates[g], s)
      {
        ghost var next := AddOne(g, f, i, level, open, s, old(pdag.gates)[g]);
        s := s + [next];
      }
      PlacedCovered(tree, index, nodes, pdag.gates, f, s);
    }
  }

  /** The number of arguments that a connective allows at all. */
  predicate Takes(kind: Connective, size: nat) {
    match kind
    case Not | Null => size <= 1
    case Xor => size <= 2
    case _ => true
  }

  /** A gate has got exactly these arguments. */
  ghost predicate Filled(before: Gate, gate: Gate, s: seq<int>) {
    gate.kind == before.kind && gate.minNumber == before.minNumber && !gate.constant && gate.args == Elements(s)
  }

  /** The arguments so far stand for those of the formula, at different nodes. */
  ghost predicate Partly(tree: FaultTree, index: VariableIndex, nodes: map<int, int>, gates: Gates, variables: set<int>, open: set<int>,
                         g: int, s: seq<int>, f: Formula, level: nat) {
    && StandSome(tree, index, gates, open, s, f, level) && Distinct(s) && PlacedAll(tree, index, nodes, gates, f, s)
    && forall j <- s :: Abs(j) > 1 && Abs(j) != g && (Abs(j) in gates || Abs(j) in variables)
  }

  lemma PartlyKept(tree: FaultTree, index: VariableIndex, nodes: map<int, int>, before: Gates, after: Gates, rank: Rank, rank': Rank,
                   variables: set<int>, open: set<int>, g: int, s: seq<int>, f: Formula, level: nat)
    requires Partly(tree, index, nodes, before, variables, open, g, s, f, level)
    requires KeptBut(before, after, rank, rank', g) && g in open
    ensures Partly(tree, index, nodes, after, variables, open, g, s, f, level)
  {
    SomeKept(tree, index, before, after, rank, rank', g, nodes, nodes, open, s, f, level);
  }

  lemma PartlyNext(tree: FaultTree, index: VariableIndex, nodes: map<int, int>, nodes': map<int, int>, before: Gates, after: Gates,
                   rank: Rank, rank': Rank, variables: set<int>, open: set<int>, g: int, s: seq<int>, x: int, f: Formula, level: nat)
    requires Partly(tree, index, nodes, before, variables, open, g, s, f, level)
    requires KeptBut(before, after, rank, rank', 0) && 0 !in before && g in open && NodesGrow(nodes, before, nodes')
    requires tree.WellFormed(f) && Indexed(index, variables) && |s| < |f.args| && Constructed(tree, index, nodes', after, rank', open)
    requires forall n <- variables :: n !in after
    requires Placed(tree, index, nodes', after, f.args[|s|].event, x) && Stands(tree, index, after, open, x, f.args[|s|], level)
    requires tree.Resolve(f.args[|s|].event).HouseEvent? ==> Abs(x) !in before
    requires Abs(x) > 1 && Abs(x) !in open && (Abs(x) in after || Abs(x) in variables)
    ensures Partly(tree, index, nodes', after, variables, open, g, s + [x], f, level)
    ensures Distinct(s + [x])
  {
    hide Stands, Placed, FaultTree.WellFormed, Constructed;
    SomeKept(tree, index, before, after, rank, rank', 0, nodes, nodes', open, s, f, level);
    NodesAreGates(tree, index, nodes', after, rank', open);
    NodesApart(tree, index, nodes', after, rank', open);
    forall i | 0 <= i < |s|
      ensures Abs(s[i]) in before || Abs(s[i]) in variables
    {
      assert s[i] in s;
    }
    PlacedApart(tree, index, variables, nodes', after, f, s, x, before);
  }

  lemma KeptThenBut(s: Gates, t: Gates, u: Gates, rank: Rank, rank': Rank, rank'': Rank, g: int)
    requires KeptBut(s, t, rank, rank', 0) && KeptBut(t, u, rank', rank'', g) && 0 !in s
    ensures KeptBut(s, u, rank, rank'', g)
  {
  }

  ghost predicate StandSome(tree: FaultTree, index: VariableIndex, gates: Gates, open: set<int>, s: seq<int>, f: Formula, level: nat) {
    |s| <= |f.args| && forall i | 0 <= i < |s| :: Stands(tree, index, gates, open, s[i], f.args[i], level)
  }

  lemma VariableNode(gates: Gates, parents: Parents, variables: set<int>, nodeIndex: int, rank: Rank, n: int)
    requires Sound(gates, parents, variables, nodeIndex, rank) && n in variables
    ensures n > 1 && n in parents && n !in gates
  {
  }

  lemma NodeFacts(gates: Gates, parents: Parents, variables: set<int>, nodeIndex: int, rank: Rank)
    requires Sound(gates, parents, variables, nodeIndex, rank)
    ensures 1 in parents && nodeIndex >= 1 && 0 !in gates
    ensures forall g <- gates :: 1 < g <= nodeIndex && g in parents && g in rank && g !in variables
    ensures forall n <- variables :: 1 < n <= nodeIndex && n in parents && n !in gates
  {
  }

  lemma ConstantAccepted(gate: Gate, state: bool, rule: PairRule)
    requires gate == Gate(Null, 0, {}, {}, {}, false)
    ensures gate.Accepts(if state then 1 else -1) && !Splits(gate, if state then 1 else -1)
    ensures Insert(gate, if state then 1 else -1, true, rule) == Insert(gate, if state then 1 else -1, false, rule) == Constant(gate, state)
  {
  }

  lemma NodesAreGates(tree: FaultTree, index: VariableIndex, nodes: map<int, int>, gates: Gates, rank: Rank, open: set<int>)
    requires Constructed(tree, index, nodes, gates, rank, open)
    ensures forall g <- nodes :: nodes[g] in gates && nodes[g] !in open
  {
  }

  lemma HouseStands(tree: FaultTree, index: VariableIndex, gates: Gates, open: set<int>, s: int, arg: Arg, level: nat)
    requires tree.Valid() && tree.EventBelow(arg.event, level) && tree.Resolve(arg.event).HouseEvent?
    requires s > 1 && s in gates && s !in open
    requires gates[s] == Constant(Gate(Null, 0, {}, {}, {}, false), tree.Resolve(arg.event).state != arg.complement)
    ensures Stands(tree, index, gates, open, s, arg, level)
  {
    forall w: Valuation | Settled(gates, open, w)
      ensures Literal(s, w) <==> tree.EventValue(arg.event, level, Events(index, w)) != arg.complement
    {
      TruesOfOne(1, w);
      TruesOfOne(-1, w);
    }
  }

  lemma GateStands(tree: FaultTree, index: VariableIndex, gates: Gates, open: set<int>, n: int, arg: Arg, g: int, level: nat)
    requires tree.Valid() && tree.EventBelow(arg.event, level) && tree.Resolve(arg.event) == GateEvent(g)
    requires n > 1 && Means(tree, index, gates, open, n, tree.gates[g], tree.rank[g])
    ensures Stands(tree, index, gates, open, if arg.complement then -n else n, arg, level)
  {
  }

  lemma ArgumentFacts(tree: FaultTree, index: VariableIndex, seen: set<int>, f: Formula, level: nat, i: nat)
    requires tree.Below(f, level) && Known(tree, index, seen, f) && i < |f.args|
    ensures tree.EventBelow(f.args[i].event, level) && EventKnown(tree, index, seen, f.args[i].event)
  {
  }

  lemma NodesApart(tree: FaultTree, index: VariableIndex, nodes: map<int, int>, gates: Gates, rank: Rank, open: set<int>)
    requires Constructed(tree, index, nodes, gates, rank, open)
    ensures forall g <- nodes, h <- nodes :: nodes[g] == nodes[h] ==> g == h
  {
  }

  /** The arguments so far still stand for those of the formula. */
  lemma SomeKept(tree: FaultTree, index: VariableIndex, before: Gates, after: Gates, rank: Rank, rank': Rank, g: int,
                 nodes: map<int, int>, nodes': map<int, int>, open: set<int>, s: seq<int>, f: Formula, level: nat)
    requires StandSome(tree, index, before, open, s, f, level) && PlacedAll(tree, index, nodes, before, f, s)
    requires KeptBut(before, after, rank, rank', g) && (g in open || g !in before) && NodesGrow(nodes, before, nodes')
    ensures StandSome(tree, index, after, open, s, f, level) && PlacedAll(tree, index, nodes', after, f, s)
  {
    forall i | 0 <= i < |s|
      ensures Stands(tree, index, after, open, s[i], f.args[i], level)
      ensures Placed(tree, index, nodes', after, f.args[i].event, s[i])
    {
      StandsKept(tree, index, before, open, after, open, s[i], f.args[i], level);
      assert Placed(tree, index, nodes, before, f.args[i].event, s[i]);
    }
  }

  /** An argument whose node the gate does not have yet. */
  lemma NewArgument(gate: Gate, base: Gate, s: seq<int>, x: int, size: nat, toGate: bool, rule: PairRule)
    requires Filled(base, gate, s) && |s| < size && Takes(base.kind, size) && Abs(x) > 1 && Distinct(s + [x])
    ensures gate.Accepts(x) && !Splits(gate, x)
    ensures Insert(gate, x, toGate, rule) == gate.With(x, toGate) && Filled(base, gate.With(x, toGate), s + [x])
  {
    ElementsAre(s, x);
    ElementsAre(s, -x);
    forall j | 0 <= j < |s|
      ensures s[j] != x && s[j] != -x
    {
      assert Abs((s + [x])[j]) != Abs((s + [x])[|s|]);
    }
    if s == [] {
      assert gate.args == {};
    }
    SmallElements(s);
    assert (s + [x])[..|s|] == s;
  }

  lemma {:induction false} SmallElements(s: seq<int>)
    ensures |Elements(s)| <= |s|
  {
    if s != [] {
      SmallElements(s[..|s| - 1]);
    }
  }

  /** What has been kept since before a gate was started. */
  lemma GrowFrom(before: Gates, started: Gates, after: Gates, rank: Rank, rank': Rank, rank'': Rank, g: int, nodes: map<int, int>, nodes': map<int, int>)
    requires KeptBut(before, started, rank, rank', 0) && KeptBut(started, after, rank', rank'', g)
    requires 0 !in before && g !in before && NodesGrow(nodes, started, nodes')
    ensures KeptBut(before, after, rank, rank'', 0) && NodesGrow(nodes, before, nodes')
  {
    forall h <- nodes' | h !in nodes
      ensures nodes'[h] !in before
    {
      var n := nodes'[h];
      assert n in before ==> n in started;
    }
  }

  lemma PlacedCovered(tree: FaultTree, index: VariableIndex, nodes: map<int, int>, gates: Gates, f: Formula, s: seq<int>)
    requires PlacedAll(tree, index, nodes, gates, f, s) && |s| == |f.args|
    ensures Covered(tree, nodes.Keys, f)
  {
    forall i | 0 <= i < |f.args|
      ensures EventCovered(tree, nodes.Keys, f.args[i].event)
    {
      assert Placed(tree, index, nodes, gates, f.args[i].event, s[i]);
    }
  }

  lemma FlippedCovered(tree: FaultTree, gates: set<int>, f: Formula)
    requires f.args != [] && Covered(tree, gates, FlipFirst(f))
    ensures Covered(tree, gates, f)
  {
    forall i | 0 <= i < |f.args|
      ensures EventCovered(tree, gates, f.args[i].event)
    {
      assert EventCovered(tree, gates, FlipFirst(f).args[i].event);
    }
  }

  lemma SizedMore(built: set<Formula>, f: Formula)
    ensures (forall h <- built + {f} :: Sized(h)) <==> (forall h <- built :: Sized(h)) && Sized(f)
  {
  }

  // Which finished gates are complete.

  lemma ConstantCompletes(gate: Gate, state: bool)
    ensures Constant(gate, state).Complete()
  {
    assert |{1}| == 1 && |{-1}| == 1;
  }

  lemma AttachedKind(base: Gate, before: Gate, gate: Gate, s: seq<int>, s': seq<int>)
    requires Filled(base, before, s) && Filled(base, gate, s')
    ensures gate.kind == before.kind
  {
  }

  lemma {:induction false} DistinctElements(s: seq<int>)
    requires Distinct(s)
    ensures |Elements(s)| == |s|
  {
    if s != [] {
      var last := |s| - 1;
      DistinctElements(s[..last]);
      ElementsAre(s[..last], s[last]);
      assert s[last] !in s[..last];
    }
  }

  lemma StandAllFacts(tree: FaultTree, index: VariableIndex, gates: Gates, open: set<int>, s: seq<int>, f: Formula, level: nat)
    requires StandAll(tree, index, gates, open, s, f, level)
    ensures |s| == |f.args| && Distinct(s)
  {
  }

  lemma CoreCompletes(tree: FaultTree, f: Formula, gate: Gate, s: seq<int>)
    requires f.kind.Core? && tree.WellFormed(f) && |s| == |f.args| && Distinct(s)
    requires gate.kind == f.kind.connective && gate.args == Elements(s) && (gate.kind.Atleast? ==> gate.minNumber == f.minNumber)
    ensures gate.Complete() && Sized(f)
  {
    DistinctElements(s);
  }

  lemma IffCompletes(f: Formula, gate: Gate, x: int, xor: Gate, s: seq<int>)
    requires f.kind.Iff? && |s| == |f.args| == 2 && Distinct(s)
    requires gate.kind.Null? && gate.args == {x} && xor.kind.Xor? && xor.args == Elements(s)
    ensures gate.Complete() && xor.Complete() && Sized(f)
  {
    DistinctElements(s);
    assert |{x}| == 1;
  }

  lemma ImplyCompletes(f: Formula, gate: Gate, i: int, j: int)
    requires f.kind.Imply? && gate.kind.Or? && gate.args == {i, j} && i != j
    ensures gate.Complete() && Sized(f)
  {
    TruesOfTwo(i, j, iset{});
  }

  /** What is left of a K/N gate that is no proper one. */
  function Reduced(gate: Gate): Gate {
    if gate.minNumber == 0 then Constant(gate.Bare(), true)
    else if gate.minNumber == 1 then gate.(kind := Or)
    else if gate.minNumber == |gate.args| then gate.(kind := And)
    else gate
  }

  lemma ReducedCompletes(gate: Gate)
    requires gate.kind.Atleast? && 0 <= gate.minNumber <= |gate.args| && gate.args != {}
    ensures Reduced(gate).Complete() <==> gate.minNumber != 1 || |gate.args| > 1
  {
    ConstantCompletes(gate.Bare(), true);
  }

  lemma CardinalityCompletes(f: Formula, gate: Gate, least: Gate, most: Gate, first: Gate, second: Gate, i: int, j: int, s: seq<int>)
    requires f.kind.Cardinality? && 0 <= f.minNumber <= f.maxNumber <= |f.args| && f.args != [] && |s| == |f.args| && Distinct(s)
    requires gate.kind.And? && gate.args == {i, j} && i != j
    requires least.kind.Atleast? && least.args == Elements(s) && least.minNumber == f.minNumber && first == Reduced(least)
    requires forall i <- s :: i != 0
    requires most == least.Negated().(minNumber := |f.args| - f.maxNumber) && second == Reduced(most)
    ensures gate.Complete()
    ensures first.Complete() && second.Complete() <==> Sized(f)
  {
    TruesOfTwo(i, j, iset{});
    DistinctElements(s);
    ElementsAre(s, 0);
    NegatedTrues(least.args, most.args, iset{});
    NotEmpty(least.args);
    NotEmpty(most.args);
    ReducedCompletes(least);
    ReducedCompletes(most);
  }

  lemma NotEmpty(s: set<int>)
    requires |s| > 0
    ensures s != {}
  {
  }

  lemma NothingFilled(gate: Gate)
    requires gate == gate.Bare()
    ensures Filled(gate, gate, []) && Distinct([])
  {
  }

  lemma StandAllKept(tree: FaultTree, index: VariableIndex, before: Gates, after: Gates, open: set<int>, g: int, s: seq<int>, f: Formula, level: nat)
    requires StandAll(tree, index, before, open, s, f, level) && g in open
    requires forall h <- before :: h in after && (h != g ==> after[h] == before[h])
    ensures StandAll(tree, index, after, open, s, f, level)
  {
    forall i | 0 <= i < |s|
      ensures Stands(tree, index, after, open, s[i], f.args[i], level)
    {
      StandsKept(tree, index, before, open, after, open, s[i], f.args[i], level);
    }
  }

  lemma AloneDistinct(x: int)
    ensures Distinct([] + [x])
  {
  }

  lemma FilledAlone(before: Gate, gate: Gate, x: int)
    requires Filled(before, gate, [] + [x])
    ensures gate.kind == before.kind && gate.args == {x} && !gate.constant
  {
    var s := [] + [x];
    assert s[..|s| - 1] == [];
    assert Elements([]) == {};
    assert s[|s| - 1] == x;
  }

  lemma IffClosed(tree: FaultTree, index: VariableIndex, gates: Gates, open: set<int>, g: int, xor: int, s: seq<int>, f: Formula, level: nat, all: set<int>)
    requires tree.Valid() && tree.Below(f, level) && all == open + {g} + {xor} && StandAll(tree, index, gates, all, s, f, level)
    requires g in gates && g !in open && xor in gates && xor !in open && xor > 1 && f.kind.Iff? && |f.args| == 2
    requires gates[g].kind.Null? && gates[g].args == {-xor} && gates[xor].kind.Xor? && gates[xor].args == Elements(s)
    ensures Means(tree, index, gates, open, g, f, level)
  {
    assert all == open + {g, xor};
    IffMeans(tree, index, gates, open, g, xor, s, f, level);
  }

  lemma KeptNew(s: Gates, t: Gates, u: Gates, rank: Rank, rank': Rank, rank'': Rank, g: int)
    requires KeptBut(s, t, rank, rank', 0) && KeptBut(t, u, rank', rank'', g) && 0 !in s && g !in s
    ensures KeptBut(s, u, rank, rank'', 0)
  {
  }

  function FlipFirst(f: Formula): Formula
    requires f.args != []
  {
    f.(args := [f.args[0].(complement := !f.args[0].complement)] + f.args[1..])
  }

  lemma FlippedFacts(tree: FaultTree, index: VariableIndex, seen: set<int>, f: Formula, level: nat)
    requires tree.Below(f, level) && tree.WellFormed(f) && Known(tree, index, seen, f) && f.kind.Imply?
    ensures tree.Below(FlipFirst(f), level) && tree.WellFormed(FlipFirst(f)) && Known(tree, index, seen, FlipFirst(f))
  {
    var flipped := FlipFirst(f);
    assert forall i | 0 <= i < |f.args| :: flipped.args[i].event == f.args[i].event;
  }

  lemma FlippedStands(tree: FaultTree, index: VariableIndex, gates: Gates, open: set<int>, s: seq<int>, f: Formula, level: nat)
    requires |f.args| == 2 && StandAll(tree, index, gates, open, s, FlipFirst(f), level) && s[0] != 0
    ensures StandAll(tree, index, gates, open, [-s[0], s[1]], f, level)
  {
    var flipped := FlipFirst(f);
    assert Stands(tree, index, gates, open, s[0], flipped.args[0], level);
    assert Stands(tree, index, gates, open, s[1], flipped.args[1], level);
    assert Stands(tree, index, gates, open, -s[0], f.args[0], level);
    assert Abs(s[0]) != Abs(s[1]);
  }

  lemma ElementsOfTwo(s: seq<int>)
    requires |s| == 2
    ensures Elements(s) == {s[0], s[1]}
  {
    assert s[..1][..0] == [];
    assert Elements(s[..1]) == {s[0]};
  }

  lemma WellFormedMeaning(before: Gate, after: Gate, w: Valuation)
    requires before.kind.Atleast? && 1 in w
    requires after == Reduced(before)
    ensures Holds(after, w) <==> |Trues(before.args, w)| >= before.minNumber
  {
    TruesOfOne(1, w);
    TruesBound(before.args, w);
  }

  lemma FilledFacts(before: Gate, gate: Gate, s: seq<int>)
    requires Filled(before, gate, s)
    ensures gate.kind == before.kind && gate.minNumber == before.minNumber && !gate.constant && gate.args == Elements(s)
  {
  }

  ghost predicate KeptExcept(before: Gates, after: Gates, rank: Rank, rank': Rank, changed: set<int>) {
    forall h <- before ::
      && h in after && (h !in changed ==> after[h] == before[h])
      && (h in rank ==> h in rank' && rank'[h] == rank[h])
  }

  lemma KeptThrough(before: Gates, one: Gates, two: Gates, three: Gates, four: Gates,
                    rank: Rank, rank1: Rank, rank2: Rank, rank3: Rank, rank4: Rank,
                    g: int, first: int, nodes: map<int, int>, nodes': map<int, int>)
    requires KeptBut(before, one, rank, rank1, 0) && KeptBut(one, two, rank1, rank2, 0)
    requires KeptBut(two, three, rank2, rank3, first) && KeptBut(three, four, rank3, rank4, 0)
    requires 0 !in before && 0 !in one && 0 !in two && 0 !in three && g !in before && first !in one
    requires NodesGrow(nodes, two, nodes')
    ensures KeptBut(before, four, rank, rank4, 0) && NodesGrow(nodes, before, nodes')
    ensures g in one && g in rank1 && first != g ==> g in four && four[g] == one[g] && g in rank4 && rank4[g] == rank1[g]
    ensures first in three ==> first in four && four[first] == three[first]
    ensures first in two && first in rank2 ==> first in rank4 && rank4[first] == rank2[first]
    ensures forall h <- before :: h in three
  {
    forall k <- before
      ensures k in three && k in four && four[k] == before[k] && (k in rank ==> k in rank4 && rank4[k] == rank[k])
    {
      assert k in one && k in two && k in three;
    }
    forall k <- nodes' | k !in nodes
      ensures nodes'[k] !in before
    {
      var n := nodes'[k];
      assert n in before ==> n in one;
      assert n in one ==> n in two;
    }
  }

  lemma KeptThenExcept(s: Gates, t: Gates, u: Gates, rank: Rank, rank': Rank, rank'': Rank, g: int, first: int, second: int)
    requires KeptBut(s, t, rank, rank', 0) && KeptExcept(t, u, rank', rank'', {g, first, second}) && 0 !in s
    requires g !in s && first !in s && second !in s
    ensures KeptBut(s, u, rank, rank'', 0)
    ensures g in t && g in rank' ==> g in rank'' && rank''[g] == rank'[g]
  {
  }

  lemma NegatedFacts(gate: Gate)
    ensures gate.Negated().kind == gate.kind && gate.Negated().constant == gate.constant
  {
  }

  /** One more open gate makes no difference. */
  lemma StandAllAnew(tree: FaultTree, index: VariableIndex, before: Gates, after: Gates, open: set<int>, second: int, s: seq<int>, f: Formula, level: nat)
    requires StandAll(tree, index, before, open, s, f, level) && second !in before
    requires forall h <- before :: h in after && (h != 0 ==> after[h] == before[h])
    requires 0 !in before
    ensures StandAll(tree, index, after, open + {second}, s, f, level)
  {
    forall i | 0 <= i < |s|
      ensures Stands(tree, index, after, open + {second}, s[i], f.args[i], level)
    {
      StandsKept(tree, index, before, open, after, open + {second}, s[i], f.args[i], level);
    }
  }

  lemma StandAllExcept(tree: FaultTree, index: VariableIndex, before: Gates, after: Gates, rank: Rank, rank': Rank, changed: set<int>,
                       open: set<int>, s: seq<int>, f: Formula, level: nat)
    requires StandAll(tree, index, before, open, s, f, level) && KeptExcept(before, after, rank, rank', changed)
    requires forall h <- changed :: h in open
    ensures StandAll(tree, index, after, open, s, f, level)
  {
    forall i | 0 <= i < |s|
      ensures Stands(tree, index, after, open, s[i], f.args[i], level)
    {
      StandsKept(tree, index, before, open, after, open, s[i], f.args[i], level);
    }
  }

  lemma CardinalityClosed(tree: FaultTree, index: VariableIndex, gates: Gates, open: set<int>, g: int, first: int, second: int,
                          s: seq<int>, f: Formula, level: nat, least: Gate, most: Gate, filled: Gate, all: set<int>)
    requires tree.Valid() && tree.Below(f, level) && tree.WellFormed(f) && f.kind.Cardinality?
    requires all == open + {g} + {first} + {second} && StandAll(tree, index, gates, all, s, f, level)
    requires g in gates && first in gates && second in gates && g !in open && first !in open && second !in open
    requires first > 1 && second > 1 && first != second && forall i <- s :: i != 0
    requires gates[g].kind.And? && gates[g].args == {first, second}
    requires filled.args == Elements(s) && least == filled && most == filled.Negated().(minNumber := |f.args| - f.maxNumber)
    requires filled.minNumber == f.minNumber
    requires forall w: Valuation | 1 in w :: Holds(gates[first], w) <==> |Trues(least.args, w)| >= least.minNumber
    requires forall w: Valuation | 1 in w :: Holds(gates[second], w) <==> |Trues(most.args, w)| >= most.minNumber
    ensures Means(tree, index, gates, open, g, f, level)
  {
    hide Holds, Means, Trues;
    assert all == open + {g, first, second};
    assert |s| > 0 && s[|s| - 1] in Elements(s);
    CardinalityMeans(tree, index, gates, open, g, first, second, s, f, level);
  }
}
