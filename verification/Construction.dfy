/** Construction of the BDD of a graph, and what the diagram then means. */
module Construction {
  import opened Vertices
  import opened Indices
  import opened Options
  import opened Tables
  import opened Graphs
  import opened BddEngine
  import opened Conversion
  import opened Expectation
  import opened Diagrams
  import opened Analyzers

  ghost function Variables(layout: Layout): set<int> {
    set i | i in layout && !layout[i].isModule
  }

  /** Live vertices of a consistent store are grounded. */
  lemma {:induction false} GroundedLive(layout: Layout, live: set<Vertex>, born: Births, functionId: nat, modules: Modules, v: Vertex)
    requires Consistent(layout, live, born, functionId, modules) && v in live
    ensures Grounded(modules, Variables(layout), v)
    decreases v.Id()
  {
    hide WellLaid;
    if v.Ite? {
      assert WellFormed(layout, v);
      GroundedLive(layout, live, born, functionId, modules, v.high);
      GroundedLive(layout, live, born, functionId, modules, v.low);
      if v.isModule {
        GroundedLive(layout, live, born, functionId, modules, modules[v.index].vertex);
      }
    }
  }

  lemma BlocksFollow(layout: Layout, u: Vertex, v: Vertex)
    requires WellFormed(layout, u) && WellFormed(layout, v) && u.Ite?
    requires Below(layout, u.order, layout[u.index].owner, v)
    ensures v.Ite? ==> u.order < layout[v.index].lo
  {
  }

  lemma BlockOfModule(layout: Layout, m: int, v: Vertex)
    requires m in layout && layout[m].isModule && Below(layout, 0, m, v)
    ensures v.Ite? ==> layout[m].lo <= layout[v.index].lo
    ensures forall i <- layout :: layout[i].owner == m ==> layout[i].order <= layout[m].order - 1
  {
  }

  /** Live vertices of a consistent store are laid out by blocks. */
  lemma {:induction false} LaidLive(layout: Layout, live: set<Vertex>, born: Births, functionId: nat, modules: Modules, v: Vertex,
                                    owner: int, lo: int, hi: int)
    requires Consistent(layout, live, born, functionId, modules) && v in live
    requires Grounded(modules, Variables(layout), v)
    requires v.Ite? ==> v.index in layout && layout[v.index].owner == owner && lo <= layout[v.index].lo
    requires forall i <- layout :: layout[i].owner == owner ==> layout[i].order <= hi
    ensures Laid(layout, modules, Variables(layout), v, lo, hi)
    decreases v.Id()
  {
    hide WellLaid;
    if v.Ite? {
      assert WellFormed(layout, v);
      BlocksFollow(layout, v, v.high);
      BlocksFollow(layout, v, v.low);
      LaidLive(layout, live, born, functionId, modules, v.high, owner, v.order + 1, hi);
      LaidLive(layout, live, born, functionId, modules, v.low, owner, v.order + 1, hi);
      if v.isModule {
        BlockOfModule(layout, v.index, modules[v.index].vertex);
        LaidLive(layout, live, born, functionId, modules, modules[v.index].vertex, v.index, layout[v.index].lo, v.order - 1);
      }
    }
  }

  lemma {:induction false} ReachLive(layout: Layout, live: set<Vertex>, born: Births, functionId: nat, modules: Modules, v: Vertex)
    requires Consistent(layout, live, born, functionId, modules) && v in live
    requires Grounded(modules, Variables(layout), v)
    ensures Reach(modules, Variables(layout), v) <= live
    decreases v.Id()
  {
    hide WellLaid, WellFormed;
    if v.Ite? {
      ReachLive(layout, live, born, functionId, modules, v.high);
      ReachLive(layout, live, born, functionId, modules, v.low);
      if v.isModule {
        ReachLive(layout, live, born, functionId, modules, modules[v.index].vertex);
      }
    }
  }

  /** What is reached from a vertex is closed under traversal. */
  lemma {:induction false} ReachClosed(modules: Modules, vars: set<int>, v: Vertex)
    requires Grounded(modules, vars, v)
    ensures forall u | u in Reach(modules, vars, v) ::
              Grounded(modules, vars, u) && (u.Ite? ==> Next(modules, u) <= Reach(modules, vars, v))
    decreases v.Id()
  {
    if v.Ite? {
      ReachIds(modules, vars, v.high);
      ReachIds(modules, vars, v.low);
      ReachClosed(modules, vars, v.high);
      ReachClosed(modules, vars, v.low);
      if v.isModule {
        ReachIds(modules, vars, modules[v.index].vertex);
        ReachClosed(modules, vars, modules[v.index].vertex);
      }
    }
  }

  lemma FrozenLive(layout: Layout, live: set<Vertex>, born: Births, functionId: nat, modules: Modules, v: Vertex)
    requires Consistent(layout, live, born, functionId, modules) && v in live
    ensures Grounded(modules, Variables(layout), v)
    ensures Frozen(modules, Variables(layout), Reach(modules, Variables(layout), v))
  {
    hide WellLaid, WellFormed;
    GroundedLive(layout, live, born, functionId, modules, v);
    ReachLive(layout, live, born, functionId, modules, v);
    ReachClosed(modules, Variables(layout), v);
  }

  /** A proxy is true in the extended assignment exactly when its module's function is, and a
      variable exactly when it is true. */
  lemma ProxyValue(graph: Pdag, t: Traversal, memo: Memo, modules: Modules, indexToOrder: map<int, int>, live: set<Vertex>,
                   i: int, a: Assignment)
    requires Known(graph, t, memo, modules, indexToOrder, live)
    requires i in graph.layout && (graph.layout[i].isModule ==> i in modules)
    ensures i in graph.Proxied(a)
       <==> if graph.layout[i].isModule then EvalF(modules[i], graph.Proxied(a)) else i in a
  {
    if graph.layout[i].isModule {
      assert Represents(graph, modules[i], i);
    }
  }

  /** Expanding proxies through the modules gives the value under the extended assignment. */
  lemma {:induction false} ExpandProxied(graph: Pdag, t: Traversal, memo: Memo, modules: Modules, indexToOrder: map<int, int>,
                                         live: set<Vertex>, v: Vertex, a: Assignment)
    requires Known(graph, t, memo, modules, indexToOrder, live)
    requires Grounded(modules, Variables(graph.layout), v) && WellFormed(graph.layout, v)
    requires forall m <- modules :: WellFormed(graph.layout, modules[m].vertex)
    ensures Expand(modules, Variables(graph.layout), v, a) == Eval(v, graph.Proxied(a))
    decreases v.Id()
  {
    hide WellLaid, RawPdag.WellBuilt, Known, RawPdag.Proxied;
    if v.Ite? {
      ExpandProxied(graph, t, memo, modules, indexToOrder, live, v.high, a);
      ExpandProxied(graph, t, memo, modules, indexToOrder, live, v.low, a);
      ProxyValue(graph, t, memo, modules, indexToOrder, live, v.index, a);
      if v.isModule {
        ExpandProxied(graph, t, memo, modules, indexToOrder, live, modules[v.index].vertex, a);
      }
      assert Choice(modules, Variables(graph.layout), v, a) == (v.index in graph.Proxied(a));
    }
  }

  lemma {:induction false} OrderBound(layout: Layout, indices: set<int>) returns (hi: int)
    requires indices <= layout.Keys
    ensures forall i <- indices :: layout[i].order <= hi
  {
    hi := 0;
    if i :| i in indices {
      hi := OrderBound(layout, indices - {i});
      hi := if layout[i].order > hi then layout[i].order else hi;
    }
  }

  ghost predicate IsFunctionOf(graph: Pdag, complement: bool, modules: Modules, root: Function)
    requires Grounded(modules, Variables(graph.layout), root.vertex)
  {
    forall a: Assignment ::
      ExpandF(modules, Variables(graph.layout), root, a) == (graph.Value(graph.root, a) != complement)
  }

  /** What the constructed BDD promises: its expanded root function is that of the graph, its
      vertices are laid out by blocks, and every variable of the graph has its order. */
  ghost predicate Built(graph: Pdag, complement: bool, modules: Modules, root: Function, indexToOrder: map<int, int>, hi: int)
  {
    var vars := Variables(graph.layout);
    && Grounded(modules, vars, root.vertex)
    && Frozen(modules, vars, Reach(modules, vars, root.vertex))
    && Laid(graph.layout, modules, vars, root.vertex, 0, hi)
    && IsFunctionOf(graph, complement, modules, root)
    && (forall i <- indexToOrder :: i in vars && indexToOrder[i] == graph.layout[i].order)
    && (forall g, v | g in graph.gates && v in graph.gates[g].variables :: Abs(v) in indexToOrder)
  }

  /** Converts the graph from its root. Each gate is converted exactly once and the memo is
      empty at the end. */
  method BuildBdd(bdd: Bdd, graph: Pdag, complement: bool) returns (root: Function, converter: Converter, ghost hi: int)
    requires bdd.layout == graph.layout && bdd.Valid() && bdd.modules == map[] && bdd.indexToOrder == map[]
    modifies bdd, bdd.uniqueTable, bdd.andTable, bdd.orTable
    ensures fresh(converter) && converter.bdd == bdd && converter.graph == graph && converter.Valid()
    ensures converter.gates == map[] && multiset(converter.t.log) == multiset(graph.gates.Keys)
    ensures root.vertex in bdd.live
    ensures Built(graph, complement, bdd.modules, root, bdd.indexToOrder, hi)
  {
    converter := new Converter(bdd, graph);
    assert Conversion.Reached(graph, converter.t, graph.root, {});
    root := converter.ConvertGraph(graph.root, {}, {});
    AllConverted(graph, converter.t, converter.gates);
    ghost var result := root;
    root := Function(root.complement != complement, root.vertex);
    hi := OrderBound(graph.layout, graph.layout.Keys);
    BuiltFromKnown(graph, complement, converter.t, converter.gates, bdd.modules, bdd.indexToOrder, bdd.live, bdd.born,
                   bdd.functionId, result, hi);
  }

  /** The BDD of a graph that is a single variable or constant, with its sign. */
  method BuildTrivialBdd(bdd: Bdd, child: int, constant: bool, order: int, coherent: bool) returns (root: Function)
    requires bdd.Valid() && One in bdd.live && child != 0
    requires !constant ==> Abs(child) in bdd.layout && bdd.layout[Abs(child)].(lo := 0, owner := 0) == Item(order, 0, false, coherent, 0)
    modifies bdd, bdd.uniqueTable
    ensures constant ==> forall a: Assignment :: EvalF(root, a) <==> child > 0
    ensures !constant ==> forall a: Assignment :: EvalF(root, a) <==> (Abs(child) in a) == (child > 0)
    ensures !constant ==> Abs(child) in bdd.indexToOrder && bdd.indexToOrder[Abs(child)] == order
    ensures bdd.Valid() && root.vertex in bdd.live
  {
    if constant {
      root := Function(child < 0, One);
    } else {
      var index := Abs(child);
      var v := bdd.FindOrAddVertex(index, order, false, coherent, One, One, true);
      root := Function(child < 0, v);
      forall a: Assignment
        ensures EvalF(root, a) <==> (index in a) == (child > 0)
      {
        assert Eval(One, a);
        assert Eval(v, a) == (index in a);
      }
      bdd.indexToOrder := bdd.indexToOrder[index := order];
    }
  }

  lemma BuiltFromKnown(graph: Pdag, complement: bool, t: Traversal, memo: Memo, modules: Modules, indexToOrder: map<int, int>,
                       live: set<Vertex>, born: Births, functionId: nat, result: Function, hi: int)
    requires Consistent(graph.layout, live, born, functionId, modules) && result.vertex in live
    requires Known(graph, t, memo, modules, indexToOrder, live) && t.complete == graph.gates.Keys
    requires Represents(graph, result, graph.root)
    requires forall i <- graph.layout :: graph.layout[i].order <= hi
    ensures Built(graph, complement, modules, Function(result.complement != complement, result.vertex), indexToOrder, hi)
  {
    hide *;
    RootPlaced(graph);
    BuiltStructure(graph, live, born, functionId, modules, result, hi);
    BuiltFunction(graph, complement, t, memo, modules, indexToOrder, live, born, functionId, result);
    BuiltOrders(graph, complement, t, memo, modules, indexToOrder, live, result, hi);
  }

  lemma BuiltStructure(graph: Pdag, live: set<Vertex>, born: Births, functionId: nat, modules: Modules, result: Function, hi: int)
    requires Consistent(graph.layout, live, born, functionId, modules) && result.vertex in live
    requires Represents(graph, result, graph.root)
    requires forall i <- graph.layout :: graph.layout[i].order <= hi
    ensures Grounded(modules, Variables(graph.layout), result.vertex)
    ensures Frozen(modules, Variables(graph.layout), Reach(modules, Variables(graph.layout), result.vertex))
    ensures Laid(graph.layout, modules, Variables(graph.layout), result.vertex, 0, hi)
  {
    hide WellLaid, RawPdag.WellBuilt, RawPdag.Proxied;
    var layout, v := graph.layout, result.vertex;
    RootPlaced(graph);
    FrozenLive(layout, live, born, functionId, modules, v);
    assert WellFormed(layout, v);
    BlocksPositive(layout, v);
    LaidLive(layout, live, born, functionId, modules, v, graph.scope[graph.root], 0, hi);
  }

  lemma BuiltFunction(graph: Pdag, complement: bool, t: Traversal, memo: Memo, modules: Modules, indexToOrder: map<int, int>,
                      live: set<Vertex>, born: Births, functionId: nat, result: Function)
    requires Consistent(graph.layout, live, born, functionId, modules) && result.vertex in live
    requires Known(graph, t, memo, modules, indexToOrder, live) && Represents(graph, result, graph.root)
    requires Grounded(modules, Variables(graph.layout), result.vertex)
    ensures IsFunctionOf(graph, complement, modules, Function(result.complement != complement, result.vertex))
  {
    hide WellLaid, RawPdag.WellBuilt, RawPdag.Proxied, Known;
    RootPlaced(graph);
    assert forall u <- live :: WellFormed(graph.layout, u);
    assert forall m <- modules :: modules[m].vertex in live;
    hide WellFormed, Consistent;
    forall a: Assignment
      ensures Expand(modules, Variables(graph.layout), result.vertex, a) == Eval(result.vertex, graph.Proxied(a))
    {
      ExpandProxied(graph, t, memo, modules, indexToOrder, live, result.vertex, a);
    }
  }

  lemma BuiltOrders(graph: Pdag, complement: bool, t: Traversal, memo: Memo, modules: Modules, indexToOrder: map<int, int>,
                    live: set<Vertex>, result: Function, hi: int)
    requires Known(graph, t, memo, modules, indexToOrder, live) && t.complete == graph.gates.Keys
    requires Grounded(modules, Variables(graph.layout), result.vertex)
    requires Frozen(modules, Variables(graph.layout), Reach(modules, Variables(graph.layout), result.vertex))
    requires Laid(graph.layout, modules, Variables(graph.layout), result.vertex, 0, hi)
    requires graph.root in graph.gates
    requires IsFunctionOf(graph, complement, modules, Function(result.complement != complement, result.vertex))
    ensures Built(graph, complement, modules, Function(result.complement != complement, result.vertex), indexToOrder, hi)
  {
    hide WellLaid, RawPdag.WellBuilt, Grounded, Frozen, Laid, Represents, Expand, RawPdag.Value, Reach;
  }

  lemma RootPlaced(graph: Pdag)
    ensures graph.root in graph.gates && graph.root in graph.scope
  {
  }

  lemma BlocksPositive(layout: Layout, v: Vertex)
    requires WellFormed(layout, v)
    ensures v.Ite? ==> 0 <= layout[v.index].lo
  {
  }

  /** The truth value of the graph as a number. */
  ghost function GraphIndicator(graph: Pdag, complement: bool): Assignment -> real {
    (a: Assignment) => if graph.Value(graph.root, a) != complement then 1.0 else 0.0
  }

  /** End to end: the probability computed on the vertices of the constructed BDD is the sum
      over all assignments to the variables of weight times the truth value of the graph. */
  lemma ProbabilityOfGraph(graph: Pdag, complement: bool, modules: Modules, root: Function, indexToOrder: map<int, int>, hi: int,
                           p: Probabilities, vars: seq<int>, a: Assignment)
    requires Built(graph, complement, modules, root, indexToOrder, hi)
    requires p.Keys == Variables(graph.layout) && Covered(vars, p) && forall x <- p :: x in vars
    ensures ProbF(modules, p, root) == WeightedSum(vars, p, GraphIndicator(graph, complement), a, 1.0)
    ensures InUnit(p) ==> 0.0 <= ProbF(modules, p, root) <= 1.0
  {
    hide WellLaid, RawPdag.WellBuilt, Mix;
    ExactProbability(graph.layout, modules, p, root, 0, hi, vars, a);
    SameExpectation(vars, p, Indicator(modules, p.Keys, root), GraphIndicator(graph, complement), a);
    SumIsExpectation(vars, p, GraphIndicator(graph, complement), a, 1.0);
    if InUnit(p) {
      ProbBounds(modules, p, root.vertex);
    }
  }
}
