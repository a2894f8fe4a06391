/** Normalised propositional graphs: AND/OR gates with signed arguments, shared gates and
    modules, and an order for every variable and module. */
module Graphs {
  import opened Vertices
  import opened Indices

  datatype Connective = And | Or

  ghost predicate Connect(op: Connective, x: bool, y: bool) {
    match op
    case And => x && y
    case Or => x || y
  }

  ghost predicate Combine(op: Connective, values: seq<bool>) {
    match op
    case And => forall i | 0 <= i < |values| :: values[i]
    case Or => exists i | 0 <= i < |values| :: values[i]
  }

  /** The arguments are signed indices; a negative sign means a complement. */
  datatype Gate = Gate(op: Connective, isModule: bool, variables: seq<int>, gates: seq<int>)

  /** A graph with its layout. `rank` witnesses that it is acyclic; `scope` names the module
      to which the arguments of a gate belong. */
  datatype RawPdag = RawPdag(layout: Layout, gates: map<int, Gate>, rank: map<int, nat>, scope: map<int, int>, root: int)
  {
    ghost predicate Acyclic() {
      forall g <- gates ::
        && g in rank
        && forall h <- gates[g].gates :: Abs(h) in gates && Abs(h) in rank && rank[Abs(h)] < rank[g]
    }

    ghost predicate VariablesPlaced(g: int)
      requires g in gates && g in scope
    {
      forall v <- gates[g].variables ::
        && Abs(v) in layout
        && !layout[Abs(v)].isModule
        && layout[Abs(v)].owner == scope[g]
    }

    ghost predicate GatesPlaced(g: int)
      requires g in gates && g in scope && Acyclic()
    {
      forall h <- gates[g].gates ::
        && Abs(h) in scope
        && if gates[Abs(h)].isModule
           then Abs(h) in layout && layout[Abs(h)].owner == scope[g]
           else scope[Abs(h)] == scope[g]
    }

    ghost predicate DistinctGates(g: int)
      requires g in gates
    {
      forall i, j | 0 <= i < j < |gates[g].gates| :: Abs(gates[g].gates[i]) != Abs(gates[g].gates[j])
    }

    ghost predicate WellBuilt() {
      && Acyclic()
      && root in gates
      && (forall g <- gates ::
            && g > 0
            && g in scope
            && |gates[g].variables| + |gates[g].gates| > 0
            && VariablesPlaced(g)
            && GatesPlaced(g)
            && DistinctGates(g)
            && (gates[g].isModule ==> g in layout && layout[g].isModule && scope[g] == g))
      && (forall m <- layout :: layout[m].isModule ==> m in gates && gates[m].isModule)
      && (forall g <- gates :: Parents(g) == {} <==> g == root)
    }

    predicate IsArgument(h: int, g: int) {
      h in gates && exists i :: 0 <= i < |gates[h].gates| && Abs(gates[h].gates[i]) == g
    }

    function Parents(g: int): set<int> {
      set h | h in gates && IsArgument(h, g)
    }

    /** The Boolean function of a gate. */
    ghost predicate Value(g: int, a: Assignment)
      requires Acyclic() && g in gates
      decreases rank[g], 1
    {
      Combine(gates[g].op, VariableValues(g, a) + GateValues(g, a))
    }

    ghost function VariableValues(g: int, a: Assignment): (r: seq<bool>)
      requires g in gates
      ensures |r| == |gates[g].variables|
      ensures forall i | 0 <= i < |r| :: r[i] == ((Abs(gates[g].variables[i]) in a) == (gates[g].variables[i] >= 0))
    {
      var variables := gates[g].variables;
      seq(|variables|, i requires 0 <= i < |variables| => (Abs(variables[i]) in a) == (variables[i] >= 0))
    }

    ghost function GateValues(g: int, a: Assignment): (r: seq<bool>)
      requires Acyclic() && g in gates
      ensures |r| == |gates[g].gates|
      ensures forall i | 0 <= i < |r| :: r[i] == (Value(Abs(gates[g].gates[i]), a) == (gates[g].gates[i] >= 0))
      decreases rank[g], 0
    {
      var arguments := gates[g].gates;
      seq(|arguments|, i requires 0 <= i < |arguments| => Value(Abs(arguments[i]), a) == (arguments[i] >= 0))
    }

    /** The assignment extended to module proxies: a proxy has the value of its gate. */
    ghost function Proxied(a: Assignment): Assignment
      requires WellBuilt()
    {
      iset i | i in layout && if layout[i].isModule then Value(i, a) else i in a
    }
  }

  /** One AND gate over one variable. */
  ghost function SmallGraph(): RawPdag {
    RawPdag(map[2 := Item(1, 1, false, false, 0)], map[1 := Gate(And, false, [2], [])], map[1 := 0], map[1 := 0], 1)
  }

  lemma SmallGraphIsBuilt()
    ensures SmallGraph().WellBuilt()
  {
    var graph := SmallGraph();
    assert graph.Parents(1) == {};
    assert graph.gates[1].variables == [2];
  }

  type Pdag = graph: RawPdag | graph.WellBuilt()
    ghost witness (SmallGraphIsBuilt(); SmallGraph())
}
