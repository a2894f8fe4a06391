/** Taking over the arguments of an argument gate of the same logic. */
module Coalescing {
  import opened Indices
  import opened Sets
  import opened Connectives
  import opened Links
  import opened Laws

  lemma NoConstantBeside(gates: Gates, parents: Parents, variables: set<int>, nodeIndex: int, rank: Rank, g: int, index: int)
    requires Sound(gates, parents, variables, nodeIndex, rank) && g in gates && index in gates[g].args && Abs(index) != 1
    ensures !gates[g].constant && index != 0 && -index !in gates[g].args
  {
    assert gates[g].Tidy();
    assert !Conflicts(gates[g].args, index);
  }

  /** The gate after the arguments in `done` have been added. */
  ghost predicate CoalescedTo(gate: Gate, done: set<int>, current: Gate) {
    && current.kind == gate.kind && current.minNumber == gate.minNumber && !current.constant
    && current.args == gate.args + done
  }

  lemma CoalesceReady(gates: Gates, parents: Parents, variables: set<int>, nodeIndex: int, rank: Rank, g: int, h: int)
    requires Sound(gates, parents, variables, nodeIndex, rank) && g in gates && h in gates && h in gates[g].args
    requires gates[g].Complete() && Coalesces(gates[g].kind, gates[h].kind)
    ensures g != h && h > 1 && h !in gates[h].args && !gates[g].constant && |gates[g].args| >= 2
    ensures gates[g].Tidy() && gates[h].Tidy() && CoalescedTo(gates[g], {}, gates[g]) && !gates[h].constant
    ensures forall i <- gates[h].args ::
              && i != 0 && Abs(i) > 1 && Abs(i) in parents && Abs(i) != g
              && (Abs(i) in gates ==> Abs(i) in rank && g in rank && rank[Abs(i)] < rank[g])
  {
    ArgumentNodes(gates, parents, variables, nodeIndex, rank, g);
    ArgumentNodes(gates, parents, variables, nodeIndex, rank, h);
    assert gates[g].args + {} == gates[g].args;
    assert rank[h] < rank[g];
    forall i <- gates[h].args
      ensures Abs(i) > 1
    {
      assert Abs(i) in parents;
    }
  }

  lemma SameNodes(before: Gates, parents: Parents, gates: Gates, parents': Parents, variables: set<int>, last: int, last': int, rank: Rank)
    requires Sound(before, parents, variables, last, rank) && Sound(gates, parents', variables, last', rank) && gates.Keys == before.Keys
    ensures parents'.Keys == parents.Keys
  {
  }

  lemma CoalesceAdd(current: Gate, gate: Gate, other: Gate, done: set<int>, i: int, toGate: bool, rule: PairRule)
    requires CoalescedTo(gate, done, current) && current.Tidy() && other.Tidy()
    requires Coalesces(gate.kind, other.kind) && |gate.args| >= 2 && done <= other.args && i in other.args && Abs(i) > 1
    ensures current.Accepts(i) && !Splits(current, i)
    ensures var next := Insert(current, i, toGate, rule);
            if next.constant then -i in gate.args && next == Constant(gate, gate.kind in {Nand, Or})
            else CoalescedTo(gate, done + {i}, next)
  {
    assert !Conflicts(other.args, i);
    Subset(gate.args, current.args);
    assert gate.args + (done + {i}) == current.args + {i};
  }

  lemma CoalescedConstant(gate: Gate, other: Gate, h: int, i: int, next: Gate)
    requires Coalesces(gate.kind, other.kind) && h > 0 && h in gate.args && i in other.args && -i in gate.args && i != 0
    requires next == Constant(gate, gate.kind in {Nand, Or})
    ensures next.Complete()
    ensures forall w: Valuation | 1 in w && (h in w <==> Holds(other, w)) :: Holds(next, w) <==> Holds(gate, w)
  {
    hide Holds;
    forall w: Valuation | 1 in w && (h in w <==> Holds(other, w))
      ensures Holds(next, w) <==> Holds(gate, w)
    {
      CoalesceConflict(gate, other, h, i, w);
    }
  }

  lemma CoalescedAll(gate: Gate, other: Gate, current: Gate, h: int)
    requires CoalescedTo(gate, other.args, current) && Coalesces(gate.kind, other.kind) && other.Complete()
    requires h > 0 && h in gate.args && h !in other.args
    ensures h in current.args && current.Without(h).Complete()
    ensures forall w: Valuation | 1 in w && (h in w <==> Holds(other, w)) :: Holds(current.Without(h), w) <==> Holds(gate, w)
  {
    hide Holds;
    Subset(other.args, current.args - {h});
    forall w: Valuation | 1 in w && (h in w <==> Holds(other, w))
      ensures Holds(current.Without(h), w) <==> Holds(gate, w)
    {
      CoalesceLaw(gate, other, current.Without(h), h, w);
    }
  }

  /** The connectives whose gates are to become complement arguments. */
  predicate NonCoherent(kind: Connective) {
    kind in {Nor, Nand, Not}
  }

  /** The nodes of some arguments whose gates are not coherent. */
  ghost function NonCoherentNodes(gates: Gates, args: set<int>): set<int> {
    set i <- args | Abs(i) in gates && NonCoherent(gates[Abs(i)].kind) :: Abs(i)
  }

  lemma FlippedNone(gate: Gate)
    ensures gate.Flipped({}) == gate
  {
    FlipNone(gate.args);
    FlipNone(gate.gateArgs);
    FlipNone(gate.variableArgs);
  }

  lemma FlipNone(args: set<int>)
    ensures FlipAll(args, {}) == args
  {
    forall i: int
      ensures i in FlipAll(args, {}) <==> i in args
    {
      assert Flip(i, {}) == i;
    }
    SameSet(FlipAll(args, {}), args);
  }

  /** Flipping one more gate argument. */
  lemma FlippedNext(gate: Gate, flip: set<int>, i: int)
    requires !gate.constant && i in gate.gateArgs && i in gate.args && i != 0 && -i !in gate.args && -i !in gate.gateArgs
    requires Abs(i) !in flip && forall j <- gate.variableArgs :: Abs(j) != Abs(i)
    ensures i in gate.Flipped(flip).args && -i !in gate.Flipped(flip).args
    ensures gate.Flipped(flip).Without(i).With(-i, true) == gate.Flipped(flip + {Abs(i)})
  {
    hide FlipAll;
    FlippedSet(gate.args, flip, i);
    FlippedSet(gate.gateArgs, flip, i);
    FlippedOther(gate.variableArgs, flip, i);
    assert FlipAll(gate.variableArgs, flip) - {i} == FlipAll(gate.variableArgs, flip);
  }

  lemma FlippedSet(args: set<int>, flip: set<int>, i: int)
    requires i in args && -i !in args && i != 0 && Abs(i) !in flip
    ensures i in FlipAll(args, flip) && -i !in FlipAll(args, flip)
    ensures FlipAll(args, flip) - {i} + {-i} == FlipAll(args, flip + {Abs(i)})
  {
    assert Flip(i, flip) == i && Flip(-i, flip) == -i;
    forall k
      ensures k in FlipAll(args, flip) - {i} + {-i} <==> k in FlipAll(args, flip + {Abs(i)})
    {
      assert k in FlipAll(args, flip) <==> Flip(k, flip) in args;
      assert k in FlipAll(args, flip + {Abs(i)}) <==> Flip(k, flip + {Abs(i)}) in args;
      assert Abs(k) != Abs(i) ==> Flip(k, flip + {Abs(i)}) == Flip(k, flip);
    }
    SameSet(FlipAll(args, flip) - {i} + {-i}, FlipAll(args, flip + {Abs(i)}));
  }

  lemma FlippedOther(args: set<int>, flip: set<int>, i: int)
    requires forall j <- args :: Abs(j) != Abs(i)
    ensures FlipAll(args, flip) == FlipAll(args, flip + {Abs(i)})
    ensures i !in FlipAll(args, flip)
  {
    forall k
      ensures k in FlipAll(args, flip) <==> k in FlipAll(args, flip + {Abs(i)})
    {
      assert Abs(Flip(k, flip)) == Abs(k) == Abs(Flip(k, flip + {Abs(i)}));
    }
    assert Abs(Flip(i, flip)) == Abs(i);
    SameSet(FlipAll(args, flip), FlipAll(args, flip + {Abs(i)}));
  }

  /** The nodes of the arguments have the same values, but for those that are complemented. */
  ghost predicate Exchanged(args: set<int>, flip: set<int>, w: Valuation, w': Valuation) {
    forall i <- args :: Abs(i) in w' <==> (Abs(i) in w) != (Abs(i) in flip)
  }

  /** If the flipped nodes get the complements of their values, the gate keeps its value. */
  lemma FlippedLaw(gate: Gate, flip: set<int>, w: Valuation, w': Valuation)
    requires 0 !in gate.args && Exchanged(gate.args, flip, w, w')
    ensures Holds(gate.Flipped(flip), w') <==> Holds(gate, w)
  {
    FlippedTrues(gate.args, FlipAll(gate.args, flip), flip, w, w');
  }

  /** The argument has the other sign exactly if its gate is a NOT, NAND or NOR gate. */
  ghost predicate SignFollows(gates: Gates, args: set<int>, i: int) {
    && Abs(i) in gates
    && (if gates[Abs(i)].kind in {Not, Nand, Nor} then -i in args && i !in args else i in args && -i !in args)
  }

  lemma FlippedSigns(gates: Gates, gate: Gate, i: int)
    requires i in gate.gateArgs && i in gate.args && -i !in gate.args && i != 0 && Abs(i) in gates
    ensures SignFollows(gates, gate.Flipped(NonCoherentNodes(gates, gate.gateArgs)).args, i)
  {
    var flip := NonCoherentNodes(gates, gate.gateArgs);
    assert Abs(-i) == Abs(i);
    assert Abs(i) in flip <==> NonCoherent(gates[Abs(i)].kind);
    assert i in FlipAll(gate.args, flip) <==> Flip(i, flip) in gate.args;
    assert -i in FlipAll(gate.args, flip) <==> Flip(-i, flip) in gate.args;
  }

  lemma GateArguments(gates: Gates, parents: Parents, variables: set<int>, nodeIndex: int, rank: Rank, g: int)
    requires Sound(gates, parents, variables, nodeIndex, rank) && g in gates
    ensures gates[g].Tidy() && g in gates && gates[g].gateArgs <= gates[g].args
    ensures forall i <- gates[g].gateArgs :: Abs(i) in gates && Abs(i) != g && Abs(i) > 1 && i != 0
    ensures forall i <- gates[g].gateArgs :: i in gates[g].args && !Conflicts(gates[g].args, i) && !Conflicts(gates[g].gateArgs, i)
    ensures forall i <- gates[g].gateArgs, j <- gates[g].variableArgs :: Abs(j) != Abs(i)
  {
    ArgumentNodes(gates, parents, variables, nodeIndex, rank, g);
    forall i <- gates[g].gateArgs
      ensures Abs(i) in gates && Abs(i) != g && Abs(i) > 1 && i in gates[g].args && i != 0
      ensures !Conflicts(gates[g].args, i) && !Conflicts(gates[g].gateArgs, i)
    {
      assert Abs(i) in parents;
      assert gates[g].gateArgs <= gates[g].args;
    }
  }

  lemma NoNodes(gates: Gates, gate: Gate, rest: set<int>)
    requires rest == gate.gateArgs
    ensures NonCoherentNodes(gates, gate.gateArgs - rest) == {}
  {
    assert gate.gateArgs - rest == {};
  }

  /** The nodes to flip with one more argument. */
  lemma NodesNext(gates: Gates, gate: Gate, rest: set<int>, i: int)
    requires gate.Tidy() && !gate.constant && rest <= gate.gateArgs && i in rest && Abs(i) in gates
    ensures NonCoherentNodes(gates, gate.gateArgs - (rest - {i}))
         == NonCoherentNodes(gates, gate.gateArgs - rest) + if NonCoherent(gates[Abs(i)].kind) then {Abs(i)} else {}
    ensures Abs(i) !in NonCoherentNodes(gates, gate.gateArgs - rest)
  {
    assert !Conflicts(gate.args, i);
    assert gate.gateArgs - (rest - {i}) == gate.gateArgs - rest + {i};
  }
}
