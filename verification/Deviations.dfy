/** What the removal of pass-through gates does where it drops the wrong argument of a K/N
    gate. */
module Deviations {
  import opened Indices
  import opened Sets
  import opened Connectives
  import opened Links
  import opened Values
  import opened Joining
  import opened Progress

  /** The other argument of the K/N gate is all that is left of it. */
  lemma DeviatingJoin(gates: Gates, after: Gates, p: int, index: int, c: int, last: int) returns (other: int)
    requires Joined(gates, after, p, index, c, last, AsWritten) && Deviation(gates, p, index, c, AsWritten)
    ensures other != index && other != Carried(index, c) && index != Carried(index, c)
    ensures gates[p].args == {index, Carried(index, c), other} && gates[p].kind.Atleast? && gates[p].minNumber == 2
    ensures p in after && after == gates[p := after[p]] && after[p].kind.Null? && after[p].args == {other}
  {
    var j := Carried(index, c);
    var erased := gates[p].Without(index);
    assert gates[p].Complete();
    assert |gates[p].args - {index}| == |gates[p].args| - 1;
    assert !Conflicts(gates[p].args, index) && j != 1 && j != -1;
    var rest := erased.args - {j};
    assert |rest| == 1;
    other := Some(rest);
    Subset({other}, rest);
    assert rest == {other};
    assert gates[p].args == rest + {j} + {index};
    JoinedPair(gates, after, p, index, c, last);
    assert erased.args - {j} == {other};
  }

  lemma JoinedPair(gates: Gates, after: Gates, p: int, index: int, c: int, last: int)
    requires Joined(gates, after, p, index, c, last, AsWritten) && Deviation(gates, p, index, c, AsWritten)
    requires Abs(Carried(index, c)) != 1
    ensures after == gates[p := gates[p].Without(index).Without(Carried(index, c)).(kind := Null)]
  {
  }

  /** The K/N gate had the value of the argument that the pass-through gate had, twice. */
  lemma PairMeaning(gate: Gate, index: int, j: int, other: int, w: Valuation)
    requires gate.kind.Atleast? && gate.minNumber == 2 && gate.args == {index, j, other}
    requires index != j && index != other && j != other && (Literal(index, w) <==> Literal(j, w))
    ensures Holds(gate, w) <==> Literal(j, w)
  {
    TruesOfTwo(index, j, w);
    assert {index, j} + {other} == gate.args;
    TruesGrow({index, j}, other, w);
  }

  /** The ranks make no difference to the functions. */
  lemma SameFunctions(gates: Gates, rank: Rank, rank': Rank, leaves: set<int>)
    requires Acyclic(gates, rank) && Acyclic(gates, rank') && Grounded(gates, leaves) && forall n <- leaves :: n !in gates
    ensures SameValues(gates, rank, gates, rank')
  {
    hide Holds;
    forall a: Valuation, g <- gates
      ensures g in Model(gates, rank', a) <==> Holds(gates[g], Model(gates, rank', a))
    {
      ModelHolds(gates, rank', a, g);
    }
    KeepsValues(gates, rank, gates, rank', leaves);
  }

  /** Changing a gate leaves the functions of the gates below it as they are. */
  lemma SameBelow(gates: Gates, rank: Rank, after: Gates, rank': Rank, p: int, leaves: set<int>, h: int, a: Valuation)
    requires Acyclic(gates, rank) && Acyclic(after, rank') && Grounded(gates, leaves) && forall n <- leaves :: n !in gates
    requires p in gates && p in after && after == gates[p := after[p]] && h in gates && rank[h] < rank[p]
    ensures Value(gates, rank, h, a) <==> Value(after, rank', h, a)
  {
    var lower := map g | g in gates && rank[g] < rank[p] :: gates[g];
    assert after.Keys == gates.Keys;
    RemovalKeepsValues(gates, rank, lower, leaves);
    RemovalKeepsValues(after, rank', lower, leaves);
    SameFunctions(lower, rank, rank', leaves);
  }

  lemma SameLiteral(gates: Gates, rank: Rank, after: Gates, rank': Rank, p: int, leaves: set<int>, i: int, a: Valuation)
    requires Acyclic(gates, rank) && Acyclic(after, rank') && Grounded(gates, leaves) && forall n <- leaves :: n !in gates
    requires p in gates && p in after && after == gates[p := after[p]] && (Abs(i) in gates ==> rank[Abs(i)] < rank[p])
    ensures Literal(i, Model(gates, rank, a)) <==> Literal(i, Model(after, rank', a))
  {
    assert after.Keys == gates.Keys;
    if Abs(i) in gates {
      SameBelow(gates, rank, after, rank', p, leaves, Abs(i), a);
    }
  }

  /** The values of the K/N gate before and after the join. */
  lemma DeviatingValues(gates: Gates, rank: Rank, after: Gates, rank': Rank, p: int, index: int, c: int, other: int, leaves: set<int>, a: Valuation)
    requires Acyclic(gates, rank) && Acyclic(after, rank') && Grounded(gates, leaves) && forall n <- leaves :: n !in gates
    requires p in gates && p in after && after == gates[p := after[p]] && Abs(index) in gates && Abs(index) != p && c != 0 && index != 0
    requires gates[Abs(index)].kind.Null? && gates[Abs(index)].args == {c}
    requires gates[p].args == {index, Carried(index, c), other} && gates[p].kind.Atleast? && gates[p].minNumber == 2
    requires index != other && Carried(index, c) != other && index != Carried(index, c)
    requires after[p].kind.Null? && after[p].args == {other}
    ensures Value(gates, rank, p, a) <==> Literal(Carried(index, c), Model(gates, rank, a))
    ensures Value(after, rank', p, a) <==> Literal(other, Model(gates, rank, a))
    ensures Holds(gates[p], Model(after, rank', a)) <==> Literal(Carried(index, c), Model(gates, rank, a))
  {
    var j := Carried(index, c);
    assert j in gates[p].args && other in gates[p].args && index in gates[p].args;
    var w, w' := Model(gates, rank, a), Model(after, rank', a);
    ModelHolds(gates, rank, a, p);
    ModelHolds(gates, rank, a, Abs(index));
    ModelHolds(after, rank', a, p);
    ModelHolds(after, rank', a, Abs(index));
    PassesThrough(gates[Abs(index)], index, c, w);
    PassesThrough(gates[Abs(index)], index, c, w');
    PairMeaning(gates[p], index, j, other, w);
    PairMeaning(gates[p], index, j, other, w');
    TruesOfOne(other, w');
    SameLiteral(gates, rank, after, rank', p, leaves, j, a);
    SameLiteral(gates, rank, after, rank', p, leaves, other, a);
  }

  /** A step that goes wrong keeps the functions exactly if the two arguments of the K/N gate
      have the same function. */
  lemma DeviationExactly(gates: Gates, rank: Rank, after: Gates, rank': Rank, p: int, index: int, c: int, other: int, last: int, leaves: set<int>)
    requires Joined(gates, after, p, index, c, last, AsWritten) && Deviation(gates, p, index, c, AsWritten) && last > 0
    requires Acyclic(gates, rank) && Acyclic(after, rank') && Grounded(gates, leaves) && forall n <- leaves :: n !in gates
    requires other in gates[p].args && other != index && other != Carried(index, c)
    ensures SameValues(gates, rank, after, rank')
       <==> forall a: Valuation :: Literal(Carried(index, c), Model(gates, rank, a)) <==> Literal(other, Model(gates, rank, a))
  {
    var j := Carried(index, c);
    var rest := DeviatingJoin(gates, after, p, index, c, last);
    assert other == rest && after.Keys == gates.Keys;
    Joinables(gates, p, index, c, last);
    hide Joined, Deviation, Holds, Literal;
    forall a: Valuation
      ensures Value(gates, rank, p, a) <==> Literal(j, Model(gates, rank, a))
      ensures Value(after, rank', p, a) <==> Literal(other, Model(gates, rank, a))
      ensures Holds(gates[p], Model(after, rank', a)) <==> Literal(j, Model(gates, rank, a))
    {
      DeviatingValues(gates, rank, after, rank', p, index, c, other, leaves, a);
    }
    if forall a: Valuation :: Literal(j, Model(gates, rank, a)) <==> Literal(other, Model(gates, rank, a)) {
      forall a: Valuation, g <- gates
        ensures g in Model(after, rank', a) <==> Holds(gates[g], Model(after, rank', a))
      {
        ModelHolds(after, rank', a, g);
      }
      KeepsValues(gates, rank, after, rank', leaves);
    }
  }

  lemma Joinables(gates: Gates, p: int, index: int, c: int, last: int)
    requires Joinable(gates, p, index, c, last)
    ensures p in gates && Abs(index) in gates && Abs(index) != p && c != 0 && index != 0
    ensures gates[Abs(index)].kind.Null? && gates[Abs(index)].args == {c}
  {
  }

  /** A step keeps the functions of all gates exactly if it is none that goes wrong, or one
      between arguments with the same function. */
  lemma StepExactly(gates: Gates, rank: Rank, after: Gates, rank': Rank, p: int, index: int, c: int, last: int, leaves: set<int>)
    requires Joined(gates, after, p, index, c, last, AsWritten) && last > 0
    requires Acyclic(gates, rank) && Acyclic(after, rank') && Grounded(gates, leaves) && forall n <- leaves :: n !in gates
    requires 1 in leaves && forall n <- leaves :: n !in after
    ensures SameValues(gates, rank, after, rank')
       <==> !Deviation(gates, p, index, c, AsWritten)
            || exists other <- gates[p].args ::
                 && other != index && other != Carried(index, c)
                 && forall a: Valuation :: Literal(Carried(index, c), Model(gates, rank, a)) <==> Literal(other, Model(gates, rank, a))
  {
    hide Joined, Deviation, Literal;
    JoinArgument(gates, after, p, index, c, last, AsWritten);
    if Deviation(gates, p, index, c, AsWritten) {
      var other := DeviatingJoin(gates, after, p, index, c, last);
      assert other in gates[p].args;
      DeviationExactly(gates, rank, after, rank', p, index, c, other, last, leaves);
    } else {
      JoinKeepsValues(gates, rank, after, rank', p, index, c, last, leaves, AsWritten);
    }
  }

  /** Variables 2 and 3, gate 4 that passes variable 2 through, and gate 5 as the root, which
      is 2/3 over all of them. */
  function PairGates(): Gates {
    map[4 := Gate(Null, 0, {2}, {}, {2}, false), 5 := Gate(Atleast, 2, {2, 3, 4}, {4}, {2, 3}, false)]
  }

  function PairParents(): Parents {
    map[1 := {}, 2 := {4, 5}, 3 := {5}, 4 := {5}, 5 := {}]
  }

  /** What the code makes of it: the root passes variable 3 through. */
  function PairJoined(): Gates {
    PairGates()[5 := Gate(Null, 2, {3}, {}, {3}, false)]
  }

  function PairRank(): Rank {
    map[4 := 0, 5 := 1]
  }

  lemma PairFacts()
    ensures var gates := PairGates();
            && gates.Keys == {4, 5}
            && gates[4].kind.Null? && gates[4].args == gates[4].variableArgs == {2} && gates[4].gateArgs == {} && !gates[4].constant
            && gates[5].kind.Atleast? && gates[5].minNumber == 2 && !gates[5].constant
            && gates[5].args == {2, 3, 4} && gates[5].gateArgs == {4} && gates[5].variableArgs == {2, 3}
    ensures |{2}| == 1 && |{2, 3}| == 2 && |{2, 3, 4}| == 3
  {
  }

  lemma PairLinks()
    ensures Linked(PairGates(), PairParents(), {2, 3}, 5)
  {
    var gates, parents := PairGates(), PairParents();
    PairFacts();
    hide PairGates, Gate.Tidy, Occurs;
    PairTidy();
    assert parents.Keys == {1} + {2, 3} + gates.Keys;
    forall n <- parents, g
      ensures g in parents[n] <==> g in gates && Occurs(gates[g].args, n)
    {
      PairOccurs(n, g);
    }
  }

  lemma PairTidy()
    ensures 4 in PairGates() && 5 in PairGates() && PairGates()[4].Tidy() && PairGates()[5].Tidy()
  {
    PairFacts();
    var gates := PairGates();
    hide PairGates;
    assert {4} + {2, 3} == {2, 3, 4};
    forall i <- gates[5].args
      ensures !Conflicts(gates[5].args, i)
    {
    }
    forall i <- gates[4].args
      ensures !Conflicts(gates[4].args, i)
    {
    }
  }

  lemma PairOccurs(n: int, g: int)
    requires n in PairParents()
    ensures g in PairParents()[n] <==> g in PairGates() && Occurs(PairGates()[g].args, n)
  {
    PairFacts();
    hide PairGates;
  }

  lemma PairSound()
    ensures Sound(PairGates(), PairParents(), {2, 3}, 5, PairRank()) && AllComplete(PairGates())
    ensures forall g <- PairGates() :: g == 5 <==> Orphan(PairParents(), g)
    ensures Registered(PairGates(), [4], 5)
  {
    PairLinks();
    PairFacts();
    hide PairGates, Linked;
  }

  lemma PairJoins()
    ensures Joined(PairGates(), PairJoined(), 5, 4, 2, 5, AsWritten) && Deviation(PairGates(), 5, 4, 2, AsWritten)
    ensures Joinable(PairGates(), 5, 4, 2, 5)
  {
    PairJoinable();
    PairFacts();
    var gates := PairGates();
    hide PairGates, Joinable;
    var erased := gates[5].Without(4);
    assert erased.args == {2, 3} && erased.gateArgs == {} && erased.variableArgs == {2, 3};
    var left := erased.Without(2);
    assert left.args == {3} && left.gateArgs == {} && left.variableArgs == {3};
    var base := gates[5 := erased];
    assert !Splits(erased, 2);
    assert Insert(erased, 2, Abs(2) in base, AsWritten) == Gate(Null, 2, {3}, {}, {3}, false);
    assert base[5 := Gate(Null, 2, {3}, {}, {3}, false)] == PairJoined();
  }

  lemma PairJoinable()
    ensures Joinable(PairGates(), 5, 4, 2, 5)
  {
    PairSound();
    PairFacts();
    hide PairGates;
  }

  /** The pass-through gate below the K/N gate makes the removal change the function of the
      graph: with variable 2 alone true, the root was true, and it is false afterwards. */
  lemma PairChanges()
    ensures Joined(PairGates(), PairJoined(), 5, 4, 2, 5, AsWritten)
    ensures !SameValues(PairGates(), PairRank(), PairJoined(), PairRank())
    ensures Acyclic(PairGates(), PairRank()) && Value(PairGates(), PairRank(), 5, iset{2})
    ensures Acyclic(PairJoined(), PairRank()) && !Value(PairJoined(), PairRank(), 5, iset{2})
  {
    PairJoins();
    PairSound();
    PairFacts();
    var gates, rank, after, a := PairGates(), PairRank(), PairJoined(), iset{2};
    PairGrounded();
    hide PairGates, Joined, Deviation, Linked, PairJoined, Holds, Acyclic, AllComplete;
    DeviatingValues(gates, rank, after, rank, 5, 4, 2, 3, {2, 3}, a);
    assert 2 in Model(gates, rank, a) && 3 !in Model(gates, rank, a);
  }

  lemma PairGrounded()
    ensures Grounded(PairGates(), {2, 3}) && Acyclic(PairJoined(), PairRank())
    ensures 5 in PairGates() && 5 in PairJoined() && PairJoined() == PairGates()[5 := PairJoined()[5]]
    ensures PairJoined()[5].kind.Null? && PairJoined()[5].args == {3}
  {
    PairFacts();
    hide PairGates;
  }
}
