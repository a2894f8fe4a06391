/** One step of the removal of pass-through gates: a gate takes over the argument of a
    pass-through gate in place of that gate. */
module Joining {
  import opened Indices
  import opened Connectives
  import opened Links
  import opened Laws
  import opened Values
  import opened Measures

  ghost predicate AllComplete(gates: Gates) {
    forall g <- gates :: gates[g].Complete()
  }

  ghost predicate Bounded(gates: Gates, last: int) {
    forall g <- gates :: 1 < g <= last
  }

  /** The argument of the pass-through gate with the sign of the gate. */
  function Carried(index: int, c: int): int {
    if index > 0 then c else -c
  }

  /** Gate `p` has a pass-through gate with argument `c` as its argument `index`. */
  ghost predicate Joinable(gates: Gates, p: int, index: int, c: int, last: int) {
    && p in gates && Abs(index) in gates && Abs(index) != p
    && index in gates[p].args && gates[p].Tidy()
    && gates[Abs(index)].kind.Null? && gates[Abs(index)].args == {c} && c != 0 && Abs(c) <= last
    && AllComplete(gates) && Bounded(gates, last)
  }

  ghost predicate Joined(gates: Gates, after: Gates, p: int, index: int, c: int, last: int, rule: PairRule) {
    && Joinable(gates, p, index, c, last)
    && Added(gates[p := gates[p].Without(index)], after, p, Carried(index, c), last, rule)
  }

  /** The join drops the wrong argument. */
  predicate Deviation(gates: Gates, p: int, index: int, c: int, rule: PairRule) {
    p in gates && gates[p].Without(index).Deviates(Carried(index, c), rule)
  }

  lemma PartialAfterErase(gate: Gate, index: int, j: int)
    requires gate.Complete() && gate.Tidy() && index in gate.args && Abs(index) != 1 && j != 0
    ensures gate.Without(index).Partial() && gate.Without(index).Tidy() && gate.Without(index).Accepts(j)
    ensures |gate.Without(index).args| + 1 == |gate.args|
  {
    assert |gate.args - {index}| + 1 == |gate.args|;
  }

  /** A partial gate is complete after one more argument. */
  lemma InsertCompletes(gate: Gate, index: int, toGate: bool, rule: PairRule)
    requires gate.Partial() && gate.Accepts(index) && !Splits(gate, index)
    ensures Insert(gate, index, toGate, rule).Complete()
    ensures gate.kind.Null? ==> Insert(gate, index, toGate, rule).kind.Null?
    ensures Insert(gate, index, toGate, rule).kind.Atleast? ==> gate.kind.Atleast? && |Insert(gate, index, toGate, rule).args| <= |gate.args| + 1
    ensures Insert(gate, index, toGate, rule).args <= gate.args + {index, 1, -1}
  {
    if -index in gate.args {
      assert |gate.args - {-index}| + 1 == |gate.args|;
    }
    if index in gate.args {
      assert |gate.args - {index}| + 1 == |gate.args|;
    }
  }

  /** A complete gate that is no pass-through gate and has at most so many votes. */
  ghost predicate Proper(gate: Gate, limit: nat) {
    gate.Complete() && !gate.kind.Null? && Votes(gate) <= limit
  }

  lemma RestCompletes(gate: Gate, index: int, minNumber: int)
    requires index in gate.args && |gate.args| > 2 && 1 <= minNumber < |gate.args|
    ensures Proper(Rest(gate, index, minNumber), Power(|gate.args| - 1))
  {
    assert |gate.args - {index}| + 1 == |gate.args|;
  }

  lemma TwoComplete(gate: Gate, i: int, iToGate: bool, j: int, jToGate: bool)
    requires gate.args == {} && i != j && gate.kind in {And, Or}
    ensures Proper(gate.With(i, iToGate).With(j, jToGate), 0)
  {
    assert gate.With(i, iToGate).With(j, jToGate).args == {i, j};
    assert |{i, j}| == 2;
  }

  ghost predicate ProperParts(gate: Gate, after: Gates, g: int, last: int)
    requires g in after && last + 1 in after && |gate.args| > 0
  {
    && Proper(after[g], 0) && Proper(after[last + 1], Power(|gate.args| - 1))
    && (last + 2 in after <==> last + 3 in after)
    && (last + 2 in after ==> Proper(after[last + 2], 0) && Proper(after[last + 3], Power(|gate.args| - 1)))
  }

  /** So are the gates that replace a partial K/N gate. */
  lemma SplitCompletes(gate: Gate, after: Gates, g: int, index: int, toGate: bool, last: int)
    requires g in after && last + 1 in after && Parts(gate, after, g, index, toGate, last)
    requires gate.Partial() && Splits(gate, index) && Abs(index) <= last && last > 0
    ensures ProperParts(gate, after, g, last)
  {
    hide Proper, Parts;
    if |gate.args| == gate.minNumber {
      UnanimousCompletes(gate, after, g, index, toGate, last);
    } else if gate.minNumber == 2 {
      PairCompletes(gate, after, g, index, toGate, last);
    } else {
      MajorityCompletes(gate, after, g, index, toGate, last);
    }
  }

  lemma UnanimousCompletes(gate: Gate, after: Gates, g: int, index: int, toGate: bool, last: int)
    requires g in after && last + 1 in after && Parts(gate, after, g, index, toGate, last)
    requires Splits(gate, index) && Abs(index) <= last && last > 0 && |gate.args| == gate.minNumber
    ensures ProperParts(gate, after, g, last)
  {
    hide Rest, Proper, Gate.With;
    RestCompletes(gate, index, gate.minNumber - 2);
    TwoComplete(gate.Bare().(kind := And), index, toGate, last + 1, true);
  }

  lemma PairCompletes(gate: Gate, after: Gates, g: int, index: int, toGate: bool, last: int)
    requires g in after && last + 1 in after && Parts(gate, after, g, index, toGate, last)
    requires Splits(gate, index) && Abs(index) <= last && last > 0 && gate.minNumber == 2
    ensures ProperParts(gate, after, g, last)
  {
    hide Rest, Proper, Gate.With;
    RestCompletes(gate, index, gate.minNumber);
    TwoComplete(gate.Bare().(kind := Or), last + 1, true, index, toGate);
  }

  lemma MajorityCompletes(gate: Gate, after: Gates, g: int, index: int, toGate: bool, last: int)
    requires g in after && last + 1 in after && Parts(gate, after, g, index, toGate, last)
    requires Splits(gate, index) && Abs(index) <= last && last > 0 && 2 < gate.minNumber < |gate.args|
    ensures ProperParts(gate, after, g, last)
  {
    hide Rest, Proper, Gate.With;
    RestCompletes(gate, index, gate.minNumber);
    RestCompletes(gate, index, gate.minNumber - 2);
    TwoComplete(gate.Bare().(kind := Or), last + 1, true, last + 2, true);
    TwoComplete(Gate(And, 0, {}, {}, {}, false), index, toGate, last + 3, true);
  }

  /** What one join leaves as it was, and what kinds of gates it makes. */
  ghost predicate Framed(gates: Gates, after: Gates, p: int, last: int) {
    && p in gates && p in after
    && (forall h <- gates :: h in after && (h != p ==> after[h] == gates[h]))
    && (forall h <- after :: h in gates || last < h <= last + 3)
    && (forall h <- after :: h !in gates ==> !after[h].kind.Null?)
    && (gates[p].kind.Null? ==> after[p].kind.Null?)
    && (!gates[p].kind.Atleast? ==> !after[p].kind.Atleast? && forall h <- after :: h in gates)
  }

  lemma JoinPrepares(gates: Gates, p: int, index: int, c: int, last: int)
    requires Joinable(gates, p, index, c, last)
    ensures var gate := gates[p].Without(index);
            && gate.Partial() && gate.Tidy() && gate.Accepts(Carried(index, c))
            && |gate.args| + 1 == |gates[p].args| && gate.kind == gates[p].kind
    ensures p in gates && index in gates[p].args && AllComplete(gates) && Bounded(gates, last) && Abs(Carried(index, c)) <= last
  {
    PartialAfterErase(gates[p], index, Carried(index, c));
  }

  lemma JoinFrame(gates: Gates, after: Gates, p: int, index: int, c: int, last: int, rule: PairRule)
    requires Joined(gates, after, p, index, c, last, rule) && last > 0
    ensures Framed(gates, after, p, last) && AllComplete(after)
  {
    var j := Carried(index, c);
    hide Insert, IsSplit, Framed, AllComplete, Joinable, Gate.Partial, Gate.Tidy, Gate.Accepts, Gate.Complete, Gate.Without;
    JoinPrepares(gates, p, index, c, last);
    var erased := gates[p := gates[p].Without(index)];
    if Splits(erased[p], j) {
      SplitFrame(gates, erased, after, p, j, last);
    } else {
      InsertCompletes(erased[p], j, Abs(j) in erased, rule);
      InsertFrame(gates, p, Insert(erased[p], j, Abs(j) in erased, rule), last);
      assert after == gates[p := Insert(erased[p], j, Abs(j) in erased, rule)];
    }
  }

  lemma InsertFrame(gates: Gates, p: int, gate: Gate, last: int)
    requires p in gates && AllComplete(gates) && gate.Complete()
    requires gates[p].kind.Null? ==> gate.kind.Null?
    requires gate.kind.Atleast? ==> gates[p].kind.Atleast?
    ensures Framed(gates, gates[p := gate], p, last) && AllComplete(gates[p := gate])
  {
    hide Gate.Complete;
  }

  lemma SplitFrame(gates: Gates, erased: Gates, after: Gates, p: int, j: int, last: int)
    requires p in gates && p in erased && erased == gates[p := erased[p]] && gates[p].kind == erased[p].kind && AllComplete(gates)
    requires IsSplit(erased, after, p, j, Abs(j) in erased, last) && Splits(erased[p], j)
    requires erased[p].Partial() && Abs(j) <= last && last > 0
    ensures Framed(gates, after, p, last) && AllComplete(after)
  {
    hide Gate.Complete, Gate.Partial, Parts, IsSplit;
    SplitPlaces(erased, after, p, j, last);
    SplitCompletes(erased[p], after, p, j, Abs(j) in erased, last);
    ProperComplete(after[p], 0);
    ProperComplete(after[last + 1], Power(|erased[p].args| - 1));
    if last + 2 in after {
      ProperComplete(after[last + 2], 0);
      ProperComplete(after[last + 3], Power(|erased[p].args| - 1));
    }
    forall h <- after
      ensures after[h].Complete() && (h !in gates ==> !after[h].kind.Null?)
    {
      assert h in gates || h == last + 1 || h == last + 2 || h == last + 3;
    }
  }

  lemma ProperComplete(gate: Gate, limit: nat)
    requires Proper(gate, limit)
    ensures gate.Complete() && !gate.kind.Null?
    ensures gate.kind.Atleast? ==> limit > 0
  {
    PowerGrows(0, |gate.args|);
  }

  /** Every join comes closer to the end. */
  lemma JoinDecreases(gates: Gates, rank: Rank, after: Gates, rank': Rank, p: int, index: int, c: int, last: int, rule: PairRule)
    requires Joined(gates, after, p, index, c, last, rule) && last > 0 && Acyclic(gates, rank)
    requires rank' == rank || Splits(gates[p].Without(index), Carried(index, c))
    ensures Less(after, rank', gates, rank)
  {
    var j := Carried(index, c);
    PartialAfterErase(gates[p], index, j);
    var erased := gates[p := gates[p].Without(index)];
    VotesUpdate(gates, p, erased[p]);
    if Splits(erased[p], j) {
      SplitDecreases(gates, erased, after, p, index, j, last);
    } else {
      InsertCompletes(erased[p], j, Abs(j) in erased, rule);
      InsertDecreases(gates, rank, after, p, index, c);
    }
  }

  lemma SplitDecreases(gates: Gates, erased: Gates, after: Gates, p: int, index: int, j: int, last: int)
    requires p in gates && erased == gates[p := gates[p].Without(index)] && Bounded(gates, last)
    requires IsSplit(erased, after, p, j, Abs(j) in erased, last) && Splits(erased[p], j)
    requires erased[p].Partial() && |erased[p].args| + 1 == |gates[p].args| && Abs(j) <= last && last > 0
    requires TotalVotes(erased) + Votes(gates[p]) == TotalVotes(gates) + Votes(erased[p])
    ensures TotalVotes(after) < TotalVotes(gates)
  {
    hide Parts, IsSplit, Gate.Partial, TotalVotes;
    var m := |erased[p].args|;
    SplitPlaces(erased, after, p, j, last);
    SplitCompletes(erased[p], after, p, j, Abs(j) in erased, last);
    VotesOfThree(erased, after, p, last);
    assert Power(m + 1) == 2 * Power(m) == 4 * Power(m - 1);
    PowerGrows(0, m - 1);
  }

  lemma SplitPlaces(before: Gates, after: Gates, p: int, j: int, last: int)
    requires IsSplit(before, after, p, j, Abs(j) in before, last)
    ensures p in before && p in after && last + 1 in after && Parts(before[p], after, p, j, Abs(j) in before, last)
    ensures forall h <- before :: h in after && (h != p ==> after[h] == before[h])
    ensures forall h <- after :: h in before || last < h <= last + 3
  {
  }

  lemma InsertDecreases(gates: Gates, rank: Rank, after: Gates, p: int, index: int, c: int)
    requires p in gates && index in gates[p].args && Abs(index) in gates && gates[Abs(index)].args == {c}
    requires Acyclic(gates, rank) && 1 !in gates
    requires p in after && after == gates[p := after[p]]
    requires after[p].args <= gates[p].args - {index} + {Carried(index, c), 1, -1}
    requires after[p].kind.Atleast? ==> gates[p].kind.Atleast? && |after[p].args| <= |gates[p].args|
    ensures Less(after, rank, gates, rank)
  {
    VotesUpdate(gates, p, after[p]);
    PowerGrows(0, |after[p].args|);
    if after[p].kind.Atleast? {
      PowerGrows(|after[p].args|, |gates[p].args|);
    }
    HeightsUpdate(gates, rank, p, after[p]);
    assert c in gates[Abs(index)].args;
    HeightsFall(gates, rank, gates[p].args, after[p].args, index, Carried(index, c));
  }

  /** The argument of the pass-through gate has the value of that gate. */
  lemma PassesThrough(gate: Gate, index: int, c: int, w: Valuation)
    requires gate.kind.Null? && gate.args == {c} && c != 0 && index != 0
    requires Abs(index) in w <==> Holds(gate, w)
    ensures Literal(Carried(index, c), w) <==> Literal(index, w)
  {
    TruesOfOne(c, w);
  }

  lemma ErasedMeaning(gate: Gate, index: int, j: int, w: Valuation)
    requires index in gate.args && (Literal(j, w) <==> Literal(index, w))
    ensures HoldsWith(gate.Without(index), j, w) <==> Holds(gate, w)
  {
    TruesShrink(gate.args, index, w);
  }

  /** A join keeps the meaning of the gate unless it drops the wrong argument. */
  lemma JoinLaw(gates: Gates, after: Gates, p: int, index: int, c: int, last: int, w: Valuation, rule: PairRule)
    requires Joined(gates, after, p, index, c, last, rule) && last > 0 && !Deviation(gates, p, index, c, rule)
    requires 1 in w && Defines(after, gates, w) && (Abs(index) in w <==> Holds(gates[Abs(index)], w))
    ensures p in after && (Holds(after[p], w) <==> Holds(gates[p], w))
  {
    var j := Carried(index, c);
    hide Holds, HoldsWith, Gate.Without, Gate.Accepts, Gate.Partial, Gate.Complete, Gate.Tidy, Insert, IsSplit, Parts;
    JoinPrepares(gates, p, index, c, last);
    var erased := gates[p := gates[p].Without(index)];
    PassesThrough(gates[Abs(index)], index, c, w);
    ErasedMeaning(gates[p], index, j, w);
    if Splits(erased[p], j) {
      SplitPlaces(erased, after, p, j, last);
      SplitLaw(erased, after, p, j, Abs(j) in erased, last, w);
    } else {
      InsertLaw(erased[p], j, Abs(j) in erased, w, rule);
    }
  }

  /** A join keeps the functions of all gates unless it drops the wrong argument. */
  lemma JoinKeepsValues(gates: Gates, rank: Rank, after: Gates, rank': Rank, p: int, index: int, c: int, last: int, leaves: set<int>, rule: PairRule)
    requires Joined(gates, after, p, index, c, last, rule) && last > 0 && !Deviation(gates, p, index, c, rule)
    requires Acyclic(gates, rank) && Acyclic(after, rank') && Grounded(gates, leaves)
    requires 1 in leaves && forall n <- leaves :: n !in after
    ensures SameValues(gates, rank, after, rank')
  {
    JoinFrame(gates, after, p, index, c, last, rule);
    hide Holds, Joined, Deviation;
    forall a: Valuation, g <- gates
      ensures g in Model(after, rank', a) <==> Holds(gates[g], Model(after, rank', a))
    {
      var w := Model(after, rank', a);
      ModelHolds(after, rank', a, g);
      if g == p {
        forall h <- after
          ensures h in w <==> Holds(after[h], w)
        {
          ModelHolds(after, rank', a, h);
        }
        PassThroughKept(gates, after, p, index, c, last, rule);
        JoinLaw(gates, after, p, index, c, last, w, rule);
      }
    }
    KeepsValues(gates, rank, after, rank', leaves);
  }

  lemma PassThroughKept(gates: Gates, after: Gates, p: int, index: int, c: int, last: int, rule: PairRule)
    requires Joined(gates, after, p, index, c, last, rule) && Framed(gates, after, p, last)
    ensures Abs(index) in gates && Abs(index) in after && after[Abs(index)] == gates[Abs(index)]
  {
  }

  /** Where the arguments of changed and new gates come from. */
  lemma JoinSources(gates: Gates, after: Gates, p: int, index: int, c: int, last: int, h: int, i: int, rule: PairRule)
    requires Joined(gates, after, p, index, c, last, rule) && last > 0
    requires h in after && (h == p || h !in gates) && i in after[h].args
    ensures Abs(i) == 1 || i in gates[p].args || i == Carried(index, c) || Abs(i) > last
  {
    var j := Carried(index, c);
    hide Insert, Gate.Partial, Gate.Accepts, Gate.Complete, Gate.Tidy, Parts, Joinable, Splits;
    JoinPrepares(gates, p, index, c, last);
    var erased := gates[p := gates[p].Without(index)];
    if Splits(erased[p], j) {
      SplitPlaces(erased, after, p, j, last);
      SplitSources(erased[p], after, p, j, Abs(j) in erased, last, h, i);
    } else {
      InsertCompletes(erased[p], j, Abs(j) in erased, rule);
    }
  }

  lemma SplitSources(gate: Gate, after: Gates, g: int, index: int, toGate: bool, last: int, h: int, i: int)
    requires g in after && last + 1 in after && Parts(gate, after, g, index, toGate, last) && last > 0
    requires h in after && (h == g || last < h <= last + 3) && i in after[h].args
    ensures i in gate.args || i == index || Abs(i) > last
  {
  }
}
