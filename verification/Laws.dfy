/** What adding an argument to a gate means: the connective over the old arguments and the
    new one, for all connectives, signs, duplicates, complements and constants. */
module Laws {
  import opened Indices
  import opened Sets
  import opened Connectives
  import opened Links

  /** The gates that are not in `known` have the values that the valuation gives them. */
  ghost predicate Defines(gates: Gates, known: Gates, w: Valuation) {
    forall h <- gates :: h !in known ==> (h in w <==> Holds(gates[h], w))
  }

  lemma ConstantLaw(gate: Gate, index: int, w: Valuation)
    requires gate.Accepts(index) && Abs(index) == 1 && 1 in w
    ensures Holds(WithConstant(gate, index > 0), w) <==> HoldsWith(gate, index, w)
  {
    TruesBound(gate.args, w);
    TruesOfOne(1, w);
    TruesOfOne(-1, w);
  }

  lemma ComplementLaw(gate: Gate, index: int, w: Valuation)
    requires gate.Accepts(index) && -index in gate.args && index !in gate.args && 1 in w
    ensures Holds(WithComplement(gate, index), w) <==> HoldsWith(gate, index, w)
  {
    ComplementArgument(gate, index, w);
    TruesOfOne(1, w);
    TruesOfOne(-1, w);
    TruesBound(gate.args - {-index}, w);
    hide Trues;
  }

  lemma DuplicateLaw(gate: Gate, index: int, w: Valuation, rule: PairRule)
    requires gate.Accepts(index) && index in gate.args && 1 in w
    requires !Splits(gate, index) && !gate.Deviates(index, rule)
    ensures Holds(WithDuplicate(gate, index, rule), w) <==> HoldsWith(gate, index, w)
  {
    if gate.kind.Atleast? {
      assert |gate.args| == 2;
      DuplicateAlone(gate, index, w);
    } else {
      DuplicateArgument(gate, index, w);
      TruesOfOne(-1, w);
    }
  }

  /** Adding an argument without new gates. */
  lemma InsertLaw(gate: Gate, index: int, toGate: bool, w: Valuation, rule: PairRule)
    requires gate.Accepts(index) && gate.Tidy() && 1 in w
    requires !Splits(gate, index) && !gate.Deviates(index, rule)
    ensures Holds(Insert(gate, index, toGate, rule), w) <==> HoldsWith(gate, index, w)
  {
    hide Holds, HoldsWith, WithConstant, WithComplement, WithDuplicate;
    if Abs(index) == 1 {
      ConstantLaw(gate, index, w);
    } else if index in gate.args {
      DuplicateLaw(gate, index, w, rule);
    } else if -index in gate.args {
      ComplementLaw(gate, index, w);
    } else {
      FreshArgument(gate, gate.With(index, toGate), index, w);
    }
  }

  /** Both arguments of a two-argument K/N gate are distinct nodes, so that the duplicate can
      be true while the other is false. */
  lemma PairFails(gate: Gate, index: int, toGate: bool, rule: PairRule) returns (w: Valuation)
    requires gate.Accepts(index) && gate.Tidy() && gate.Deviates(index, rule)
    ensures 1 in w && !Holds(Insert(gate, index, toGate, rule), w) && HoldsWith(gate, index, w)
  {
    var rest := gate.args - {index};
    assert |rest| == 1;
    var other := Some(rest);
    Subset({other}, rest);
    assert rest == {other} && gate.args == rest + {index};
    assert gate.args == {index, other};
    assert !Conflicts(gate.args, index);
    w := iset{1} + (if index > 0 then iset{index} else iset{}) + if other > 0 then iset{} else iset{-other};
    TruesOfTwo(index, other, w);
    TruesOfOne(other, w);
  }

  /** Adding an argument without new gates has the promised meaning exactly when it is not
      the duplicate argument of a K/N gate with two arguments. */
  lemma AddArgumentExactly(gate: Gate, index: int, toGate: bool, rule: PairRule)
    requires gate.Accepts(index) && gate.Tidy() && !Splits(gate, index)
    ensures (forall w: Valuation | 1 in w :: Holds(Insert(gate, index, toGate, rule), w) <==> HoldsWith(gate, index, w))
            <==> !gate.Deviates(index, rule)
  {
    hide Holds, HoldsWith, Insert;
    if gate.Deviates(index, rule) {
      var w := PairFails(gate, index, toGate, rule);
    } else {
      forall w: Valuation | 1 in w
        ensures Holds(Insert(gate, index, toGate, rule), w) <==> HoldsWith(gate, index, w)
      {
        InsertLaw(gate, index, toGate, w, rule);
      }
    }
  }

  lemma RestMeaning(gate: Gate, index: int, minNumber: int, w: Valuation)
    requires index in gate.args && minNumber >= 1 && |gate.args| > 2
    ensures Holds(Rest(gate, index, minNumber), w) <==> |Trues(gate.args - {index}, w)| >= minNumber
  {
    TruesShrink(gate.args, index, w);
    TruesBound(gate.args - {index}, w);
  }

  /** AND and OR gates of two arguments. */
  lemma OfTwo(gate: Gate, i: int, j: int, w: Valuation)
    requires gate.args == {i, j} && i != j
    ensures gate.kind.And? ==> (Holds(gate, w) <==> Literal(i, w) && Literal(j, w))
    ensures gate.kind.Or? ==> (Holds(gate, w) <==> Literal(i, w) || Literal(j, w))
  {
    TruesOfTwo(i, j, w);
  }

  /** Adding the duplicate argument of a K/N gate with new gates. */
  lemma SplitLaw(before: Gates, after: Gates, g: int, index: int, toGate: bool, last: int, w: Valuation)
    requires IsSplit(before, after, g, index, toGate, last) && last > 0 && Abs(index) <= last
    requires before[g].Accepts(index) && Splits(before[g], index)
    requires forall h <- before :: h <= last
    requires Defines(after, before, w)
    ensures Holds(after[g], w) <==> HoldsWith(before[g], index, w)
  {
    PartsLaw(before[g], after, g, index, toGate, last, w);
  }

  lemma PartsLaw(gate: Gate, after: Gates, g: int, index: int, toGate: bool, last: int, w: Valuation)
    requires g in after && last + 1 in after && Parts(gate, after, g, index, toGate, last) && last > 0 && Abs(index) <= last
    requires gate.Accepts(index) && Splits(gate, index)
    requires forall h <- after :: h > last ==> (h in w <==> Holds(after[h], w))
    ensures Holds(after[g], w) <==> HoldsWith(gate, index, w)
  {
    hide Holds, HoldsWith, Rest, Trues, Gate.With, Gate.Bare;
    if |gate.args| == gate.minNumber {
      UnanimousLaw(gate, after[g], after[last + 1], index, toGate, last, w);
    } else if gate.minNumber == 2 {
      PairLaw(gate, after[g], after[last + 1], index, toGate, last, w);
    } else {
      MajorityLaw(gate, after[g], after[last + 1], after[last + 2], after[last + 3], index, toGate, last, w);
    }
  }

  lemma UnanimousLaw(gate: Gate, root: Gate, two: Gate, index: int, toGate: bool, last: int, w: Valuation)
    requires gate.Accepts(index) && Splits(gate, index) && |gate.args| == gate.minNumber && last > 0 && Abs(index) <= last
    requires root == gate.Bare().(kind := And).With(index, toGate).With(last + 1, true)
    requires two == Rest(gate, index, gate.minNumber - 2) && (last + 1 in w <==> Holds(two, w))
    ensures Holds(root, w) <==> HoldsWith(gate, index, w)
  {
    hide Holds, HoldsWith, Rest, Trues;
    DuplicateVote(gate, index, w);
    RestMeaning(gate, index, gate.minNumber - 2, w);
    OfTwo(root, index, last + 1, w);
  }

  lemma PairLaw(gate: Gate, root: Gate, one: Gate, index: int, toGate: bool, last: int, w: Valuation)
    requires gate.Accepts(index) && Splits(gate, index) && gate.minNumber == 2 && last > 0 && Abs(index) <= last
    requires root == gate.Bare().(kind := Or).With(last + 1, true).With(index, toGate)
    requires one == Rest(gate, index, gate.minNumber) && (last + 1 in w <==> Holds(one, w))
    ensures Holds(root, w) <==> HoldsWith(gate, index, w)
  {
    hide Holds, HoldsWith, Rest, Trues;
    DuplicateVote(gate, index, w);
    RestMeaning(gate, index, gate.minNumber, w);
    OfTwo(root, index, last + 1, w);
  }

  lemma MajorityLaw(gate: Gate, root: Gate, one: Gate, and: Gate, two: Gate, index: int, toGate: bool, last: int, w: Valuation)
    requires gate.Accepts(index) && Splits(gate, index) && gate.minNumber > 2 && last > 0 && Abs(index) <= last
    requires root == gate.Bare().(kind := Or).With(last + 1, true).With(last + 2, true)
    requires one == Rest(gate, index, gate.minNumber) && (last + 1 in w <==> Holds(one, w))
    requires and == Gate(And, 0, {}, {}, {}, false).With(index, toGate).With(last + 3, true) && (last + 2 in w <==> Holds(and, w))
    requires two == Rest(gate, index, gate.minNumber - 2) && (last + 3 in w <==> Holds(two, w))
    ensures Holds(root, w) <==> HoldsWith(gate, index, w)
  {
    hide Holds, HoldsWith, Rest, Trues;
    DuplicateVote(gate, index, w);
    RestMeaning(gate, index, gate.minNumber, w);
    RestMeaning(gate, index, gate.minNumber - 2, w);
    OfTwo(root, last + 1, last + 2, w);
    OfTwo(and, index, last + 3, w);
  }

  /** Adding an argument gives the connective over the old arguments and the new one, in
      every valuation that satisfies the new gates. */
  lemma AddedLaw(before: Gates, after: Gates, g: int, index: int, last: int, w: Valuation, rule: PairRule)
    requires Added(before, after, g, index, last, rule) && before[g].Accepts(index) && before[g].Tidy()
    requires last > 0 && Abs(index) <= last && forall h <- before :: h <= last
    requires !before[g].Deviates(index, rule) && 1 in w && Defines(after, before, w)
    ensures g in after && (Holds(after[g], w) <==> HoldsWith(before[g], index, w))
  {
    hide Holds, HoldsWith, Insert, Gate.Accepts, Gate.Tidy;
    if Splits(before[g], index) {
      SplitLaw(before, after, g, index, Abs(index) in before, last, w);
    } else {
      InsertLaw(before[g], index, Abs(index) in before, w, rule);
    }
  }

  /** A gate without an argument that is known to be true or false. */
  lemma ConstantArgumentLaw(gate: Gate, index: int, state: bool, w: Valuation)
    requires index in gate.args && Abs(index) != 1 && gate.Without(index).Accepts(if state then 1 else -1)
    requires 1 in w && (Literal(index, w) <==> state)
    ensures Holds(WithConstant(gate.Without(index), state), w) <==> Holds(gate, w)
  {
    var constant := if state then 1 else -1;
    ConstantLaw(gate.Without(index), constant, w);
    TruesShrink(gate.args, index, w);
  }

  /** AND-like gates take over the arguments of AND gates, OR-like gates those of OR gates. */
  predicate Coalesces(kind: Connective, other: Connective) {
    || (kind in {And, Nand} && other.And?)
    || (kind in {Or, Nor} && other.Or?)
  }

  lemma CoalesceLaw(gate: Gate, other: Gate, joined: Gate, h: int, w: Valuation)
    requires Coalesces(gate.kind, other.kind) && joined.kind == gate.kind
    requires h > 0 && h in gate.args && h !in other.args && joined.args == gate.args + other.args - {h}
    requires h in w <==> Holds(other, w)
    ensures Holds(joined, w) <==> Holds(gate, w)
  {
    TruesBound(gate.args, w);
    TruesBound(other.args, w);
    TruesBound(joined.args, w);
    assert Literal(h, w) <==> h in w;
    if gate.kind in {And, Nand} {
      assert (forall i <- joined.args :: Literal(i, w)) <==> forall i <- gate.args :: Literal(i, w) by {
        assert forall i <- gate.args :: i == h || i in joined.args;
        assert forall i <- other.args :: i in joined.args;
      }
    } else {
      assert (forall i <- joined.args :: !Literal(i, w)) <==> forall i <- gate.args :: !Literal(i, w) by {
        assert forall i <- gate.args :: i == h || i in joined.args;
        assert forall i <- other.args :: i in joined.args;
      }
    }
  }

  /** An argument of the other gate whose complement the gate has. */
  lemma CoalesceConflict(gate: Gate, other: Gate, h: int, i: int, w: Valuation)
    requires Coalesces(gate.kind, other.kind) && h > 0 && h in gate.args && i in other.args && -i in gate.args && i != 0
    requires (h in w <==> Holds(other, w)) && 1 in w
    ensures Holds(gate, w) <==> Holds(Constant(gate, gate.kind in {Nand, Or}), w)
  {
    TruesBound(gate.args, w);
    TruesBound(other.args, w);
    TruesOfOne(1, w);
    TruesOfOne(-1, w);
    assert Literal(i, w) != Literal(-i, w);
    assert Literal(h, w) <==> h in w;
  }
}
