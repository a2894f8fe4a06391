/** When a gate of the graph means a formula. */
module Meanings {
  import opened Indices
  import opened Sets
  import opened Connectives
  import opened Links
  import opened Formulas

  type VariableIndex = map<int, int>

  /** The basic events that are true in a valuation. */
  ghost function Events(index: VariableIndex, w: Valuation): iset<int> {
    iset b | b in index && index[b] in w
  }

  /** The gates that are finished have the values of their connectives. */
  ghost predicate Settled(gates: Gates, open: set<int>, w: Valuation) {
    1 in w && forall h <- gates :: h !in open ==> (h in w <==> Holds(gates[h], w))
  }

  ghost predicate Means(tree: FaultTree, index: VariableIndex, gates: Gates, open: set<int>, g: int, f: Formula, level: nat) {
    && tree.Valid() && tree.Below(f, level) && g in gates && g !in open
    && forall w: Valuation :: Settled(gates, open, w) ==> (g in w <==> tree.Value(f, level, Events(index, w)))
  }

  /** A signed node has the value of an argument. */
  ghost predicate Stands(tree: FaultTree, index: VariableIndex, gates: Gates, open: set<int>, s: int, arg: Arg, level: nat) {
    && tree.Valid() && tree.EventBelow(arg.event, level)
    && forall w: Valuation :: Settled(gates, open, w) ==>
         (Literal(s, w) <==> tree.EventValue(arg.event, level, Events(index, w)) != arg.complement)
  }

  /** More finished gates make no difference to those that were finished before. */
  lemma SettledKept(before: Gates, open: set<int>, after: Gates, open': set<int>, w: Valuation)
    requires Settled(after, open', w) && forall h <- before :: h !in open ==> h !in open' && h in after && after[h] == before[h]
    ensures Settled(before, open, w)
  {
  }

  lemma MeansKept(tree: FaultTree, index: VariableIndex, before: Gates, open: set<int>, after: Gates, open': set<int>, g: int, f: Formula, level: nat)
    requires Means(tree, index, before, open, g, f, level)
    requires forall h <- before :: h !in open ==> h !in open' && h in after && after[h] == before[h]
    ensures Means(tree, index, after, open', g, f, level)
  {
    forall w: Valuation | Settled(after, open', w)
      ensures g in w <==> tree.Value(f, level, Events(index, w))
    {
      SettledKept(before, open, after, open', w);
    }
  }

  lemma StandsKept(tree: FaultTree, index: VariableIndex, before: Gates, open: set<int>, after: Gates, open': set<int>, s: int, arg: Arg, level: nat)
    requires Stands(tree, index, before, open, s, arg, level)
    requires forall h <- before :: h !in open ==> h !in open' && h in after && after[h] == before[h]
    ensures Stands(tree, index, after, open', s, arg, level)
  {
    forall w: Valuation | Settled(after, open', w)
      ensures Literal(s, w) <==> tree.EventValue(arg.event, level, Events(index, w)) != arg.complement
    {
      SettledKept(before, open, after, open', w);
    }
  }

  ghost predicate Distinct(s: seq<int>) {
    forall i, j | 0 <= i < j < |s| :: Abs(s[i]) != Abs(s[j])
  }

  /** Distinct arguments are counted one by one. */
  lemma {:induction false} CountTrues(s: seq<int>, values: seq<bool>, w: Valuation)
    requires |s| == |values| && Distinct(s)
    requires forall i | 0 <= i < |s| :: Literal(s[i], w) == values[i]
    ensures |Elements(s)| == |s| && |Trues(Elements(s), w)| == Count(values)
  {
    if s != [] {
      var last := |s| - 1;
      CountTrues(s[..last], values[..last], w);
      ElementsAre(s[..last], s[last]);
      assert s[last] !in s[..last];
      TruesGrow(Elements(s[..last]), s[last], w);
    }
  }

  /** The arguments of a gate stand for the arguments of a formula. */
  ghost predicate StandAll(tree: FaultTree, index: VariableIndex, gates: Gates, open: set<int>, s: seq<int>, f: Formula, level: nat) {
    && |s| == |f.args| && Distinct(s)
    && forall i | 0 <= i < |s| :: Stands(tree, index, gates, open, s[i], f.args[i], level)
  }

  /** So they have the values of the arguments, and as many of them are true. */
  lemma StandAllCount(tree: FaultTree, index: VariableIndex, gates: Gates, open: set<int>, s: seq<int>, f: Formula, level: nat, w: Valuation)
    requires tree.Valid() && tree.Below(f, level)
    requires StandAll(tree, index, gates, open, s, f, level) && Settled(gates, open, w)
    ensures var values := tree.ArgValues(f, level, Events(index, w));
            && (forall i | 0 <= i < |s| :: Literal(s[i], w) == values[i])
            && |Elements(s)| == |s| && |Trues(Elements(s), w)| == Count(values)
  {
    var values := tree.ArgValues(f, level, Events(index, w));
    forall i | 0 <= i < |s|
      ensures Literal(s[i], w) == values[i]
    {
      assert Stands(tree, index, gates, open, s[i], f.args[i], level);
    }
    CountTrues(s, values, w);
  }

  /** A finished gate of the same connective means the formula. */
  lemma GateMeans(tree: FaultTree, index: VariableIndex, gates: Gates, open: set<int>, g: int, s: seq<int>, f: Formula, level: nat)
    requires tree.Valid() && tree.Below(f, level) && StandAll(tree, index, gates, open + {g}, s, f, level)
    requires g in gates && g !in open && f.kind.Core? && gates[g].kind == f.kind.connective
    requires gates[g].args == Elements(s) && (f.kind.connective.Atleast? ==> gates[g].minNumber == f.minNumber)
    ensures Means(tree, index, gates, open, g, f, level)
  {
    forall w: Valuation | Settled(gates, open, w)
      ensures g in w <==> tree.Value(f, level, Events(index, w))
    {
      assert Settled(gates, open + {g}, w);
      StandAllCount(tree, index, gates, open + {g}, s, f, level, w);
    }
  }

  /** The negation of XOR, passed through. */
  lemma IffMeans(tree: FaultTree, index: VariableIndex, gates: Gates, open: set<int>, g: int, xor: int, s: seq<int>, f: Formula, level: nat)
    requires tree.Valid() && tree.Below(f, level) && StandAll(tree, index, gates, open + {g, xor}, s, f, level)
    requires g in gates && g !in open && xor in gates && xor !in open && xor > 1 && f.kind.Iff? && |f.args| == 2
    requires gates[g].kind.Null? && gates[g].args == {-xor} && gates[xor].kind.Xor? && gates[xor].args == Elements(s)
    ensures Means(tree, index, gates, open, g, f, level)
  {
    forall w: Valuation | Settled(gates, open, w)
      ensures g in w <==> tree.Value(f, level, Events(index, w))
    {
      assert Settled(gates, open + {g, xor}, w);
      StandAllCount(tree, index, gates, open + {g, xor}, s, f, level, w);
      TruesOfOne(-xor, w);
      CountOfTwo(tree.ArgValues(f, level, Events(index, w)));
    }
  }

  lemma CountOfTwo(values: seq<bool>)
    requires |values| == 2
    ensures Count(values) == (if values[0] then 1 else 0) + if values[1] then 1 else 0
  {
    assert values[..1][..0] == [];
    assert Count(values[..1]) == if values[0] then 1 else 0;
  }

  /** The first argument with the other sign, or the second. */
  lemma ImplyMeans(tree: FaultTree, index: VariableIndex, gates: Gates, open: set<int>, g: int, s: seq<int>, f: Formula, level: nat)
    requires tree.Valid() && tree.Below(f, level) && StandAll(tree, index, gates, open + {g}, s, f, level)
    requires g in gates && g !in open && f.kind.Imply? && |f.args| == 2
    requires gates[g].kind.Or? && gates[g].args == {-s[0], s[1]} && s[0] != 0
    ensures Means(tree, index, gates, open, g, f, level)
  {
    forall w: Valuation | Settled(gates, open, w)
      ensures g in w <==> tree.Value(f, level, Events(index, w))
    {
      assert Settled(gates, open + {g}, w);
      StandAllCount(tree, index, gates, open + {g}, s, f, level, w);
      assert Abs(s[0]) != Abs(s[1]);
      TruesOfTwo(-s[0], s[1], w);
    }
  }

  /** At least `minNumber` true arguments, and at least `size - maxNumber` false ones. */
  lemma CardinalityMeans(tree: FaultTree, index: VariableIndex, gates: Gates, open: set<int>, g: int, first: int, second: int, s: seq<int>, f: Formula, level: nat)
    requires tree.Valid() && tree.Below(f, level) && StandAll(tree, index, gates, open + {g, first, second}, s, f, level)
    requires g in gates && first in gates && second in gates && g !in open && first !in open && second !in open
    requires first > 1 && second > 1 && first != second && f.kind.Cardinality?
    requires gates[g].kind.And? && gates[g].args == {first, second}
    requires Elements(s) != {} && forall i <- s :: i != 0
    requires forall w: Valuation | 1 in w :: Holds(gates[first], w) <==> |Trues(Elements(s), w)| >= f.minNumber
    requires forall w: Valuation | 1 in w :: Holds(gates[second], w) <==> |Trues(Complements(Elements(s)), w)| >= |f.args| - f.maxNumber
    ensures Means(tree, index, gates, open, g, f, level)
  {
    forall w: Valuation | Settled(gates, open, w)
      ensures g in w <==> tree.Value(f, level, Events(index, w))
    {
      assert Settled(gates, open + {g, first, second}, w);
      StandAllCount(tree, index, gates, open + {g, first, second}, s, f, level, w);
      TruesOfTwo(first, second, w);
      forall i
        ensures i in Elements(s) <==> Conflicts(Complements(Elements(s)), i)
        ensures 0 !in Elements(s)
      {
        ElementsAre(s, 0);
        assert -i in Complements(Elements(s)) <==> Conflicts(Elements(s), -i);
      }
      NegatedTrues(Elements(s), Complements(Elements(s)), w);
    }
  }
}
