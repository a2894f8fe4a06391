/** The Boolean functions of the gates of an acyclic graph, and rewriting steps that keep
    them. */
module Values {
  import opened Indices
  import opened Connectives
  import opened Links

  ghost predicate Value(gates: Gates, rank: Rank, g: int, a: Valuation)
    requires Acyclic(gates, rank) && g in gates
    decreases rank[g], 1
  {
    Connect(gates[g].kind, gates[g].minNumber, |TrueArguments(gates, rank, g, a)|, |gates[g].args|)
  }

  ghost function TrueArguments(gates: Gates, rank: Rank, g: int, a: Valuation): set<int>
    requires Acyclic(gates, rank) && g in gates
    decreases rank[g], 0
  {
    set i <- gates[g].args |
      (if Abs(i) in gates then Value(gates, rank, Abs(i), a) else Abs(i) == 1 || Abs(i) in a) == (i > 0)
  }

  /** The values of all nodes under an assignment of the variables. */
  ghost function Model(gates: Gates, rank: Rank, a: Valuation): Valuation
    requires Acyclic(gates, rank)
  {
    iset n: int | if n in gates then Value(gates, rank, n, a) else n == 1 || n in a
  }

  lemma ModelHolds(gates: Gates, rank: Rank, a: Valuation, g: int)
    requires Acyclic(gates, rank) && g in gates
    ensures g in Model(gates, rank, a) <==> Holds(gates[g], Model(gates, rank, a))
  {
    var w := Model(gates, rank, a);
    assert TrueArguments(gates, rank, g, a) == Trues(gates[g].args, w);
  }

  /** Every argument is a gate or a leaf. */
  ghost predicate Grounded(gates: Gates, leaves: set<int>) {
    forall g <- gates, i <- gates[g].args :: Abs(i) in gates || Abs(i) in leaves
  }

  /** Values that satisfy every gate are the values of the gates. */
  lemma {:induction false} Unique(gates: Gates, rank: Rank, leaves: set<int>, a: Valuation, w: Valuation, g: int)
    requires Acyclic(gates, rank) && Grounded(gates, leaves) && g in gates
    requires forall h <- gates :: h in w <==> Holds(gates[h], w)
    requires forall n <- leaves :: n in w <==> n == 1 || n in a
    ensures g in w <==> Value(gates, rank, g, a)
    decreases rank[g]
  {
    var trues := TrueArguments(gates, rank, g, a);
    forall i <- gates[g].args
      ensures i in trues <==> i in Trues(gates[g].args, w)
    {
      if Abs(i) in gates {
        Unique(gates, rank, leaves, a, w, Abs(i));
      }
    }
    assert trues == Trues(gates[g].args, w);
  }

  /** The gates of both graphs have the same functions. */
  ghost predicate SameValues(gates: Gates, rank: Rank, gates': Gates, rank': Rank) {
    && Acyclic(gates, rank) && Acyclic(gates', rank')
    && forall a: Valuation, g :: g in gates && g in gates' ==> (Value(gates, rank, g, a) <==> Value(gates', rank', g, a))
  }

  /** A rewriting step keeps all functions if the old gates still hold in the values of the
      new graph. */
  lemma KeepsValues(gates: Gates, rank: Rank, gates': Gates, rank': Rank, leaves: set<int>)
    requires Acyclic(gates, rank) && Acyclic(gates', rank') && Grounded(gates, leaves)
    requires forall g <- gates :: g in gates'
    requires forall n <- leaves :: n !in gates'
    requires forall a: Valuation, g <- gates :: g in Model(gates', rank', a) <==> Holds(gates[g], Model(gates', rank', a))
    ensures SameValues(gates, rank, gates', rank')
  {
    forall a: Valuation, g | g in gates && g in gates'
      ensures Value(gates, rank, g, a) <==> Value(gates', rank', g, a)
    {
      Unique(gates, rank, leaves, a, Model(gates', rank', a), g);
    }
  }

  /** Removing gates keeps the functions of the others. */
  lemma RemovalKeepsValues(gates: Gates, rank: Rank, gates': Gates, leaves: set<int>)
    requires Acyclic(gates, rank) && Grounded(gates', leaves)
    requires forall g <- gates' :: g in gates && gates'[g] == gates[g]
    requires forall n <- leaves :: n !in gates
    ensures SameValues(gates, rank, gates', rank)
  {
    forall a: Valuation, g | g in gates && g in gates'
      ensures Value(gates, rank, g, a) <==> Value(gates', rank, g, a)
    {
      forall h <- gates'
        ensures h in Model(gates, rank, a) <==> Holds(gates'[h], Model(gates, rank, a))
      {
        ModelHolds(gates, rank, a, h);
      }
      Unique(gates', rank, leaves, a, Model(gates, rank, a), g);
    }
  }

  /** Changing the ranks keeps the functions. */
  lemma ValuesCompose(gates: Gates, rank: Rank, gates': Gates, rank': Rank, gates'': Gates, rank'': Rank)
    requires SameValues(gates, rank, gates', rank') && SameValues(gates', rank', gates'', rank'')
    requires forall g :: g in gates && g in gates'' ==> g in gates'
    ensures SameValues(gates, rank, gates'', rank'')
  {
    forall a: Valuation, g | g in gates && g in gates''
      ensures Value(gates, rank, g, a) <==> Value(gates'', rank'', g, a)
    {
      assert g in gates';
    }
  }
}
