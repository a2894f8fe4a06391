/** Graphs whose K/N gates never get an argument twice while pass-through gates are removed. */
module Separation {
  import opened Indices
  import opened Sets
  import opened Connectives
  import opened Links
  import opened Joining

  predicate IsNull(gates: Gates, g: int) {
    g in gates && gates[g].kind.Null?
  }

  /** The nodes that a node reaches, and itself, but for the constant. */
  ghost function Reach(gates: Gates, rank: Rank, n: int): set<int>
    requires Acyclic(gates, rank)
    decreases if n in gates then rank[n] + 1 else 0
  {
    if n == 1 then {}
    else if n !in gates then {n}
    else {n} + set i, m | i in gates[n].args && m in Reach(gates, rank, Abs(i)) :: m
  }

  /** Every K/N gate has no pass-through gates below it, or arguments that reach no nodes in
      common. */
  ghost predicate Separate(gates: Gates, rank: Rank)
    requires Acyclic(gates, rank)
  {
    forall g <- gates | gates[g].kind.Atleast? :: NoNullBelow(gates, rank, g) || ArgumentsApart(gates, rank, g)
  }

  ghost predicate NoNullBelow(gates: Gates, rank: Rank, g: int)
    requires Acyclic(gates, rank)
  {
    forall n <- Reach(gates, rank, g) :: !IsNull(gates, n)
  }

  ghost predicate ArgumentsApart(gates: Gates, rank: Rank, g: int)
    requires Acyclic(gates, rank) && g in gates
  {
    forall i <- gates[g].args, j <- gates[g].args :: i != j ==> Reach(gates, rank, Abs(i)) !! Reach(gates, rank, Abs(j))
  }

  /** What may be below a node. */
  type Scopes = map<int, set<int>>

  ghost predicate Scoped(gates: Gates, scopes: Scopes) {
    && 1 !in scopes
    && forall g <- gates :: g in scopes && forall i <- gates[g].args :: Abs(i) != 1 ==> Within(scopes, Abs(i), g)
  }

  ghost predicate Within(scopes: Scopes, n: int, g: int) {
    n in scopes && g in scopes && n in scopes[n] && scopes[n] <= scopes[g]
  }

  ghost predicate Disjoint(scopes: Scopes, i: int, j: int) {
    Abs(i) in scopes && Abs(j) in scopes ==> scopes[Abs(i)] !! scopes[Abs(j)]
  }

  ghost predicate Apart(gate: Gate, scopes: Scopes) {
    forall i <- gate.args, j <- gate.args :: i != j ==> Disjoint(scopes, i, j)
  }

  /** A gate with no pass-through gates below it. */
  ghost predicate Shields(gates: Gates, shield: set<int>, g: int) {
    g in gates && !gates[g].kind.Null? && forall i <- gates[g].args :: Abs(i) in gates ==> Abs(i) in shield
  }

  /** Bounds for the nodes below each node that show a graph to be separate, whatever its ranks. */
  ghost predicate Certified(gates: Gates, shield: set<int>, scopes: Scopes) {
    && Scoped(gates, scopes)
    && forall g <- gates ::
         && (gates[g].kind.Atleast? ==> g in shield || Apart(gates[g], scopes))
         && (g in shield ==> Shields(gates, shield, g))
  }

  ghost predicate Certifiable(gates: Gates) {
    exists shield: set<int>, scopes: Scopes :: Certified(gates, shield, scopes)
  }

  lemma {:induction false} ReachInScope(gates: Gates, rank: Rank, shield: set<int>, scopes: Scopes, n: int)
    requires Acyclic(gates, rank) && Certified(gates, shield, scopes) && n in scopes && n in scopes[n]
    ensures Reach(gates, rank, n) <= scopes[n]
    ensures n in gates && n in shield ==> NoNullBelow(gates, rank, n)
    decreases if n in gates then rank[n] + 1 else 0
  {
    if n in gates && n != 1 {
      forall m <- Reach(gates, rank, n)
        ensures m in scopes[n] && (n in shield ==> !IsNull(gates, m))
      {
        if m != n {
          var i :| i in gates[n].args && m in Reach(gates, rank, Abs(i));
          assert Abs(i) != 1;
          ReachInScope(gates, rank, shield, scopes, Abs(i));
        }
      }
    }
  }

  ghost function Nodes(gates: Gates): set<int> {
    gates.Keys + set g, i | g in gates && i in gates[g].args && Abs(i) != 1 :: Abs(i)
  }

  /** The bounds exist exactly for separate graphs. */
  lemma SeparateExactly(gates: Gates, rank: Rank)
    requires Acyclic(gates, rank) && 1 !in gates
    requires forall g <- gates :: gates[g].kind.Atleast? ==> 1 !in gates[g].args && -1 !in gates[g].args
    ensures Separate(gates, rank) <==> Certifiable(gates)
  {
    if Separate(gates, rank) {
      SeparateCertified(gates, rank);
    }
    if shield: set<int>, scopes: Scopes :| Certified(gates, shield, scopes) {
      CertifiedSeparate(gates, rank, shield, scopes);
    }
  }

  lemma CertifiedSeparate(gates: Gates, rank: Rank, shield: set<int>, scopes: Scopes)
    requires Acyclic(gates, rank) && Certified(gates, shield, scopes) && 1 !in gates
    requires forall g <- gates :: gates[g].kind.Atleast? ==> 1 !in gates[g].args && -1 !in gates[g].args
    ensures Separate(gates, rank)
  {
    forall g <- gates | gates[g].kind.Atleast?
      ensures NoNullBelow(gates, rank, g) || ArgumentsApart(gates, rank, g)
    {
      if g in shield {
        forall m <- Reach(gates, rank, g)
          ensures !IsNull(gates, m)
        {
          if m != g {
            var i :| i in gates[g].args && m in Reach(gates, rank, Abs(i));
            ReachInScope(gates, rank, shield, scopes, Abs(i));
          }
        }
      } else {
        forall i <- gates[g].args, j <- gates[g].args | i != j
          ensures Reach(gates, rank, Abs(i)) !! Reach(gates, rank, Abs(j))
        {
          assert Disjoint(scopes, i, j);
          ReachInScope(gates, rank, shield, scopes, Abs(i));
          ReachInScope(gates, rank, shield, scopes, Abs(j));
        }
      }
    }
  }

  lemma SeparateCertified(gates: Gates, rank: Rank)
    requires Acyclic(gates, rank) && 1 !in gates && Separate(gates, rank)
    ensures Certifiable(gates)
  {
    var scopes: Scopes := map n | n in Nodes(gates) :: Reach(gates, rank, n);
    var shield := set g | g in gates && NoNullBelow(gates, rank, g);
    forall g <- gates, i <- gates[g].args | Abs(i) != 1
      ensures Within(scopes, Abs(i), g)
    {
      assert Abs(i) in Nodes(gates);
    }
    forall g <- shield
      ensures Shields(gates, shield, g)
    {
      assert g in Reach(gates, rank, g);
    }
    forall g <- gates | gates[g].kind.Atleast? && g !in shield
      ensures Apart(gates[g], scopes)
    {
    }
    assert Certified(gates, shield, scopes);
  }

  /** Removing gates keeps the others separate. */
  lemma CertifiedTrimmed(gates: Gates, gates': Gates)
    requires forall g <- gates' :: g in gates && gates'[g] == gates[g]
    ensures Certifiable(gates) ==> Certifiable(gates')
  {
    if shield: set<int>, scopes: Scopes :| Certified(gates, shield, scopes) {
      assert Certified(gates', shield, scopes);
    }
  }

  /** In a separate graph a join gives a K/N gate no argument that it already has, and the
      graph stays separate. */
  lemma SeparateJoined(gates: Gates, after: Gates, p: int, index: int, c: int, last: int, rule: PairRule)
    requires Joined(gates, after, p, index, c, last, rule) && last > 0
    ensures Certifiable(gates) ==> Certifiable(after) && !Deviation(gates, p, index, c, rule)
    ensures Certifiable(gates) ==> !Splits(gates[p].Without(index), Carried(index, c))
  {
    if shield: set<int>, scopes: Scopes :| Certified(gates, shield, scopes) {
      JoinedApart(gates, p, index, c, last, shield, scopes);
      JoinedOnce(gates, after, p, index, c, last, rule);
      JoinFrame(gates, after, p, index, c, last, rule);
      JoinedScopes(gates, after, p, index, c, shield, scopes);
    }
  }

  /** The argument that the gate takes over is not among its other arguments. */
  lemma JoinedApart(gates: Gates, p: int, index: int, c: int, last: int, shield: set<int>, scopes: Scopes)
    requires Joinable(gates, p, index, c, last) && Certified(gates, shield, scopes)
    ensures p !in shield && Abs(Carried(index, c)) == Abs(c)
    ensures Abs(c) != 1 ==> Within(scopes, Abs(c), Abs(index)) && Within(scopes, Abs(index), p) && Within(scopes, Abs(c), p)
    ensures gates[p].kind.Atleast? ==> Carried(index, c) !in gates[p].args - {index} && 1 !in gates[p].args && -1 !in gates[p].args
  {
    assert c in gates[Abs(index)].args;
    assert p in shield ==> Shields(gates, shield, p);
    assert Abs(index) in shield ==> Shields(gates, shield, Abs(index));
    assert Abs(index) in scopes;
    var j := Carried(index, c);
    assert Abs(c) != 1 ==> !Disjoint(scopes, index, j);
    assert gates[p].kind.Atleast? && j in gates[p].args && j != index ==> Disjoint(scopes, index, j);
  }

  lemma JoinedOnce(gates: Gates, after: Gates, p: int, index: int, c: int, last: int, rule: PairRule)
    requires Joined(gates, after, p, index, c, last, rule) && last > 0
    requires gates[p].kind.Atleast? ==> Carried(index, c) !in gates[p].args - {index}
    ensures !Deviation(gates, p, index, c, rule) && !Splits(gates[p].Without(index), Carried(index, c))
    ensures p in after && after == gates[p := after[p]]
    ensures after[p].args <= gates[p].args - {index} + {Carried(index, c), 1, -1}
    ensures after[p].kind.Atleast? ==> gates[p].kind.Atleast?
  {
    hide Insert, Gate.Complete, Gate.Partial, Gate.Accepts, Gate.Tidy, Joinable;
    var j := Carried(index, c);
    JoinPrepares(gates, p, index, c, last);
    var erased := gates[p := gates[p].Without(index)];
    InsertCompletes(erased[p], j, Abs(j) in erased, rule);
  }

  lemma JoinedScopes(gates: Gates, after: Gates, p: int, index: int, c: int, shield: set<int>, scopes: Scopes)
    requires Certified(gates, shield, scopes) && p in gates && p !in shield && index in gates[p].args && Abs(index) in gates
    requires p in after && after == gates[p := after[p]]
    requires after[p].args <= gates[p].args - {index} + {Carried(index, c), 1, -1}
    requires after[p].kind.Atleast? ==> gates[p].kind.Atleast?
    requires Abs(c) != 1 ==> Within(scopes, Abs(c), Abs(index)) && Within(scopes, Abs(c), p)
    ensures Certifiable(after)
  {
    var j := Carried(index, c);
    assert after.Keys == gates.Keys;
    forall i <- after[p].args | Abs(i) != 1
      ensures Within(scopes, Abs(i), p)
    {
    }
    if after[p].kind.Atleast? {
      forall i <- after[p].args, k <- after[p].args | i != k
        ensures Disjoint(scopes, i, k)
      {
        assert i in gates[p].args && k in gates[p].args ==> Disjoint(scopes, i, k);
        assert i in gates[p].args && i != index ==> Disjoint(scopes, i, index);
        assert k in gates[p].args && k != index ==> Disjoint(scopes, index, k);
      }
      assert Apart(after[p], scopes);
    }
    forall g <- after
      ensures after[g].kind.Atleast? ==> g in shield || Apart(after[g], scopes)
      ensures g in shield ==> Shields(after, shield, g)
    {
      assert g in shield ==> Shields(gates, shield, g);
    }
    assert Certified(after, shield, scopes);
  }
}
