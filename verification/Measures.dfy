/** The measure by which the removal of pass-through gates terminates. */
module Measures {
  import opened Indices
  import opened Connectives
  import opened Links

  ghost function Total<T(!new)>(s: set<T>, f: T -> nat): nat {
    if s == {} then 0 else
      var x :| x in s;
      f(x) + Total(s - {x}, f)
  }

  lemma {:induction false} TotalRemove<T(!new)>(s: set<T>, f: T -> nat, x: T)
    requires x in s
    ensures Total(s, f) == f(x) + Total(s - {x}, f)
  {
    var y :| y in s && Total(s, f) == f(y) + Total(s - {y}, f);
    if x != y {
      TotalRemove(s - {y}, f, x);
      TotalRemove(s - {x}, f, y);
      assert s - {x} - {y} == s - {y} - {x};
    }
  }

  lemma {:induction false} TotalAtMost<T(!new)>(s: set<T>, f: T -> nat, t: set<T>, f': T -> nat)
    requires s <= t && forall x <- s :: f(x) <= f'(x)
    ensures Total(s, f) <= Total(t, f')
  {
    if s != {} {
      var x :| x in s;
      TotalRemove(s, f, x);
      TotalRemove(t, f', x);
      TotalAtMost(s - {x}, f, t - {x}, f');
    }
  }

  function Power(n: nat): nat {
    if n == 0 then 1 else 2 * Power(n - 1)
  }

  /** The weight of a K/N gate exceeds that of two K/N gates with one argument less. */
  function Votes(gate: Gate): nat {
    if gate.kind.Atleast? then Power(|gate.args|) else 0
  }

  function Height(gates: Gates, rank: Rank, i: int): nat {
    if Abs(i) in gates && Abs(i) in rank then rank[Abs(i)] + 1 else 0
  }

  ghost function Heights(gates: Gates, rank: Rank, args: set<int>): nat {
    Total(args, i => Height(gates, rank, i))
  }

  ghost function TotalVotes(gates: Gates): nat {
    Total(gates.Keys, g => if g in gates then Votes(gates[g]) else 0)
  }

  ghost function TotalHeights(gates: Gates, rank: Rank): nat {
    Total(gates.Keys, g => if g in gates then Heights(gates, rank, gates[g].args) else 0)
  }

  ghost predicate Less(gates: Gates, rank: Rank, gates': Gates, rank': Rank) {
    || TotalVotes(gates) < TotalVotes(gates')
    || (TotalVotes(gates) == TotalVotes(gates') && TotalHeights(gates, rank) < TotalHeights(gates', rank'))
  }

  lemma TotalAdd<T(!new)>(s: set<T>, f: T -> nat, x: T)
    ensures Total(s + {x}, f) <= Total(s, f) + f(x)
  {
    if x in s {
      assert s + {x} == s;
    } else {
      TotalRemove(s + {x}, f, x);
      assert s + {x} - {x} == s;
    }
  }

  lemma {:induction false} PowerGrows(m: nat, n: nat)
    requires m <= n
    ensures 1 <= Power(m) <= Power(n)
  {
    if m < n {
      PowerGrows(m, n - 1);
    } else if m > 0 {
      PowerGrows(m - 1, n - 1);
    }
  }

  lemma TotalSame<T(!new)>(s: set<T>, f: T -> nat, f': T -> nat)
    requires forall x <- s :: f(x) == f'(x)
    ensures Total(s, f) == Total(s, f')
  {
    TotalAtMost(s, f, s, f');
    TotalAtMost(s, f', s, f);
  }

  /** Votes after one gate has changed. */
  lemma VotesUpdate(gates: Gates, g: int, gate: Gate)
    requires g in gates
    ensures TotalVotes(gates[g := gate]) + Votes(gates[g]) == TotalVotes(gates) + Votes(gate)
  {
    var gates' := gates[g := gate];
    var f: int -> nat := h => if h in gates then Votes(gates[h]) else 0;
    var f': int -> nat := h => if h in gates' then Votes(gates'[h]) else 0;
    assert gates'.Keys == gates.Keys;
    TotalRemove(gates.Keys, f, g);
    TotalRemove(gates.Keys, f', g);
    TotalSame(gates.Keys - {g}, f, f');
  }

  /** Votes after one gate has changed and new gates have been added. */
  lemma VotesOfThree(gates: Gates, after: Gates, g: int, last: int)
    requires g in gates && g in after && last + 1 !in gates && last + 2 !in gates && last + 3 !in gates
    requires forall h <- gates :: h in after && (h != g ==> after[h] == gates[h])
    requires forall h <- after :: h in gates || last < h <= last + 3
    ensures TotalVotes(after) + Votes(gates[g])
         <= TotalVotes(gates) + Votes(after[g])
            + (if last + 1 in after then Votes(after[last + 1]) else 0)
            + (if last + 2 in after then Votes(after[last + 2]) else 0)
            + (if last + 3 in after then Votes(after[last + 3]) else 0)
  {
    var f: int -> nat := h => if h in gates then Votes(gates[h]) else 0;
    var f': int -> nat := h => if h in after then Votes(after[h]) else 0;
    TotalRemove(gates.Keys, f, g);
    var rest := gates.Keys - {g};
    forall h <- rest
      ensures f(h) == f'(h)
    {
      assert h in gates && h != g;
    }
    TotalSame(rest, f, f');
    TotalAdd(rest, f', g);
    TotalAdd(rest + {g}, f', last + 1);
    TotalAdd(rest + {g} + {last + 1}, f', last + 2);
    TotalAdd(rest + {g} + {last + 1} + {last + 2}, f', last + 3);
    var all := rest + {g} + {last + 1} + {last + 2} + {last + 3};
    forall h <- after.Keys
      ensures h in all
    {
      assert h in gates || h == last + 1 || h == last + 2 || h == last + 3;
    }
    TotalAtMost(after.Keys, f', all, f');
  }

  lemma HeightsUpdate(gates: Gates, rank: Rank, g: int, gate: Gate)
    requires g in gates
    ensures TotalHeights(gates[g := gate], rank) + Heights(gates, rank, gates[g].args)
         == TotalHeights(gates, rank) + Heights(gates, rank, gate.args)
  {
    var gates' := gates[g := gate];
    var f: int -> nat := h => if h in gates then Heights(gates, rank, gates[h].args) else 0;
    var f': int -> nat := h => if h in gates' then Heights(gates', rank, gates'[h].args) else 0;
    assert gates'.Keys == gates.Keys;
    TotalRemove(gates.Keys, f, g);
    TotalRemove(gates.Keys, f', g);
    forall h <- gates
      ensures Heights(gates', rank, gates'[h].args) == Heights(gates, rank, gates'[h].args)
    {
      TotalSame(gates'[h].args, i => Height(gates', rank, i), i => Height(gates, rank, i));
    }
    TotalSame(gates.Keys - {g}, f, f');
  }

  /** An argument gives way to a lower one. */
  lemma HeightsFall(gates: Gates, rank: Rank, args: set<int>, args': set<int>, index: int, j: int)
    requires index in args && args' <= args - {index} + {j, 1, -1}
    requires 1 !in gates && Height(gates, rank, j) < Height(gates, rank, index)
    ensures Heights(gates, rank, args') < Heights(gates, rank, args)
  {
    var f: int -> nat := i => Height(gates, rank, i);
    TotalRemove(args, f, index);
    var rest := args - {index};
    TotalAdd(rest, f, j);
    TotalAdd(rest + {j}, f, 1);
    TotalAdd(rest + {j} + {1}, f, -1);
    TotalAtMost(args', f, rest + {j} + {1} + {-1}, f);
  }

  lemma VotesRemoval(gates: Gates, gates': Gates)
    requires forall g <- gates' :: g in gates && gates'[g] == gates[g]
    ensures TotalVotes(gates') <= TotalVotes(gates)
  {
    var f: int -> nat := g => if g in gates' then Votes(gates'[g]) else 0;
    var f': int -> nat := g => if g in gates then Votes(gates[g]) else 0;
    forall g <- gates'.Keys
      ensures g in gates.Keys && f(g) <= f'(g)
    {
      assert g in gates';
    }
    TotalAtMost(gates'.Keys, f, gates.Keys, f');
  }

  /** Removing gates that are no arguments never raises the measure. */
  lemma RemovalLowers(gates: Gates, rank: Rank, gates': Gates)
    requires forall g <- gates' :: g in gates && gates'[g] == gates[g]
    ensures TotalVotes(gates') <= TotalVotes(gates) && TotalHeights(gates', rank) <= TotalHeights(gates, rank)
  {
    VotesRemoval(gates, gates');
    var h: int -> nat := g => if g in gates' then Heights(gates', rank, gates'[g].args) else 0;
    var h': int -> nat := g => if g in gates then Heights(gates, rank, gates[g].args) else 0;
    forall g <- gates'.Keys
      ensures g in gates.Keys && h(g) <= h'(g)
    {
      assert g in gates';
      var k: int -> nat := i => Height(gates', rank, i);
      var k': int -> nat := i => Height(gates, rank, i);
      TotalAtMost(gates'[g].args, k, gates'[g].args, k');
    }
    TotalAtMost(gates'.Keys, h, gates.Keys, h');
  }
}
