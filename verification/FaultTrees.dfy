/** Fault trees of the generator script: gates with arguments and parents, the collection of
    ancestors, and the topological sort. */
module FaultTrees {
  import Sets

  type Links = map<int, set<int>>
  type Rank = map<int, nat>

  /** A gate is a parent of its arguments, and only of them. */
  ghost predicate Linked(arguments: Links, parents: Links) {
    && arguments.Keys == parents.Keys
    && (forall g <- arguments :: arguments[g] <= arguments.Keys)
    && (forall g <- parents :: parents[g] <= parents.Keys)
    && forall g <- arguments, h <- arguments :: h in arguments[g] <==> g in parents[h]
  }

  /** The ranks show that no gate is its own descendant. */
  ghost predicate Acyclic(arguments: Links, rank: Rank) {
    rank.Keys == arguments.Keys && forall g <- arguments, h <- arguments[g] :: h in rank && rank[h] < rank[g]
  }

  ghost predicate Cyclic(arguments: Links) {
    forall rank: Rank :: !Acyclic(arguments, rank)
  }

  ghost predicate ClosedUpwards(s: set<int>, parents: Links) {
    forall g <- s :: g in parents && parents[g] <= s
  }

  /** The least set with the gate and all parents of its members. */
  ghost predicate AreAncestors(s: set<int>, g: int, parents: Links) {
    g in s && ClosedUpwards(s, parents) && forall t: set<int> :: g in t && ClosedUpwards(t, parents) ==> s <= t
  }

  ghost function Ancestors(g: int, parents: Links): set<int> {
    set a | a in parents && forall t: set<int> :: g in t && ClosedUpwards(t, parents) ==> a in t
  }

  lemma AncestorsAre(g: int, parents: Links)
    requires KnowsParents(parents) && g in parents
    ensures AreAncestors(Ancestors(g, parents), g, parents)
  {
    var ancestors := Ancestors(g, parents);
    assert ClosedUpwards(parents.Keys, parents);
    forall a <- ancestors
      ensures parents[a] <= ancestors
    {
      forall p <- parents[a], t: set<int> | g in t && ClosedUpwards(t, parents)
        ensures p in t
      {
        assert a in t;
      }
    }
    forall t: set<int> | g in t && ClosedUpwards(t, parents)
      ensures ancestors <= t
    {
      forall a <- ancestors
        ensures a in t
      {
      }
    }
  }

  lemma AncestorsUnique(s: set<int>, g: int, parents: Links)
    requires AreAncestors(s, g, parents) && KnowsParents(parents) && g in parents
    ensures s == Ancestors(g, parents)
  {
    AncestorsAre(g, parents);
  }

  /** A new gate without parents and arguments is no ancestor. */
  lemma AncestorsWithNew(g: int, parents: Links, x: int)
    requires KnowsParents(parents) && g in parents && x !in parents
    ensures Ancestors(g, parents[x := {}]) == Ancestors(g, parents) && x !in Ancestors(g, parents)
  {
    AncestorsAre(g, parents);
    var ancestors := Ancestors(g, parents);
    var parents' := parents[x := {}];
    forall t: set<int> | g in t && ClosedUpwards(t, parents')
      ensures ancestors <= t
    {
      assert ClosedUpwards(t - {x}, parents) by {
        forall h <- t - {x}
          ensures h in parents && parents[h] <= t - {x}
        {
          assert parents'[h] == parents[h];
        }
      }
    }
    assert AreAncestors(ancestors, g, parents');
    assert KnowsParents(parents');
    AncestorsUnique(ancestors, g, parents');
  }

  /** Ranks after a new argument that is not among the ancestors of the gate. */
  ghost function Raised(rank: Rank, ancestors: set<int>, x: int): Rank
    requires x in rank
  {
    map a <- rank :: if a in ancestors then rank[a] + rank[x] + 1 else rank[a]
  }

  lemma AddLink(arguments: Links, parents: Links, g: int, x: int)
    requires Linked(arguments, parents) && g in arguments && x in arguments
    ensures Linked(arguments[g := arguments[g] + {x}], parents[x := parents[x] + {g}])
  {
  }

  /** An argument that is not among the ancestors closes no cycle. */
  lemma StaysAcyclic(arguments: Links, parents: Links, rank: Rank, ancestors: set<int>, g: int, x: int)
    requires Linked(arguments, parents) && Acyclic(arguments, rank) && g in arguments && x in arguments
    requires g in ancestors && ClosedUpwards(ancestors, parents) && x !in ancestors
    ensures Acyclic(arguments[g := arguments[g] + {x}], Raised(rank, ancestors, x))
  {
    var arguments' := arguments[g := arguments[g] + {x}];
    var rank' := Raised(rank, ancestors, x);
    forall p <- arguments', q <- arguments'[p]
      ensures q in rank' && rank'[q] < rank'[p]
    {
      if !(p == g && q == x) {
        assert q in arguments[p];
        assert p in parents[q];
      }
    }
  }

  lemma RankedGates(arguments: Links, rank: Rank)
    requires Acyclic(arguments, rank)
    ensures rank.Keys == arguments.Keys
  {
  }

  /** An argument that is among the ancestors closes a cycle. */
  lemma ClosesCycle(arguments: Links, parents: Links, ancestors: set<int>, g: int, x: int)
    requires Linked(arguments, parents) && AreAncestors(ancestors, g, parents) && g in arguments && x in ancestors
    ensures Cyclic(arguments[g := arguments[g] + {x}])
  {
    var arguments' := arguments[g := arguments[g] + {x}];
    forall rank: Rank
      ensures !Acyclic(arguments', rank)
    {
      if Acyclic(arguments', rank) {
        assert g in arguments' && x in arguments'[g];
        NotBelow(arguments, parents, rank, ancestors, g);
      }
    }
  }

  /** The ancestors have no lower ranks than the gate. */
  lemma NotBelow(arguments: Links, parents: Links, rank: Rank, ancestors: set<int>, g: int)
    requires Linked(arguments, parents) && AreAncestors(ancestors, g, parents) && g in arguments && rank.Keys == arguments.Keys
    requires forall p <- arguments, q <- arguments[p] :: q in rank && rank[q] < rank[p]
    ensures forall a <- ancestors :: a in rank && rank[g] <= rank[a]
  {
    var above := set a | a in rank && rank[g] <= rank[a];
    forall a <- above
      ensures a in parents && parents[a] <= above
    {
      forall p <- parents[a]
        ensures p in above
      {
        assert a in arguments[p];
      }
    }
    assert ClosedUpwards(above, parents);
  }

  /** The ancestors of a gate stay the same when it gets an argument that is none of them. */
  lemma SameAncestors(parents: Links, ancestors: set<int>, g: int, x: int)
    requires AreAncestors(ancestors, g, parents) && x in parents && x !in ancestors
    ensures AreAncestors(ancestors, g, parents[x := parents[x] + {g}])
  {
    var parents' := parents[x := parents[x] + {g}];
    forall t: set<int> | g in t && ClosedUpwards(t, parents')
      ensures ancestors <= t
    {
      assert ClosedUpwards(t, parents);
    }
  }

  /** A gate without argument gates is no ancestor of another gate. */
  lemma LeafIsNoAncestor(arguments: Links, parents: Links, ancestors: set<int>, g: int, x: int)
    requires Linked(arguments, parents) && AreAncestors(ancestors, g, parents) && g in arguments
    requires x in arguments && arguments[x] == {} && x != g
    ensures x !in ancestors
  {
    var without := ancestors - {x};
    forall h <- without
      ensures h in parents && parents[h] <= without
    {
      assert x !in parents[h];
    }
    assert ClosedUpwards(without, parents);
  }

  ghost predicate KnowsParents(parents: Links) {
    forall g <- parents :: parents[g] <= parents.Keys
  }

  lemma GateIsAncestor(g: int, parents: Links, ancestors: set<int>)
    requires AreAncestors(ancestors, g, parents)
    ensures g in ancestors && ClosedUpwards(ancestors, parents)
  {
  }

  lemma KnownParents(arguments: Links, parents: Links)
    requires Linked(arguments, parents)
    ensures KnowsParents(parents) && parents.Keys == arguments.Keys
  {
  }

  /** Ancestors found so far, and parents still to be looked at. */
  ghost predicate Gathered(ancestors: set<int>, queue: seq<int>, g: int, parents: Links) {
    && KnowsParents(parents) && g in ancestors && ancestors <= parents.Keys
    && (forall q <- queue :: q in parents)
    && (forall a <- ancestors, p <- parents[a] :: p in ancestors || p in queue)
    && forall t: set<int> :: g in t && ClosedUpwards(t, parents) ==> ancestors <= t && forall q <- queue :: q in t
  }

  lemma GatherSkip(ancestors: set<int>, queue: seq<int>, g: int, parents: Links)
    requires Gathered(ancestors, queue, g, parents) && queue != [] && queue[0] in ancestors
    ensures Gathered(ancestors, queue[1..], g, parents)
  {
    assert queue == [queue[0]] + queue[1..];
  }

  lemma GatherAdd(ancestors: set<int>, queue: seq<int>, g: int, parents: Links, more: seq<int>)
    requires Gathered(ancestors, queue, g, parents) && queue != [] && queue[0] !in ancestors
    requires queue[0] in parents
    requires forall x :: x in more <==> x in parents[queue[0]]
    ensures Gathered(ancestors + {queue[0]}, queue[1..] + more, g, parents)
    ensures |parents.Keys - (ancestors + {queue[0]})| < |parents.Keys - ancestors|
  {
    var p := queue[0];
    assert queue == [p] + queue[1..];
    assert parents.Keys - ancestors == (parents.Keys - (ancestors + {p})) + {p};
    forall x <- more
      ensures x in parents
    {
      assert x in parents[p];
    }
    forall t: set<int> | g in t && ClosedUpwards(t, parents)
      ensures ancestors + {p} <= t && forall q <- queue[1..] + more :: q in t
    {
      assert p in t;
      assert parents[p] <= t;
    }
  }

  lemma GatherEnd(ancestors: set<int>, g: int, parents: Links)
    requires Gathered(ancestors, [], g, parents)
    ensures AreAncestors(ancestors, g, parents)
  {
    forall a <- ancestors
      ensures parents[a] <= ancestors
    {
      forall p <- parents[a]
        ensures p in ancestors
      {
        assert p !in [];
      }
    }
  }

  class FaultTree {
    /** The gates in the order of their construction. */
    var gates: seq<int>
    var gArguments: Links
    var parents: Links
    var basicEvents: nat
    var bArguments: map<int, set<int>>
    ghost var rank: Rank

    ghost predicate Valid()
      reads this
    {
      Structured() && Acyclic(gArguments, rank)
    }

    ghost predicate Structured()
      reads this
    {
      && Linked(gArguments, parents)
      && (forall i, j | 0 <= i < j < |gates| :: gates[i] != gates[j])
      && (forall g :: g in gates <==> g in gArguments.Keys)
      && bArguments.Keys == gArguments.Keys
      && (forall g <- gArguments :: 0 < g <= |gates|)
    }

    constructor ()
      ensures Valid() && gates == [] && gArguments == map[] && basicEvents == 0
    {
      gates, gArguments, parents, basicEvents, bArguments, rank := [], map[], map[], 0, map[], map[];
    }

    method ConstructGate() returns (g: int)
      requires Valid()
      modifies this
      ensures Valid() && g !in old(gArguments) && gates == old(gates) + [g] && basicEvents == old(basicEvents)
      ensures gArguments == old(gArguments)[g := {}] && parents == old(parents)[g := {}] && bArguments == old(bArguments)[g := {}]
      ensures rank == old(rank)[g := 0]
    {
      g := |gates| + 1;
      assert g !in gArguments && forall h <- gArguments :: g !in gArguments[h] && g !in parents[h];
      gates := gates + [g];
      gArguments := gArguments[g := {}];
      parents := parents[g := {}];
      bArguments := bArguments[g := {}];
      rank := rank[g := 0];
    }

    /** Gates stay linked with any argument. The tree stays acyclic, and the ancestors of the
        gate the same, exactly if the argument is none of them. */
    method AddArgument(g: int, x: int)
      requires Valid() && g in gArguments && x in gArguments
      modifies this`gArguments, this`parents, this`rank
      ensures Structured() && gArguments == old(gArguments)[g := old(gArguments)[g] + {x}]
      ensures parents == old(parents)[x := old(parents)[x] + {g}]
      ensures x !in old(Ancestors(g, parents)) ==> Valid() && Ancestors(g, parents) == old(Ancestors(g, parents))
      ensures x in old(Ancestors(g, parents)) ==> Cyclic(gArguments)
    {
      hide Linked, AreAncestors, Ancestors, ClosedUpwards, KnowsParents, Acyclic, Cyclic;
      ghost var ancestors := Ancestors(g, parents);
      KnownParents(gArguments, parents);
      AncestorsAre(g, parents);
      GateIsAncestor(g, parents, ancestors);
      AddLink(gArguments, parents, g, x);
      if x !in ancestors {
        StaysAcyclic(gArguments, parents, rank, ancestors, g, x);
        SameAncestors(parents, ancestors, g, x);
        RankedGates(gArguments, rank);
      } else {
        ClosesCycle(gArguments, parents, ancestors, g, x);
      }
      parents := parents[x := parents[x] + {g}];
      gArguments := gArguments[g := gArguments[g] + {x}];
      if x !in ancestors {
        rank := Raised(rank, ancestors, x);
        KnownParents(gArguments, parents);
        AncestorsUnique(ancestors, g, parents);
      }
    }

    function NumArguments(g: int): nat
      reads this
      requires g in gArguments && g in bArguments
    {
      |gArguments[g]| + |bArguments[g]|
    }

    method AddBasicArgument(g: int, b: int)
      requires Valid() && g in gArguments
      modifies this`bArguments
      ensures Valid() && bArguments == old(bArguments)[g := old(bArguments)[g] + {b}]
    {
      bArguments := bArguments[g := bArguments[g] + {b}];
    }

    method GetAncestors(g: int) returns (ancestors: set<int>)
      requires Valid() && g in gArguments
      ensures AreAncestors(ancestors, g, parents)
    {
      hide Linked, Acyclic;
      KnownParents(gArguments, parents);
      ancestors := {g};
      var queue := Sets.Listed(parents[g]);
      while queue != []
        invariant Gathered(ancestors, queue, g, parents)
        decreases |parents.Keys - ancestors|, |queue|
      {
        var p, rest := queue[0], queue[1..];
        assert p in queue;
        assert p in parents;
        if p in ancestors {
          GatherSkip(ancestors, queue, g, parents);
          queue := rest;
        } else {
          var more := Sets.Listed(parents[p]);
          GatherAdd(ancestors, queue, g, parents, more);
          ancestors := ancestors + {p};
          queue := rest + more;
        }
      }
      GatherEnd(ancestors, g, parents);
    }

    /** The gates below the roots, every gate before its arguments. */
    method ToposortGates(roots: seq<int>) returns (sorted: seq<int>)
      requires Valid() && forall r <- roots :: r in gArguments
      ensures Sorted(gArguments, sorted)
      ensures forall g :: g in sorted <==> exists r <- roots :: Reaches(gArguments, r, g)
      ensures |sorted| == |gates| <==> forall g <- gates :: g in sorted
    {
      hide Linked, Sorted, Reaches;
      var marks: Marks := map g | g in gArguments :: Unvisited;
      sorted := [];
      StartSort(gArguments, marks);
      for i := 0 to |roots|
        invariant SortedSoFar(gArguments, marks, sorted, {})
        invariant forall j | 0 <= j < i :: roots[j] in sorted
        invariant forall g <- sorted :: exists r <- roots :: Reaches(gArguments, r, g)
      {
        marks, sorted := Visit(roots[i], marks, sorted, {});
        assert roots[i] in roots;
      }
      forall g, r | r in roots && Reaches(gArguments, r, g)
        ensures g in sorted
      {
        SortedReaches(gArguments, sorted, r, g);
      }
      SameLength(gates, gArguments, sorted);
    }

    /** Lists the gates below a gate, and then the gate before them. */
    method Visit(g: int, marks: Marks, sorted: seq<int>, ghost above: set<int>) returns (marks': Marks, sorted': seq<int>)
      requires Valid() && g in gArguments && g in rank && SortedSoFar(gArguments, marks, sorted, above)
      requires forall a <- above :: a in rank && rank[g] < rank[a]
      ensures SortedSoFar(gArguments, marks', sorted', above) && g in sorted'
      ensures forall x <- sorted :: x in sorted'
      ensures forall x <- sorted' :: x in sorted || Reaches(gArguments, g, x)
      decreases rank[g]
    {
      hide Linked, Sorted, Reaches;
      assert marks[g] != Temporary;
      marks', sorted' := marks, sorted;
      ReachesItself(gArguments, g);
      if marks[g].Unvisited? {
        marks' := marks'[g := Temporary];
        var arguments := Sets.Listed(gArguments[g]);
        for i := 0 to |arguments|
          invariant SortedSoFar(gArguments, marks', sorted', above + {g})
          invariant forall j | 0 <= j < i :: arguments[j] in sorted'
          invariant forall x <- sorted :: x in sorted'
          invariant forall x <- sorted' :: x in sorted || Reaches(gArguments, g, x)
        {
          var argument := arguments[i];
          assert argument in arguments;
          assert argument in gArguments[g];
          ArgumentReaches(gArguments, g, argument);
          ghost var before := sorted';
          marks', sorted' := Visit(argument, marks', sorted', above + {g});
          forall j | 0 <= j < i + 1
            ensures arguments[j] in sorted'
          {
            var x := arguments[j];
            assert j == i || x in before;
            assert x in sorted';
          }
        }
        forall x <- gArguments[g]
          ensures x in sorted'
        {
          assert x in arguments;
        }
        FinishGate(gArguments, marks', sorted', above, g);
        marks' := marks'[g := Permanent];
        sorted' := [g] + sorted';
      }
    }
  }

  datatype Mark = Unvisited | Temporary | Permanent

  type Marks = map<int, Mark>

  ghost predicate Sorted(arguments: Links, sorted: seq<int>) {
    && (forall i, j | 0 <= i < j < |sorted| :: sorted[i] != sorted[j])
    && forall i | 0 <= i < |sorted| :: sorted[i] in arguments && forall x <- arguments[sorted[i]] :: x in sorted[i + 1..]
  }

  ghost predicate ClosedDownwards(s: set<int>, arguments: Links) {
    forall g <- s :: g in arguments && arguments[g] <= s
  }

  /** Every set that has the one gate and the arguments of its members has the other gate. */
  ghost predicate Reaches(arguments: Links, g: int, h: int) {
    forall t: set<int> :: g in t && ClosedDownwards(t, arguments) ==> h in t
  }

  ghost predicate SortedSoFar(arguments: Links, marks: Marks, sorted: seq<int>, above: set<int>) {
    && marks.Keys == arguments.Keys && Sorted(arguments, sorted) && above <= arguments.Keys
    && forall g <- arguments ::
         && (marks[g].Temporary? <==> g in above)
         && (marks[g].Permanent? <==> g in sorted)
  }

  lemma StartSort(arguments: Links, marks: Marks)
    requires marks.Keys == arguments.Keys && forall g <- marks :: marks[g].Unvisited?
    ensures SortedSoFar(arguments, marks, [], {})
  {
  }

  lemma ReachesItself(arguments: Links, g: int)
    ensures Reaches(arguments, g, g)
  {
  }

  lemma ArgumentReaches(arguments: Links, g: int, x: int)
    requires g in arguments && x in arguments[g]
    ensures forall y :: Reaches(arguments, x, y) ==> Reaches(arguments, g, y)
  {
    forall y, t: set<int> | Reaches(arguments, x, y) && g in t && ClosedDownwards(t, arguments)
      ensures y in t
    {
      assert arguments[g] <= t;
    }
  }

  lemma FinishGate(arguments: Links, marks: Marks, sorted: seq<int>, above: set<int>, g: int)
    requires SortedSoFar(arguments, marks, sorted, above + {g}) && g in arguments && g !in above
    requires forall x <- arguments[g] :: x in sorted
    ensures SortedSoFar(arguments, marks[g := Permanent], [g] + sorted, above)
  {
    var longer := [g] + sorted;
    assert longer[1..] == sorted;
    forall i | 0 < i < |longer|
      ensures longer[i] in arguments && forall x <- arguments[longer[i]] :: x in longer[i + 1..]
    {
      assert longer[i] == sorted[i - 1] && longer[i + 1..] == sorted[i..];
    }
  }

  /** A sorted list has all gates below its gates. */
  lemma SortedReaches(arguments: Links, sorted: seq<int>, r: int, g: int)
    requires Sorted(arguments, sorted) && r in sorted && Reaches(arguments, r, g)
    ensures g in sorted
  {
    var all := set x | x in sorted;
    forall x <- all
      ensures x in arguments && arguments[x] <= all
    {
      var i :| 0 <= i < |sorted| && sorted[i] == x;
      forall y <- arguments[x]
        ensures y in sorted
      {
        assert y in sorted[i + 1..];
      }
    }
    assert ClosedDownwards(all, arguments);
    assert g in all;
  }

  lemma {:induction false} DistinctSize(s: seq<int>)
    requires forall i, j | 0 <= i < j < |s| :: s[i] != s[j]
    ensures |Sets.Elements(s)| == |s|
  {
    if s != [] {
      var last := |s| - 1;
      DistinctSize(s[..last]);
      Sets.ElementsAre(s[..last], s[last]);
    }
  }

  lemma SameLength(gates: seq<int>, arguments: Links, sorted: seq<int>)
    requires Sorted(arguments, sorted) && forall i, j | 0 <= i < j < |gates| :: gates[i] != gates[j]
    requires forall g :: g in gates <==> g in arguments.Keys
    ensures |sorted| == |gates| <==> forall g <- gates :: g in sorted
  {
    DistinctSize(gates);
    DistinctSize(sorted);
    forall x
      ensures x in Sets.Elements(gates) <==> x in gates
      ensures x in Sets.Elements(sorted) <==> x in sorted
    {
      Sets.ElementsAre(gates, x);
      Sets.ElementsAre(sorted, x);
    }
    forall x <- Sets.Elements(sorted)
      ensures x in Sets.Elements(gates)
    {
      assert x in arguments.Keys;
    }
    Sets.Subset(Sets.Elements(sorted), Sets.Elements(gates));
    if forall g <- gates :: g in sorted {
      forall x <- Sets.Elements(gates)
        ensures x in Sets.Elements(sorted)
      {
        assert x in gates;
      }
      assert Sets.Elements(gates) == Sets.Elements(sorted);
    }
    if |sorted| == |gates| {
      forall g <- gates
        ensures g in sorted
      {
        assert g in Sets.Elements(gates);
        assert g in Sets.Elements(sorted);
      }
    }
  }
}
