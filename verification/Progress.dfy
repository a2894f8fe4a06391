/** What the removal of pass-through gates keeps from step to step. */
module Progress {
  import opened Indices
  import opened Sets
  import opened Connectives
  import opened Links
  import opened Laws
  import opened Values
  import opened Measures
  import opened Joining
  import opened Separation

  predicate Orphan(parents: Parents, g: int) {
    g in parents && parents[g] == {}
  }

  /** Gates stay pass-through gates, gates without parents get none, and indices are never
      used again. */
  ghost predicate Advanced(gates: Gates, parents: Parents, last: int, gates': Gates, parents': Parents, last': int) {
    && last <= last' && Bounded(gates, last) && Bounded(gates', last')
    && (forall g <- gates' :: g in gates || g > last)
    && (forall g <- gates' :: IsNull(gates, g) ==> IsNull(gates', g))
    && (forall g <- gates' :: g in gates && Orphan(parents, g) ==> Orphan(parents', g))
    && (Certifiable(gates) ==> Certifiable(gates'))
  }

  /** The pass-through gates that have parents are not new, but for one gate. */
  ghost predicate Quiet(gates: Gates, parents: Parents, gates': Gates, parents': Parents, but: int) {
    forall g <- gates' :: IsNull(gates', g) && !Orphan(parents', g) && g != but ==> IsNull(gates, g) && !Orphan(parents, g)
  }

  lemma AdvancedTwice(gates: Gates, parents: Parents, last: int, gates': Gates, parents': Parents, last': int,
                      gates'': Gates, parents'': Parents, last'': int)
    requires Advanced(gates, parents, last, gates', parents', last')
    requires Advanced(gates', parents', last', gates'', parents'', last'')
    ensures Advanced(gates, parents, last, gates'', parents'', last'')
    ensures forall g :: g in gates && g in gates'' ==> g in gates'
  {
  }

  ghost predicate NotMore(gates: Gates, rank: Rank, gates': Gates, rank': Rank) {
    Less(gates, rank, gates', rank')
    || (TotalVotes(gates) == TotalVotes(gates') && TotalHeights(gates, rank) == TotalHeights(gates', rank'))
  }

  /** A graph with the ranks that show it to be acyclic. */
  datatype Snapshot = Snapshot(gates: Gates, parents: Parents, last: int, rank: Rank)

  /** One step of the removal: a gate takes over the argument of a pass-through gate, or gates
      that nothing refers to disappear. */
  datatype Step =
    | Join(before: Snapshot, p: int, index: int, c: int, after: Snapshot)
    | Removal(before: Snapshot, after: Snapshot)

  ghost predicate Taken(step: Step, rule: PairRule) {
    match step
    case Join(s, p, index, c, t) => Joined(s.gates, t.gates, p, index, c, s.last, rule) && s.last <= t.last
    case Removal(s, t) => Trimmed(s.gates, s.parents, t.gates, t.parents) && s.last == t.last && s.rank == t.rank
  }

  /** The steps lead from one graph to the other. */
  ghost predicate Leads(s: Snapshot, steps: seq<Step>, t: Snapshot, rule: PairRule) {
    && (forall k | 0 <= k < |steps| :: Taken(steps[k], rule))
    && (forall k | 0 < k < |steps| :: steps[k].before == steps[k - 1].after)
    && if steps == [] then s == t else steps[0].before == s && steps[|steps| - 1].after == t
  }

  /** The step drops the wrong argument of a K/N gate. */
  predicate Wrong(step: Step, rule: PairRule) {
    step.Join? && Deviation(step.before.gates, step.p, step.index, step.c, rule)
  }

  predicate Deviated(steps: seq<Step>, rule: PairRule) {
    exists step <- steps :: Wrong(step, rule)
  }

  lemma LeadsTwice(s: Snapshot, first: seq<Step>, t: Snapshot, second: seq<Step>, u: Snapshot, rule: PairRule)
    requires Leads(s, first, t, rule) && Leads(t, second, u, rule)
    ensures Leads(s, first + second, u, rule)
  {
    var steps := first + second;
    forall k | 0 < k < |steps|
      ensures steps[k].before == steps[k - 1].after
    {
    }
  }

  lemma DeviatedTwice(first: seq<Step>, second: seq<Step>, rule: PairRule)
    ensures Deviated(first + second, rule) <==> Deviated(first, rule) || Deviated(second, rule)
  {
    assert forall step :: step in first + second <==> step in first || step in second;
  }

  /** No step goes wrong if the rule is that of the comments. */
  lemma DocumentedSteps(steps: seq<Step>)
    ensures !Deviated(steps, AsDocumented)
  {
  }

  /** A run from one graph to another: it keeps the functions of all gates unless one of its
      steps drops a wrong argument, which cannot happen if the graph is separate. */
  ghost predicate Run(s: Snapshot, t: Snapshot, but: int, steps: seq<Step>, rule: PairRule) {
    && Advanced(s.gates, s.parents, s.last, t.gates, t.parents, t.last)
    && Quiet(s.gates, s.parents, t.gates, t.parents, but)
    && NotMore(t.gates, t.rank, s.gates, s.rank)
    && Leads(s, steps, t, rule)
    && (!Deviated(steps, rule) ==> SameValues(s.gates, s.rank, t.gates, t.rank))
    && (Certifiable(s.gates) ==> !Deviated(steps, rule))
  }

  lemma RunTwice(s: Snapshot, t: Snapshot, u: Snapshot, but: int, first: seq<Step>, second: seq<Step>, rule: PairRule)
    requires Run(s, t, but, first, rule) && Run(t, u, 0, second, rule) && 0 !in u.gates
    ensures Run(s, u, but, first + second, rule)
  {
    hide Less, Certifiable, Leads, Deviated;
    AdvancedTwice(s.gates, s.parents, s.last, t.gates, t.parents, t.last, u.gates, u.parents, u.last);
    NotMoreTwice(s, t, u);
    LeadsTwice(s, first, t, second, u, rule);
    DeviatedTwice(first, second, rule);
    if !Deviated(first + second, rule) {
      ValuesCompose(s.gates, s.rank, t.gates, t.rank, u.gates, u.rank);
    }
  }

  lemma NotMoreTwice(s: Snapshot, t: Snapshot, u: Snapshot)
    requires NotMore(t.gates, t.rank, s.gates, s.rank) && NotMore(u.gates, u.rank, t.gates, t.rank)
    ensures NotMore(u.gates, u.rank, s.gates, s.rank)
    ensures Less(t.gates, t.rank, s.gates, s.rank) ==> Less(u.gates, u.rank, s.gates, s.rank)
  {
  }

  /** Once the one gate has no parents left, it is no exception any more. */
  lemma RunSettled(s: Snapshot, t: Snapshot, but: int, steps: seq<Step>, rule: PairRule)
    requires Run(s, t, but, steps, rule) && (IsNull(t.gates, but) ==> Orphan(t.parents, but))
    ensures Run(s, t, 0, steps, rule)
  {
    hide Advanced, NotMore, SameValues, Certifiable, Leads, Deviated;
  }

  lemma RunNone(s: Snapshot, rule: PairRule)
    requires Acyclic(s.gates, s.rank) && Bounded(s.gates, s.last)
    ensures Run(s, s, 0, [], rule)
  {
  }

  lemma SoundFacts(gates: Gates, parents: Parents, variables: set<int>, nodeIndex: int, rank: Rank)
    requires Sound(gates, parents, variables, nodeIndex, rank)
    ensures Bounded(gates, nodeIndex) && nodeIndex > 0 && 0 !in gates && 1 !in gates && Acyclic(gates, rank)
    ensures Grounded(gates, {1} + variables) && forall n <- {1} + variables :: n !in gates
    ensures forall g <- gates :: g in parents && gates[g].Tidy()
    ensures forall g <- gates, p <- parents[g] :: p in gates && p != g && Occurs(gates[p].args, g)
  {
    forall g <- gates, i <- gates[g].args
      ensures Abs(i) in gates || Abs(i) in {1} + variables
    {
      Existing(gates, parents, variables, nodeIndex, g, i);
    }
    forall g <- gates, p <- parents[g]
      ensures p in gates && p != g && Occurs(gates[p].args, g)
    {
      assert g in gates[p].args || -g in gates[p].args;
    }
  }

  lemma NoSteps(s: Snapshot, rule: PairRule)
    ensures Leads(s, [], s, rule) && !Deviated([], rule)
  {
  }

  /** Linked graphs can be certified exactly if they are separate. */
  lemma SeparateIs(gates: Gates, parents: Parents, variables: set<int>, nodeIndex: int, rank: Rank)
    requires Sound(gates, parents, variables, nodeIndex, rank)
    ensures Acyclic(gates, rank) && (Separate(gates, rank) <==> Certifiable(gates))
  {
    hide Separate, Certifiable, Linked;
    SoundFacts(gates, parents, variables, nodeIndex, rank);
    forall g <- gates | gates[g].kind.Atleast?
      ensures 1 !in gates[g].args && -1 !in gates[g].args
    {
      KindOfConstant(gates, parents, variables, nodeIndex, rank, g);
      NoConstant(gates, parents, variables, nodeIndex, rank, g);
    }
    SeparateExactly(gates, rank);
  }

  /** A pass-through argument can be joined. */
  lemma CanJoin(gates: Gates, parents: Parents, variables: set<int>, nodeIndex: int, rank: Rank, p: int, index: int, c: int)
    requires Sound(gates, parents, variables, nodeIndex, rank) && AllComplete(gates)
    requires p in gates && index in gates[p].args && Abs(index) in gates && gates[Abs(index)].kind.Null?
    requires c in gates[Abs(index)].args
    ensures Joinable(gates, p, index, c, nodeIndex)
    ensures p in rank && Abs(Carried(index, c)) in parents
    ensures Abs(c) in gates ==> Abs(c) in rank && rank[Abs(c)] < rank[p]
    ensures !gates[p].constant
  {
    SoundFacts(gates, parents, variables, nodeIndex, rank);
    ArgumentNodes(gates, parents, variables, nodeIndex, rank, p);
    var passing := gates[Abs(index)];
    ArgumentNodes(gates, parents, variables, nodeIndex, rank, Abs(index));
    assert passing.Complete() && |passing.args| == 1;
    assert {c} <= passing.args;
    Subset({c}, passing.args);
  }

  /** A join gives no parents to a gate without parents. */
  lemma JoinLeavesOrphans(gates: Gates, parents: Parents, variables: set<int>, last: int, rank: Rank,
                          after: Gates, parents': Parents, last': int, rank': Rank, p: int, index: int, c: int, m: int, rule: PairRule)
    requires Sound(gates, parents, variables, last, rank) && Sound(after, parents', variables, last', rank')
    requires Joined(gates, after, p, index, c, last, rule) && last > 0 && m in gates && m in after
    ensures m in parents && m in parents' && (Orphan(parents, m) ==> Orphan(parents', m))
  {
    hide Sound, Joined, Joinable, Splits, IsSplit;
    JoinFrame(gates, after, p, index, c, last, rule);
    JoinArgument(gates, after, p, index, c, last, rule);
    ParentsAre(gates, parents, variables, last, rank, m);
    ParentsAre(after, parents', variables, last', rank', m);
    if parents'[m] != {} {
      var h := Some(parents'[m]);
      var i := if m in after[h].args then m else -m;
      if h == p || h !in gates {
        JoinSources(gates, after, p, index, c, last, h, i, rule);
        if i in gates[p].args {
          assert Occurs(gates[p].args, m);
        } else {
          assert Occurs(gates[Abs(index)].args, m);
        }
      } else {
        assert Occurs(gates[h].args, m);
      }
    }
  }

  lemma ParentsAre(gates: Gates, parents: Parents, variables: set<int>, last: int, rank: Rank, m: int)
    requires Sound(gates, parents, variables, last, rank) && m in gates
    ensures m in parents && 1 < m <= last
    ensures forall h <- gates :: Occurs(gates[h].args, m) ==> h in parents[m]
    ensures forall h <- parents[m] :: h in gates && Occurs(gates[h].args, m)
  {
    SoundFacts(gates, parents, variables, last, rank);
    forall h
      ensures h in parents[m] <==> h in gates && Occurs(gates[h].args, m)
    {
    }
  }

  lemma JoinArgument(gates: Gates, after: Gates, p: int, index: int, c: int, last: int, rule: PairRule)
    requires Joined(gates, after, p, index, c, last, rule)
    ensures p in gates && Abs(index) in gates && gates[Abs(index)].args == {c} && Abs(c) <= last
    ensures AllComplete(gates) && Bounded(gates, last)
  {
  }

  lemma JoinAdvances(gates: Gates, parents: Parents, variables: set<int>, last: int, rank: Rank,
                     after: Gates, parents': Parents, last': int, rank': Rank, p: int, index: int, c: int, rule: PairRule)
    requires Sound(gates, parents, variables, last, rank) && Sound(after, parents', variables, last', rank')
    requires Joined(gates, after, p, index, c, last, rule) && last <= last'
    ensures Advanced(gates, parents, last, after, parents', last')
    ensures Quiet(gates, parents, after, parents', p)
  {
    hide Joined, Certifiable, Linked;
    SoundFacts(gates, parents, variables, last, rank);
    SoundFacts(after, parents', variables, last', rank');
    JoinFrame(gates, after, p, index, c, last, rule);
    forall g <- after | g in gates && Orphan(parents, g)
      ensures Orphan(parents', g)
    {
      JoinLeavesOrphans(gates, parents, variables, last, rank, after, parents', last', rank', p, index, c, g, rule);
    }
    SeparateJoined(gates, after, p, index, c, last, rule);
  }

  /** Some gates have been removed with their links. */
  ghost predicate Trimmed(gates: Gates, parents: Parents, gates': Gates, parents': Parents) {
    && (forall g <- gates' :: g in gates && gates'[g] == gates[g])
    && (forall g <- gates' :: g in gates && Orphan(parents, g) ==> Orphan(parents', g))
  }

  lemma OneStep(step: Step, rule: PairRule)
    requires Taken(step, rule)
    ensures Leads(step.before, [step], step.after, rule)
    ensures Deviated([step], rule) <==> Wrong(step, rule)
  {
    assert step in [step];
  }

  lemma TrimSteps(s: Snapshot, t: Snapshot, variables: set<int>, rule: PairRule)
    requires Sound(s.gates, s.parents, variables, s.last, s.rank) && Sound(t.gates, t.parents, variables, t.last, t.rank)
    requires Trimmed(s.gates, s.parents, t.gates, t.parents) && t.last == s.last && t.rank == s.rank
    ensures Run(s, t, 0, [Removal(s, t)], rule)
    ensures AllComplete(s.gates) ==> AllComplete(t.gates)
  {
    SoundFacts(s.gates, s.parents, variables, s.last, s.rank);
    SoundFacts(t.gates, t.parents, variables, t.last, t.rank);
    RemovalKeepsValues(s.gates, s.rank, t.gates, {1} + variables);
    RemovalLowers(s.gates, s.rank, t.gates);
    CertifiedTrimmed(s.gates, t.gates);
    OneStep(Removal(s, t), rule);
  }

  lemma SoundRemove(gates: Gates, parents: Parents, variables: set<int>, last: int, rank: Rank, g: int)
    requires Sound(gates, parents, variables, last, rank) && g in gates && gates[g] == gates[g].Bare() && Orphan(parents, g)
    ensures Sound(gates - {g}, parents - {g}, variables, last, rank)
  {
    var gates' := gates - {g};
    var parents' := parents - {g};
    assert parents'.Keys == {1} + variables + gates'.Keys;
    forall h <- gates'
      ensures gates'[h].Tidy() && ArgumentsExist(gates'[h], gates'.Keys, variables)
    {
      assert gates[h].Tidy() && ArgumentsExist(gates[h], gates.Keys, variables);
      forall i <- gates'[h].gateArgs
        ensures Abs(i) in gates'
      {
        Existing(gates, parents, variables, last, h, i);
      }
    }
    forall n <- parents', h
      ensures h in parents'[n] <==> h in gates' && Occurs(gates'[h].args, n)
    {
      assert h in parents[n] <==> h in gates && Occurs(gates[h].args, n);
    }
  }

  lemma ParentsKept(parents: Parents, parents': Parents, n: int, p: int)
    requires n in parents && parents' == parents[n := parents[n] - {p}]
    ensures parents'.Keys == parents.Keys
  {
  }

  /** All that one join keeps. */
  lemma JoinSteps(s: Snapshot, t: Snapshot, variables: set<int>, p: int, index: int, c: int, rule: PairRule)
    requires Sound(s.gates, s.parents, variables, s.last, s.rank) && Sound(t.gates, t.parents, variables, t.last, t.rank)
    requires Joined(s.gates, t.gates, p, index, c, s.last, rule) && s.last <= t.last
    requires t.rank == s.rank || Splits(s.gates[p].Without(index), Carried(index, c))
    ensures AllComplete(t.gates) && p in t.gates
    ensures Run(s, t, p, [Join(s, p, index, c, t)], rule)
    ensures Less(t.gates, t.rank, s.gates, s.rank)
  {
    hide Joined, Advanced, Quiet, Sound, Deviation, TotalVotes, TotalHeights;
    SoundFacts(s.gates, s.parents, variables, s.last, s.rank);
    SoundFacts(t.gates, t.parents, variables, t.last, t.rank);
    JoinFrame(s.gates, t.gates, p, index, c, s.last, rule);
    JoinAdvances(s.gates, s.parents, variables, s.last, s.rank, t.gates, t.parents, t.last, t.rank, p, index, c, rule);
    JoinDecreases(s.gates, s.rank, t.gates, t.rank, p, index, c, s.last, rule);
    if !Deviation(s.gates, p, index, c, rule) {
      JoinKeepsValues(s.gates, s.rank, t.gates, t.rank, p, index, c, s.last, {1} + variables, rule);
    }
    SeparateJoined(s.gates, t.gates, p, index, c, s.last, rule);
    OneStep(Join(s, p, index, c, t), rule);
  }

  lemma StillLess(s: Snapshot, t: Snapshot, u: Snapshot, but: int, steps: seq<Step>, rule: PairRule)
    requires Less(t.gates, t.rank, s.gates, s.rank) && Run(t, u, but, steps, rule)
    ensures Less(u.gates, u.rank, s.gates, s.rank)
  {
  }

  lemma StaysNull(s: Snapshot, t: Snapshot, but: int, steps: seq<Step>, rule: PairRule, g: int)
    requires Run(s, t, but, steps, rule) && IsNull(s.gates, g) && g in t.gates
    ensures IsNull(t.gates, g)
  {
  }

  lemma JoinKeepsGates(gates: Gates, after: Gates, p: int, index: int, c: int, last: int, rule: PairRule)
    requires Joined(gates, after, p, index, c, last, rule) && last > 0
    ensures forall g <- gates :: g in after
  {
    JoinFrame(gates, after, p, index, c, last, rule);
  }

  /** The list of pass-through gates holds no other gates, and no gates to come. */
  ghost predicate AreNull(gates: Gates, nullGates: seq<int>, last: int) {
    forall g <- nullGates :: g <= last && (g in gates ==> IsNull(gates, g))
  }

  /** The list of pass-through gates gains at most the gate that has changed, if it is one. */
  ghost predicate ListedOnce(nullGates: seq<int>, register: bool, gates: Gates, g: int, nullGates': seq<int>) {
    nullGates' == nullGates || (register && IsNull(gates, g) && nullGates' == nullGates + [g])
  }

  /** The pass-through gates that have parents are among those still to be removed. */
  ghost predicate Pending(gates: Gates, parents: Parents, nullGates: seq<int>) {
    forall g <- gates :: IsNull(gates, g) && !Orphan(parents, g) ==> g in nullGates
  }

  lemma RegisteredNulls(gates: Gates, parents: Parents, nullGates: seq<int>, root: int)
    requires Registered(gates, nullGates, root) && Orphan(parents, root)
    ensures Pending(gates, parents, nullGates) && nullGates == nullGates[0..]
  {
  }

  lemma PendingNext(s: Snapshot, t: Snapshot, nullGates: seq<int>, steps: seq<Step>, rule: PairRule)
    requires Run(s, t, 0, steps, rule) && Pending(s.gates, s.parents, nullGates) && 0 !in t.gates
    requires nullGates != [] && Orphan(t.parents, nullGates[0])
    ensures Pending(t.gates, t.parents, nullGates[1..])
  {
    hide Leads, Deviated, SameValues, NotMore, Certifiable;
    assert nullGates == [nullGates[0]] + nullGates[1..];
  }

  lemma PendingKept(s: Snapshot, t: Snapshot, nullGates: seq<int>, steps: seq<Step>, rule: PairRule)
    requires Run(s, t, 0, steps, rule) && Pending(s.gates, s.parents, nullGates) && 0 !in t.gates
    ensures Pending(t.gates, t.parents, nullGates)
  {
  }

  lemma PendingGone(gates: Gates, parents: Parents, nullGates: seq<int>)
    requires Pending(gates, parents, nullGates) && nullGates != [] && nullGates[0] !in gates
    ensures Pending(gates, parents, nullGates[1..])
  {
    assert nullGates == [nullGates[0]] + nullGates[1..];
  }

  lemma RunMeans(s: Snapshot, t: Snapshot, steps: seq<Step>, rule: PairRule, root: int)
    requires Run(s, t, 0, steps, rule) && root in s.gates && root in t.gates
    ensures Orphan(s.parents, root) ==> Orphan(t.parents, root)
    ensures IsNull(s.gates, root) ==> IsNull(t.gates, root)
    ensures Leads(s, steps, t, rule)
    ensures !Deviated(steps, rule) ==> SameValues(s.gates, s.rank, t.gates, t.rank)
    ensures Certifiable(s.gates) ==> !Deviated(steps, rule) && Certifiable(t.gates)
  {
  }

  /** Without pending gates, only the root can be a pass-through gate or a constant. */
  lemma NothingPending(gates: Gates, parents: Parents, variables: set<int>, nodeIndex: int, rank: Rank, root: int)
    requires Sound(gates, parents, variables, nodeIndex, rank) && Pending(gates, parents, [])
    requires forall g <- gates :: g == root || !Orphan(parents, g)
    ensures forall g <- gates :: gates[g].kind.Null? || gates[g].constant ==> g == root
  {
    forall g <- gates | gates[g].kind.Null? || gates[g].constant
      ensures g == root
    {
      assert gates[g].Tidy();
      assert IsNull(gates, g);
    }
  }

  lemma StaysRegistered(s: Snapshot, t: Snapshot, steps: seq<Step>, rule: PairRule, g: int)
    requires Run(s, t, 0, steps, rule) && g <= s.last && (g in s.gates ==> IsNull(s.gates, g)) && g in t.gates
    ensures IsNull(t.gates, g)
  {
  }

  /** The function of a graph, whose root may be complemented. */
  ghost predicate GraphValue(gates: Gates, rank: Rank, root: int, complement: bool, a: Valuation)
    requires Acyclic(gates, rank) && root in gates
  {
    Value(gates, rank, root, a) != complement
  }

  /** A gate that is the only argument of the root has no other parents. */
  lemma OnlyParent(gates: Gates, parents: Parents, variables: set<int>, nodeIndex: int, rank: Rank, root: int, index: int, q: int)
    requires Sound(gates, parents, variables, nodeIndex, rank) && root in gates && gates[root].args == {index}
    requires Abs(index) in gates && forall g <- gates :: g == root || !Orphan(parents, g)
    requires q in gates && Occurs(gates[q].args, Abs(index))
    ensures q == root
  {
    if q != root {
      Climb(gates, parents, variables, nodeIndex, rank, root, index, q);
    }
  }

  ghost function Above(gates: Gates, rank: Rank, q: int): set<int>
    requires Acyclic(gates, rank) && q in gates
  {
    set h <- gates | rank[h] > rank[q]
  }

  lemma {:induction false} Climb(gates: Gates, parents: Parents, variables: set<int>, nodeIndex: int, rank: Rank,
                                 root: int, index: int, q: int)
    requires Sound(gates, parents, variables, nodeIndex, rank) && root in gates && gates[root].args == {index}
    requires Abs(index) in gates && forall g <- gates :: g == root || !Orphan(parents, g)
    requires q in gates && q != root
    ensures rank[q] <= rank[Abs(index)]
    decreases |Above(gates, rank, q)|
  {
    SoundFacts(gates, parents, variables, nodeIndex, rank);
    var h := Some(parents[q]);
    assert Occurs(gates[h].args, q);
    if h != root {
      assert rank[q] < rank[h];
      assert Above(gates, rank, h) < Above(gates, rank, q) by {
        assert h in Above(gates, rank, q) && h !in Above(gates, rank, h);
      }
      SmallerSet(Above(gates, rank, h), Above(gates, rank, q));
      Climb(gates, parents, variables, nodeIndex, rank, root, index, h);
    }
  }

  lemma SmallerSet(s: set<int>, t: set<int>)
    requires s < t
    ensures |s| < |t|
  {
    Subset(s, t);
  }

  /** A pass-through gate has the value of its argument. */
  lemma ValueOfNull(gates: Gates, rank: Rank, g: int, index: int, a: Valuation)
    requires Acyclic(gates, rank) && IsNull(gates, g) && gates[g].args == {index} && Abs(index) in gates
    ensures Value(gates, rank, g, a) <==> Value(gates, rank, Abs(index), a) == (index > 0)
  {
    assert index in gates[g].args;
    assert TrueArguments(gates, rank, g, a)
        == if Value(gates, rank, Abs(index), a) == (index > 0) then {index} else {};
  }

  /** Complementing the arguments of a pass-through root without argument gates. */
  lemma ValueOfNegated(gates: Gates, rank: Rank, g: int, index: int, a: Valuation)
    requires Acyclic(gates, rank) && IsNull(gates, g) && gates[g].args == {index} && Abs(index) !in gates && index != 0
    ensures var negated := gates[g := gates[g].Negated()];
            Acyclic(negated, rank) && (Value(negated, rank, g, a) <==> !Value(gates, rank, g, a))
  {
    var negated := gates[g := gates[g].Negated()];
    assert negated[g].args == {-index} by {
      assert forall i :: i in negated[g].args <==> Conflicts({index}, i);
    }
    var leaf := Abs(index) == 1 || Abs(index) in a;
    assert TrueArguments(gates, rank, g, a) == if leaf == (index > 0) then {index} else {};
    assert TrueArguments(negated, rank, g, a) == if leaf == (-index > 0) then {-index} else {};
  }

  lemma SoundNegated(gates: Gates, parents: Parents, variables: set<int>, nodeIndex: int, rank: Rank, g: int)
    requires Sound(gates, parents, variables, nodeIndex, rank) && g in gates
    ensures Sound(gates[g := gates[g].Negated()], parents, variables, nodeIndex, rank)
  {
    var gate, negated := gates[g], gates[g].Negated();
    ArgumentNodes(gates, parents, variables, nodeIndex, rank, g);
    NegatedTidy(gate);
    NegatedExist(gate, gates, rank, variables, rank[g]);
    forall n <- parents
      ensures parents[n] == if Occurs(negated.args, n) then parents[n] + {g} else parents[n] - {g}
    {
      NegatedOccurs(gate, n);
      assert g in parents[n] <==> Occurs(gates[g].args, n);
    }
    hide Gate.Negated, Gate.Tidy, ArgumentsExist, ArgumentsBelow;
    SoundRelink(gates, parents, variables, nodeIndex, rank, g, negated, parents);
  }

  lemma NegatedOccurs(gate: Gate, n: int)
    ensures Occurs(gate.Negated().args, n) <==> Occurs(gate.args, n)
  {
    assert n in gate.Negated().args <==> Conflicts(gate.args, n);
    assert -n in gate.Negated().args <==> Conflicts(gate.args, -n);
  }

  lemma NegatedExist(gate: Gate, gates: Gates, rank: Rank, variables: set<int>, level: nat)
    requires ArgumentsExist(gate, gates.Keys, variables) && ArgumentsBelow(gate, gates, rank, level)
    ensures ArgumentsExist(gate.Negated(), gates.Keys, variables) && ArgumentsBelow(gate.Negated(), gates, rank, level)
  {
    forall i <- gate.Negated().gateArgs
      ensures Abs(i) in gates.Keys
    {
      assert Abs(-i) in gates.Keys;
    }
    forall i <- gate.Negated().variableArgs
      ensures Abs(i) in variables
    {
      assert Abs(-i) in variables;
    }
    forall i <- gate.Negated().args
      ensures Abs(i) in gates ==> Abs(i) in rank && rank[Abs(i)] < level
    {
      assert -i in gate.args;
    }
  }

  lemma NegatedComplete(gate: Gate)
    requires 0 !in gate.args
    ensures gate.Complete() <==> gate.Negated().Complete()
  {
    NegatedTrues(gate.args, gate.Negated().args, iset{});
  }

  lemma NegatedTidy(gate: Gate)
    requires gate.Tidy()
    ensures gate.Negated().Tidy()
  {
    var negated := gate.Negated();
    forall i <- negated.args
      ensures !Conflicts(negated.args, i)
    {
      assert Conflicts(gate.args, i);
    }
    if gate.constant {
      assert negated.args == if gate.args == {1} then {-1} else {1} by {
        assert forall i :: i in negated.args <==> Conflicts(gate.args, i);
      }
    }
  }

  /** Two graphs have the same function. */
  ghost predicate SameGraph(s: Snapshot, root: int, complement: bool, t: Snapshot, root': int, complement': bool) {
    && Acyclic(s.gates, s.rank) && Acyclic(t.gates, t.rank) && root in s.gates && root' in t.gates
    && forall a: Valuation ::
         GraphValue(s.gates, s.rank, root, complement, a) <==> GraphValue(t.gates, t.rank, root', complement', a)
  }

  lemma SameGraphAgain(s: Snapshot, root: int, complement: bool)
    requires Acyclic(s.gates, s.rank) && root in s.gates
    ensures SameGraph(s, root, complement, s, root, complement)
  {
  }

  lemma SameGraphTwice(s: Snapshot, root: int, complement: bool, t: Snapshot, root': int, complement': bool,
                       u: Snapshot, root'': int, complement'': bool)
    requires SameGraph(s, root, complement, t, root', complement') && SameGraph(t, root', complement', u, root'', complement'')
    ensures SameGraph(s, root, complement, u, root'', complement'')
  {
  }

  lemma SameValuesSameGraph(s: Snapshot, t: Snapshot, root: int, complement: bool)
    requires SameValues(s.gates, s.rank, t.gates, t.rank) && root in s.gates && root in t.gates
    ensures SameGraph(s, root, complement, t, root, complement)
  {
  }

  lemma RootArgument(gates: Gates, parents: Parents, variables: set<int>, nodeIndex: int, rank: Rank, root: int, index: int)
    requires Sound(gates, parents, variables, nodeIndex, rank) && AllComplete(gates) && IsNull(gates, root)
    requires index in gates[root].gateArgs
    ensures gates[root].args == {index} && Abs(index) in gates && Abs(index) != root && index != 0
  {
    ArgumentNodes(gates, parents, variables, nodeIndex, rank, root);
    assert gates[root].Complete() && gates[root].Tidy();
    assert {index} <= gates[root].args;
    Subset({index}, gates[root].args);
  }

  lemma PulledOrphans(gates: Gates, parents: Parents, variables: set<int>, last: int, rank: Rank,
                      gates': Gates, parents': Parents, root: int, index: int, m: int)
    requires Sound(gates, parents, variables, last, rank) && Sound(gates', parents', variables, last, rank)
    requires root in gates && gates[root].args == {index} && Abs(index) in gates && Abs(index) != root
    requires forall g <- gates :: g == root <==> Orphan(parents, g)
    requires gates' == gates - {root} && m in gates'
    ensures m == Abs(index) <==> Orphan(parents', m)
  {
    ParentsAre(gates, parents, variables, last, rank, m);
    ParentsAre(gates', parents', variables, last, rank, m);
    if m == Abs(index) && parents'[m] != {} {
      var q := Some(parents'[m]);
      OnlyParent(gates, parents, variables, last, rank, root, index, q);
    }
    if m != Abs(index) {
      var h := Some(parents[m]);
      assert h == root ==> m in {index} || -m in {index};
      assert h in gates' && Occurs(gates'[h].args, m);
    }
  }

  /** Removing a pass-through root above an argument gate. */
  lemma PulledRoot(s: Snapshot, t: Snapshot, variables: set<int>, root: int, complement: bool, index: int)
    requires Sound(s.gates, s.parents, variables, s.last, s.rank) && Sound(t.gates, t.parents, variables, t.last, t.rank)
    requires s.last == t.last && s.rank == t.rank && t.gates == s.gates - {root}
    requires IsNull(s.gates, root) && s.gates[root].args == {index} && Abs(index) in s.gates && Abs(index) != root && index != 0
    requires AllComplete(s.gates) && forall g <- s.gates :: g == root <==> Orphan(s.parents, g)
    ensures forall g <- t.gates :: g == Abs(index) <==> Orphan(t.parents, g)
    ensures AllComplete(t.gates)
    ensures SameGraph(s, root, complement, t, Abs(index), complement != (index < 0))
  {
    forall g <- t.gates
      ensures g == Abs(index) <==> Orphan(t.parents, g)
    {
      PulledOrphans(s.gates, s.parents, variables, s.last, s.rank, t.gates, t.parents, root, index, g);
    }
    SoundFacts(s.gates, s.parents, variables, s.last, s.rank);
    SoundFacts(t.gates, t.parents, variables, t.last, t.rank);
    RemovalKeepsValues(s.gates, s.rank, t.gates, {1} + variables);
    forall a: Valuation
      ensures GraphValue(s.gates, s.rank, root, complement, a)
         <==> GraphValue(t.gates, t.rank, Abs(index), complement != (index < 0), a)
    {
      ValueOfNull(s.gates, s.rank, root, index, a);
    }
  }

  /** Complementing a pass-through root above a variable or a constant. */
  lemma NegatedRoot(s: Snapshot, t: Snapshot, variables: set<int>, root: int)
    requires Sound(s.gates, s.parents, variables, s.last, s.rank) && AllComplete(s.gates)
    requires IsNull(s.gates, root) && s.gates[root].gateArgs == {}
    requires t == s.(gates := s.gates[root := s.gates[root].Negated()])
    ensures AllComplete(t.gates) && IsNull(t.gates, root) && t.gates[root].gateArgs == {}
    ensures SameGraph(s, root, true, t, root, false)
  {
    var index := LeafOfRoot(s, variables, root);
    NegatedStructure(s.gates, root);
    NegatedGraph(s, root, index);
    hide Gate.Negated, Gate.Complete, Sound, SameGraph;
  }

  lemma NegatedGraph(s: Snapshot, root: int, index: int)
    requires Acyclic(s.gates, s.rank) && IsNull(s.gates, root) && s.gates[root].args == {index}
    requires Abs(index) !in s.gates && index != 0
    ensures SameGraph(s, root, true, s.(gates := s.gates[root := s.gates[root].Negated()]), root, false)
  {
    hide Gate.Negated, Acyclic, Value;
    ValueOfNegated(s.gates, s.rank, root, index, iset{});
    forall a: Valuation
      ensures Value(s.gates, s.rank, root, a) <==> !Value(s.gates[root := s.gates[root].Negated()], s.rank, root, a)
    {
      ValueOfNegated(s.gates, s.rank, root, index, a);
    }
  }

  lemma LeafOfRoot(s: Snapshot, variables: set<int>, root: int) returns (index: int)
    requires Sound(s.gates, s.parents, variables, s.last, s.rank) && AllComplete(s.gates)
    requires IsNull(s.gates, root) && s.gates[root].gateArgs == {}
    ensures s.gates[root].args == {index} && Abs(index) !in s.gates && index != 0 && 0 !in s.gates[root].args
    ensures Acyclic(s.gates, s.rank)
  {
    var gate := s.gates[root];
    ArgumentNodes(s.gates, s.parents, variables, s.last, s.rank, root);
    assert gate.Complete() && gate.Tidy();
    index := Some(gate.args);
    assert {index} <= gate.args;
    Subset({index}, gate.args);
    SoundFacts(s.gates, s.parents, variables, s.last, s.rank);
    NoGateArgument(gate, s.gates, variables, index);
  }

  lemma NegatedStructure(gates: Gates, root: int)
    requires AllComplete(gates) && root in gates && 0 !in gates[root].args && gates[root].gateArgs == {}
    ensures AllComplete(gates[root := gates[root].Negated()])
    ensures gates[root].Negated().kind == gates[root].kind && gates[root].Negated().gateArgs == {}
  {
    NegatedComplete(gates[root]);
  }

  lemma NoGateArgument(gate: Gate, gates: Gates, variables: set<int>, index: int)
    requires gate.Tidy() && ArgumentsExist(gate, gates.Keys, variables) && gate.gateArgs == {} && index in gate.args
    requires forall n <- {1} + variables :: n !in gates
    ensures Abs(index) !in gates
  {
    assert Abs(index) in {1} + variables;
  }
}
