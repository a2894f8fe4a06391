/** The graph of a fault tree under declarative substitutions, with the basic events gathered
    first. */
module Substitutions {
  import opened Options
  import opened Indices
  import opened Sets
  import opened Connectives
  import opened Links
  import opened Values
  import opened Formulas
  import opened Meanings
  import opened Joining
  import opened Separation
  import opened Progress
  import opened Rewriting
  import opened Translation

  // Gathering: every event that the construction looks up is registered before.

  ghost predicate KnownIn(tree: FaultTree, events: seq<int>, seen: set<int>, f: Formula) {
    forall i | 0 <= i < |f.args| :: EventKnownIn(tree, events, seen, f.args[i].event)
  }

  ghost predicate EventKnownIn(tree: FaultTree, events: seq<int>, seen: set<int>, e: Event) {
    match tree.Resolve(e)
    case BasicEvent(b) => b in events
    case GateEvent(g) => g in seen
    case HouseEvent(_) => true
  }

  ghost predicate DistinctEvents(events: seq<int>) {
    forall i, j | 0 <= i < j < |events| :: events[i] != events[j]
  }

  /** The events differ, and none has a common cause gate that takes its place. */
  ghost predicate Individual(tree: FaultTree, events: seq<int>) {
    DistinctEvents(events) && forall b <- events :: b !in tree.ccf
  }

  ghost predicate Mentions(f: Formula, b: int) {
    exists i | 0 <= i < |f.args| :: f.args[i].event == BasicEvent(b)
  }

  ghost predicate SeenMention(tree: FaultTree, seen: set<int>, b: int) {
    exists g <- seen :: g in tree.gates && Mentions(tree.gates[g], b)
  }

  /** All gates below some gates are among them. */
  ghost predicate Closed(tree: FaultTree, gates: set<int>) {
    forall g <- gates :: g in tree.gates ==> Covered(tree, gates, tree.gates[g])
  }

  /** The events come in the order in which they are met, and only gates that are met are
      gathered. */
  method GatherEvent(tree: FaultTree, e: Event, ghost level: nat, seen: set<int>, events: seq<int>) returns (seen': set<int>, events': seq<int>)
    requires tree.Valid() && tree.EventBelow(e, level) && Individual(tree, events) && forall g <- seen :: g in tree.gates
    ensures Individual(tree, events') && (forall g <- seen' :: g in tree.gates)
    ensures (forall g <- seen :: g in seen') && events <= events'
    ensures EventKnownIn(tree, events', seen', e)
    ensures forall b <- events' :: b in events || e == BasicEvent(b) || SeenMention(tree, seen', b)
    ensures forall c: set<int> :: Closed(tree, c) && seen <= c && EventCovered(tree, c, e) ==> seen' <= c
    ensures forall g <- seen' :: g in seen || KnownIn(tree, events', seen', tree.gates[g])
    decreases level, 0
  {
    seen', events' := seen, events;
    match tree.Resolve(e)
    case HouseEvent(_) =>
    case BasicEvent(b) =>
      if b !in events {
        events' := events + [b];
      }
    case GateEvent(g) =>
      if g !in seen {
        seen' := seen + {g};
        seen', events' := GatherVariables(tree, tree.gates[g], tree.rank[g], seen', events);
        forall c: set<int> | Closed(tree, c) && seen <= c && EventCovered(tree, c, e)
          ensures seen' <= c
        {
          assert g in c && Covered(tree, c, tree.gates[g]);
        }
      }
  }

  method GatherVariables(tree: FaultTree, f: Formula, ghost level: nat, seen: set<int>, events: seq<int>) returns (seen': set<int>, events': seq<int>)
    requires tree.Valid() && tree.Below(f, level) && Individual(tree, events) && forall g <- seen :: g in tree.gates
    ensures Individual(tree, events') && (forall g <- seen' :: g in tree.gates)
    ensures (forall g <- seen :: g in seen') && events <= events'
    ensures KnownIn(tree, events', seen', f)
    ensures forall b <- events' :: b in events || Mentions(f, b) || SeenMention(tree, seen', b)
    ensures forall c: set<int> :: Closed(tree, c) && seen <= c && Covered(tree, c, f) ==> seen' <= c
    ensures forall g <- seen' :: g in seen || KnownIn(tree, events', seen', tree.gates[g])
    decreases level, 1
  {
    seen', events' := seen, events;
    for i := 0 to |f.args|
      invariant Individual(tree, events') && (forall g <- seen' :: g in tree.gates)
      invariant (forall g <- seen :: g in seen') && events <= events'
      invariant forall j | 0 <= j < i :: EventKnownIn(tree, events', seen', f.args[j].event)
      invariant forall b <- events' :: b in events || Mentions(f, b) || SeenMention(tree, seen', b)
      invariant forall c: set<int> :: Closed(tree, c) && seen <= c && Covered(tree, c, f) ==> seen' <= c
      invariant forall g <- seen' :: g in seen || KnownIn(tree, events', seen', tree.gates[g])
    {
      ghost var before, eventsBefore := seen', events';
      seen', events' := GatherEvent(tree, f.args[i].event, level, seen', events');
      assert forall b <- eventsBefore :: b in events';
      forall c: set<int> | Closed(tree, c) && seen <= c && Covered(tree, c, f)
        ensures seen' <= c
      {
        assert EventCovered(tree, c, f.args[i].event);
      }
    }
  }

  lemma KnownByIndex(tree: FaultTree, events: seq<int>, seen: set<int>, f: Formula)
    requires KnownIn(tree, events, seen, f)
    ensures Known(tree, IndexOf(events), seen, f)
  {
    forall i | 0 <= i < |f.args|
      ensures EventKnown(tree, IndexOf(events), seen, f.args[i].event)
    {
      EventKnownByIndex(tree, events, seen, f.args[i].event);
    }
  }

  lemma EventKnownByIndex(tree: FaultTree, events: seq<int>, seen: set<int>, e: Event)
    requires EventKnownIn(tree, events, seen, e)
    ensures EventKnown(tree, IndexOf(events), seen, e)
  {
    match tree.Resolve(e)
    case BasicEvent(b) => IndexIs(events, b);
    case _ =>
  }

  /** A hypothesis and the event that it implies; without the event, the hypothesis is false. */
  datatype Substitution = Substitution(hypothesis: Formula, target: Option<Event>)

  ghost predicate Usable(tree: FaultTree, sub: Substitution, level: nat) {
    && tree.Below(sub.hypothesis, level) && tree.WellFormed(sub.hypothesis)
    && (sub.target.Some? ==> sub.target.value.BasicEvent? && tree.EventBelow(sub.target.value, level))
  }

  ghost predicate Implied(tree: FaultTree, sub: Substitution, level: nat, true_: iset<int>)
    requires tree.Valid() && Usable(tree, sub, level)
  {
    tree.Value(sub.hypothesis, level, true_) ==> sub.target.Some? && tree.EventValue(sub.target.value, level, true_)
  }

  ghost predicate SubstitutionKnown(tree: FaultTree, index: VariableIndex, seen: set<int>, sub: Substitution) {
    && Known(tree, index, seen, sub.hypothesis)
    && (sub.target.Some? ==> EventKnown(tree, index, seen, sub.target.value))
  }

  ghost predicate SubstitutionCovered(tree: FaultTree, gates: set<int>, sub: Substitution) {
    && Covered(tree, gates, sub.hypothesis)
    && (sub.target.Some? ==> EventCovered(tree, gates, sub.target.value))
  }

  lemma SubstitutionCoveredMore(tree: FaultTree, gates: set<int>, gates': set<int>, sub: Substitution)
    requires SubstitutionCovered(tree, gates, sub) && forall g <- gates :: g in gates'
    ensures SubstitutionCovered(tree, gates', sub)
  {
    CoveredMore(tree, gates, gates', sub.hypothesis);
  }

  /** The gate means the implication. */
  ghost predicate Applies(tree: FaultTree, index: VariableIndex, gates: Gates, open: set<int>, g: int, sub: Substitution, level: nat) {
    && tree.Valid() && Usable(tree, sub, level) && g in gates && g !in open
    && forall w: Valuation :: Settled(gates, open, w) ==> (g in w <==> Implied(tree, sub, level, Events(index, w)))
  }

  lemma AppliesKept(tree: FaultTree, index: VariableIndex, before: Gates, open: set<int>, after: Gates, open': set<int>, g: int, sub: Substitution, level: nat)
    requires Applies(tree, index, before, open, g, sub, level)
    requires forall h <- before :: h !in open ==> h !in open' && h in after && after[h] == before[h]
    ensures Applies(tree, index, after, open', g, sub, level)
  {
    forall w: Valuation | Settled(after, open', w)
      ensures g in w <==> Implied(tree, sub, level, Events(index, w))
    {
      SettledKept(before, open, after, open', w);
    }
  }

  lemma ImplicationApplies(tree: FaultTree, index: VariableIndex, gates: Gates, open: set<int>, g: int, h: int, x: int, sub: Substitution, level: nat)
    requires tree.Valid() && Usable(tree, sub, level) && sub.target.Some? && g in gates && g !in open
    requires gates[g].kind.Or? && gates[g].args == {-h, x} && h > 1 && Abs(x) != h
    requires Means(tree, index, gates, open + {g}, h, sub.hypothesis, level)
    requires Stands(tree, index, gates, open + {g}, x, Arg(sub.target.value, false), level)
    ensures Applies(tree, index, gates, open, g, sub, level)
  {
    forall w: Valuation | Settled(gates, open, w)
      ensures g in w <==> Implied(tree, sub, level, Events(index, w))
    {
      assert Settled(gates, open + {g}, w);
      TruesOfTwo(-h, x, w);
    }
  }

  lemma DeletionApplies(tree: FaultTree, index: VariableIndex, gates: Gates, open: set<int>, g: int, h: int, sub: Substitution, level: nat)
    requires tree.Valid() && Usable(tree, sub, level) && sub.target.None? && g in gates && g !in open
    requires gates[g].kind.Null? && gates[g].args == {-h} && h > 1
    requires Means(tree, index, gates, open + {g}, h, sub.hypothesis, level)
    ensures Applies(tree, index, gates, open, g, sub, level)
  {
    forall w: Valuation | Settled(gates, open, w)
      ensures g in w <==> Implied(tree, sub, level, Events(index, w))
    {
      assert Settled(gates, open + {g}, w);
      TruesOfOne(-h, w);
    }
  }

  /** The implication of a declarative substitution. */
  method ConstructSubstitution(t: Translator, sub: Substitution, ghost level: nat, ghost open: set<int>) returns (g: int)
    requires t.Valid(open) && Usable(t.tree, sub, level) && SubstitutionKnown(t.tree, t.index, t.seen, sub)
    requires Height(level) + 1 <= t.limit && sub.hypothesis in t.formulas
    modifies t, t.pdag
    ensures old(t.built) <= t.built && sub.hypothesis in t.built && SubstitutionCovered(t.tree, t.nodes.Keys, sub)
    ensures forall h <- old(t.nodes) :: h in t.nodes
    ensures t.Valid(open) && KeptBut(old(t.pdag.gates), t.pdag.gates, old(t.pdag.rank), t.pdag.rank, 0)
    ensures g > 1 && g !in old(t.pdag.gates) && g in t.pdag.gates && g in t.pdag.parents
    ensures g in t.pdag.rank && t.pdag.rank[g] == Height(level) + 1
    ensures Applies(t.tree, t.index, t.pdag.gates, open, g, sub, level)
  {
    hide Gate.Complete, Sound, Constructed, Counted, Tracked, Covered, Means, Stands, Filled, Known, Distinct, FaultTree.Below, FaultTree.WellFormed;
    NodeFacts(t.pdag.gates, t.pdag.parents, t.pdag.variables, t.pdag.nodeIndex, t.pdag.rank);
    g := t.OpenGate(Or, 0, Height(level) + 1, open);
    ghost var base := t.pdag.gates[g];
    ghost var one, oneRank := t.pdag.gates, t.pdag.rank;
    NodeFacts(t.pdag.gates, t.pdag.parents, t.pdag.variables, t.pdag.nodeIndex, t.pdag.rank);
    var h := t.ConstructFormula(sub.hypothesis, level, open + {g});
    ghost var two, twoRank, nodes := t.pdag.gates, t.pdag.rank, t.nodes;
    NodeFacts(t.pdag.gates, t.pdag.parents, t.pdag.variables, t.pdag.nodeIndex, t.pdag.rank);
    NothingFilled(base);
    AloneDistinct(-h);
    t.Attach(g, -h, open + {g}, base, [], 2);
    ghost var three, threeRank := t.pdag.gates, t.pdag.rank;
    MeansKept(t.tree, t.index, two, open + {g}, three, open + {g}, h, sub.hypothesis, level);
    NodeFacts(t.pdag.gates, t.pdag.parents, t.pdag.variables, t.pdag.nodeIndex, t.pdag.rank);
    if sub.target.Some? {
      AddTarget(t, g, h, base, sub, level, open);
    } else {
      FilledAlone(base, t.pdag.gates[g], -h);
      DeleteTarget(t, g, h, sub, level, open);
    }
    CoveredMore(t.tree, nodes.Keys, t.nodes.Keys, sub.hypothesis);
    t.Finish(open + {g}, open);
    NodeFacts(t.pdag.gates, t.pdag.parents, t.pdag.variables, t.pdag.nodeIndex, t.pdag.rank);
    KeptFrom(old(t.pdag.gates), one, two, three, t.pdag.gates, old(t.pdag.rank), oneRank, twoRank, threeRank, t.pdag.rank, g);
  }

  lemma KeptFrom(before: Gates, one: Gates, two: Gates, three: Gates, after: Gates,
                 rank: Rank, rank1: Rank, rank2: Rank, rank3: Rank, rank4: Rank, g: int)
    requires KeptBut(before, one, rank, rank1, 0) && KeptBut(one, two, rank1, rank2, 0)
    requires KeptBut(two, three, rank2, rank3, g) && KeptBut(three, after, rank3, rank4, g)
    requires 0 !in before && 0 !in one && g !in before && g in one && g in rank1
    ensures KeptBut(before, after, rank, rank4, 0) && g in rank4 && rank4[g] == rank1[g]
  {
    forall k <- before
      ensures k in after && after[k] == before[k] && (k in rank ==> k in rank4 && rank4[k] == rank[k])
    {
      assert k in one && k in two && k in three;
    }
    assert g in two && g in three;
  }

  /** The implied event becomes the second argument. */
  method AddTarget(t: Translator, g: int, h: int, ghost base: Gate, sub: Substitution, ghost level: nat, ghost open: set<int>)
    requires t.Valid(open + {g}) && Usable(t.tree, sub, level) && SubstitutionKnown(t.tree, t.index, t.seen, sub) && sub.target.Some?
    requires g in t.pdag.gates && g !in open && g in t.pdag.rank && t.pdag.rank[g] == Height(level) + 1
    requires base.kind.Or? && Filled(base, t.pdag.gates[g], [] + [-h]) && h > 1 && h != g
    requires h in t.pdag.gates && !InUse(t.nodes, h)
    requires Means(t.tree, t.index, t.pdag.gates, open + {g}, h, sub.hypothesis, level)
    requires Height(level) + 1 <= t.limit
    modifies t, t.pdag
    ensures old(t.built) <= t.built && EventCovered(t.tree, t.nodes.Keys, sub.target.value)
    ensures g in t.pdag.gates && t.pdag.gates[g].Complete() && forall h <- old(t.nodes) :: h in t.nodes
    ensures t.Valid(open + {g}) && KeptBut(old(t.pdag.gates), t.pdag.gates, old(t.pdag.rank), t.pdag.rank, g)
    ensures Applies(t.tree, t.index, t.pdag.gates, open, g, sub, level)
  {
    hide Sound, Constructed, Counted, Tracked, Means, Stands, Filled, Known, FaultTree.Below, FaultTree.WellFormed, Placed;
    NodeFacts(t.pdag.gates, t.pdag.parents, t.pdag.variables, t.pdag.nodeIndex, t.pdag.rank);
    var x := t.ArgumentNode(Arg(sub.target.value, false), level, open + {g});
    ghost var one, oneRank := t.pdag.gates, t.pdag.rank;
    NodeFacts(t.pdag.gates, t.pdag.parents, t.pdag.variables, t.pdag.nodeIndex, t.pdag.rank);
    TargetApart(t.tree, t.index, t.pdag.variables, old(t.nodes), t.nodes, old(t.pdag.gates), one, sub.target.value, x, h);
    assert [] + [-h] == [-h];
    t.Attach(g, x, open + {g}, base, [-h], 2);
    FilledFacts(base, t.pdag.gates[g], [-h] + [x]);
    ElementsOfTwo([-h] + [x]);
    DistinctElements([-h] + [x]);
    PlacedEvent(t.tree, t.index, t.nodes, one, sub.target.value, x);
    KeptThenBut(old(t.pdag.gates), one, t.pdag.gates, old(t.pdag.rank), oneRank, t.pdag.rank, g);
    MeansKept(t.tree, t.index, old(t.pdag.gates), open + {g}, t.pdag.gates, open + {g}, h, sub.hypothesis, level);
    StandsKept(t.tree, t.index, one, open + {g}, t.pdag.gates, open + {g}, x, Arg(sub.target.value, false), level);
    ImplicationApplies(t.tree, t.index, t.pdag.gates, open, g, h, x, sub, level);
  }

  lemma TargetApart(tree: FaultTree, index: VariableIndex, variables: set<int>, nodes: map<int, int>, nodes': map<int, int>,
                    before: Gates, after: Gates, e: Event, x: int, h: int)
    requires Placed(tree, index, nodes', after, e, x) && e.BasicEvent? && Indexed(index, variables)
    requires NodesGrow(nodes, before, nodes') && !InUse(nodes, h) && h in before && h in after && forall n <- variables :: n !in after
    ensures Abs(x) != h
  {
    match tree.Resolve(e)
    case GateEvent(g) => assert nodes'[g] == h ==> g in nodes;
    case _ =>
  }

  lemma PlacedEvent(tree: FaultTree, index: VariableIndex, nodes: map<int, int>, gates: Gates, e: Event, x: int)
    requires Placed(tree, index, nodes, gates, e, x)
    ensures EventCovered(tree, nodes.Keys, e)
  {
  }

  /** Without an implied event, the hypothesis must be false. */
  method DeleteTarget(t: Translator, g: int, h: int, sub: Substitution, ghost level: nat, ghost open: set<int>)
    requires t.Valid(open + {g}) && Usable(t.tree, sub, level) && sub.target.None?
    requires g in t.pdag.gates && g !in open && h > 1 && h != g && t.pdag.gates[g].args == {-h} && !t.pdag.gates[g].constant
    requires Means(t.tree, t.index, t.pdag.gates, open + {g}, h, sub.hypothesis, level)
    modifies t.pdag
    ensures t.Valid(open + {g}) && KeptBut(old(t.pdag.gates), t.pdag.gates, old(t.pdag.rank), t.pdag.rank, g)
    ensures g in t.pdag.gates && t.pdag.gates[g].Complete()
    ensures Applies(t.tree, t.index, t.pdag.gates, open, g, sub, level)
  {
    hide Sound, Constructed, Counted, Tracked, Means;
    NodeFacts(t.pdag.gates, t.pdag.parents, t.pdag.variables, t.pdag.nodeIndex, t.pdag.rank);
    t.pdag.SetType(g, Null);
    ConstructedKept(t.tree, t.index, t.nodes, old(t.pdag.gates), old(t.pdag.rank), open + {g}, t.pdag.gates, t.pdag.rank, open + {g});
    assert |{-h}| == 1;
    TrackedStep(old(t.pdag.Now()), old(t.pdag.nullGates), open + {g}, t.pdag.Now(), t.pdag.nullGates, open + {g}, t.limit, t.built);
    MeansKept(t.tree, t.index, old(t.pdag.gates), open + {g}, t.pdag.gates, open + {g}, h, sub.hypothesis, level);
    DeletionApplies(t.tree, t.index, t.pdag.gates, open, g, h, sub, level);
  }

  /** The gates of the substitutions so far. */
  ghost predicate AllApply(tree: FaultTree, index: VariableIndex, gates: Gates, rank: Rank, open: set<int>, s: seq<int>, subs: seq<Substitution>, level: nat) {
    && |s| <= |subs| && Distinct(s)
    && forall k | 0 <= k < |s| ::
         s[k] > 1 && s[k] in rank && rank[s[k]] == Height(level) + 1 && Applies(tree, index, gates, open, s[k], subs[k], level)
  }

  lemma AllApplyKept(tree: FaultTree, index: VariableIndex, before: Gates, after: Gates, rank: Rank, rank': Rank, open: set<int>, g: int,
                     s: seq<int>, subs: seq<Substitution>, level: nat)
    requires AllApply(tree, index, before, rank, open, s, subs, level) && KeptBut(before, after, rank, rank', g) && (g in open || g !in before)
    ensures AllApply(tree, index, after, rank', open, s, subs, level)
  {
    forall k | 0 <= k < |s|
      ensures s[k] in rank' && rank'[s[k]] == Height(level) + 1 && Applies(tree, index, after, open, s[k], subs[k], level)
    {
      assert Applies(tree, index, before, open, s[k], subs[k], level);
      AppliesKept(tree, index, before, open, after, open, s[k], subs[k], level);
    }
  }

  lemma AllApplyNext(tree: FaultTree, index: VariableIndex, before: Gates, gates: Gates, rank: Rank, open: set<int>, s: seq<int>, x: int,
                     subs: seq<Substitution>, level: nat)
    requires AllApply(tree, index, gates, rank, open, s, subs, level) && |s| < |subs| && Applies(tree, index, gates, open, x, subs[|s|], level)
    requires x > 1 && x !in before && x in rank && rank[x] == Height(level) + 1 && forall i <- s :: i in before
    ensures AllApply(tree, index, gates, rank, open, s + [x], subs, level) && Distinct(s + [x])
  {
    forall i | 0 <= i < |s|
      ensures Abs(s[i]) != Abs(x)
    {
      assert s[i] in s;
    }
  }

  /** The application gate means the root together with all implications. */
  ghost predicate Applied(tree: FaultTree, index: VariableIndex, gates: Gates, g: int, root: Formula, subs: seq<Substitution>, level: nat) {
    && tree.Valid() && tree.Below(root, level) && (forall k | 0 <= k < |subs| :: Usable(tree, subs[k], level)) && g in gates
    && forall w: Valuation :: Settled(gates, {}, w) ==>
         (g in w <==> tree.Value(root, level, Events(index, w))
                      && forall k | 0 <= k < |subs| :: Implied(tree, subs[k], level, Events(index, w)))
  }

  lemma ApplicationApplies(tree: FaultTree, index: VariableIndex, gates: Gates, rank: Rank, g: int, r: int, s: seq<int>,
                           root: Formula, subs: seq<Substitution>, level: nat)
    requires AllApply(tree, index, gates, rank, {g}, s, subs, level) && |s| == |subs| && Distinct(s + [r])
    requires Means(tree, index, gates, {g}, r, root, level) && r > 1
    requires g in gates && gates[g].kind.And? && gates[g].args == Elements(s + [r])
    ensures Applied(tree, index, gates, g, root, subs, level)
  {
    hide Implied, Usable, FaultTree.Below, FaultTree.Valid, FaultTree.Value, Events;
    forall k | 0 <= k < |subs|
      ensures Usable(tree, subs[k], level)
    {
      assert Applies(tree, index, gates, {g}, s[k], subs[k], level);
    }
    forall w: Valuation | Settled(gates, {}, w)
      ensures g in w <==> tree.Value(root, level, Events(index, w))
                          && forall k | 0 <= k < |subs| :: Implied(tree, subs[k], level, Events(index, w))
    {
      assert Settled(gates, {g}, w);
      TruesBound(gates[g].args, w);
      forall i
        ensures i in gates[g].args <==> i in s + [r]
      {
        ElementsAre(s + [r], i);
      }
      forall k | 0 <= k < |subs|
        ensures s[k] in s + [r] && (Literal(s[k], w) <==> Implied(tree, subs[k], level, Events(index, w)))
      {
        assert (s + [r])[k] == s[k];
        assert Applies(tree, index, gates, {g}, s[k], subs[k], level);
      }
      assert (s + [r])[|s|] == r;
    }
  }

  lemma RootApplies(tree: FaultTree, index: VariableIndex, gates: Gates, g: int, root: Formula, level: nat)
    requires Means(tree, index, gates, {}, g, root, level)
    ensures Applied(tree, index, gates, g, root, [], level)
  {
    forall w: Valuation | Settled(gates, {}, w)
      ensures g in w <==> tree.Value(root, level, Events(index, w))
    {
    }
  }

  /** The values of an acyclic graph satisfy all its gates. */
  lemma ModelSettled(gates: Gates, rank: Rank, index: VariableIndex, a: Valuation)
    requires Acyclic(gates, rank) && 1 !in gates && forall b <- index :: index[b] != 1 && index[b] !in gates
    ensures Settled(gates, {}, Model(gates, rank, a)) && Events(index, Model(gates, rank, a)) == Events(index, a)
  {
    forall h <- gates
      ensures h in Model(gates, rank, a) <==> Holds(gates[h], Model(gates, rank, a))
    {
      ModelHolds(gates, rank, a, h);
    }
    var w := Model(gates, rank, a);
    forall b
      ensures b in Events(index, w) <==> b in Events(index, a)
    {
      if b in index {
        var v := index[b];
        assert v in w <==> v in a;
      }
    }
  }

  /** The function of the graph is that of the root formula together with all implications. */
  lemma FunctionOfGraph(tree: FaultTree, index: VariableIndex, gates: Gates, rank: Rank, g: int, root: Formula, subs: seq<Substitution>, level: nat, a: Valuation)
    requires Applied(tree, index, gates, g, root, subs, level)
    requires Acyclic(gates, rank) && 1 !in gates && forall b <- index :: index[b] != 1 && index[b] !in gates
    ensures Value(gates, rank, g, a)
        <==> tree.Value(root, level, Events(index, a))
             && forall k | 0 <= k < |subs| :: Implied(tree, subs[k], level, Events(index, a))
  {
    ModelSettled(gates, rank, index, a);
    var w := Model(gates, rank, a);
    assert Settled(gates, {}, w);
    assert g in w <==> Value(gates, rank, g, a);
    assert Events(index, w) == Events(index, a);
    assert g in w <==> tree.Value(root, level, Events(index, w))
                       && forall k | 0 <= k < |subs| :: Implied(tree, subs[k], level, Events(index, w));
  }

  /** The event occurs in the root, a substitution or a gathered gate. */
  ghost predicate Used(tree: FaultTree, seen: set<int>, root: Formula, subs: seq<Substitution>, b: int) {
    || Mentions(root, b) || SeenMention(tree, seen, b)
    || exists k | 0 <= k < |subs| :: Mentions(subs[k].hypothesis, b) || subs[k].target == Some(BasicEvent(b))
  }

  /** Only gates below the root and the substitutions are gathered. */
  ghost predicate Least(tree: FaultTree, seen: set<int>, root: Formula, subs: seq<Substitution>) {
    forall c: set<int> :: Closed(tree, c) && AllCovered(tree, c, root, subs) ==> seen <= c
  }

  ghost predicate AllCovered(tree: FaultTree, gates: set<int>, root: Formula, subs: seq<Substitution>) {
    && Covered(tree, gates, root)
    && forall k | 0 <= k < |subs| :: SubstitutionCovered(tree, gates, subs[k])
  }

  /** No formula among them is a cardinality over one argument with a single number. */
  ghost predicate SeenSized(tree: FaultTree, seen: set<int>, root: Formula, subs: seq<Substitution>) {
    && Sized(root) && (forall k | 0 <= k < |subs| :: Sized(subs[k].hypothesis))
    && forall g <- seen :: g in tree.gates ==> Sized(tree.gates[g])
  }

  /** A gate below the root or the substitutions. */
  ghost predicate Met(tree: FaultTree, root: Formula, subs: seq<Substitution>, g: int) {
    forall c: set<int> :: Closed(tree, c) && AllCovered(tree, c, root, subs) ==> g in c
  }

  /** No formula that is met is a cardinality over one argument with a single number. */
  ghost predicate AllSized(tree: FaultTree, root: Formula, subs: seq<Substitution>) {
    && Sized(root) && (forall k | 0 <= k < |subs| :: Sized(subs[k].hypothesis))
    && forall g <- tree.gates :: Met(tree, root, subs, g) ==> Sized(tree.gates[g])
  }

  /** The gathered gates are those that are met. */
  lemma SeenAreMet(tree: FaultTree, index: VariableIndex, seen: set<int>, root: Formula, subs: seq<Substitution>)
    requires Gathered(tree, index, seen) && Known(tree, index, seen, root) && Least(tree, seen, root, subs)
    requires forall k | 0 <= k < |subs| :: SubstitutionKnown(tree, index, seen, subs[k])
    ensures forall g :: g in seen <==> Met(tree, root, subs, g)
    ensures SeenSized(tree, seen, root, subs) <==> AllSized(tree, root, subs)
  {
    KnownCovered(tree, index, seen, root);
    forall g <- seen
      ensures g in tree.gates.Keys && Covered(tree, seen, tree.gates[g])
    {
      KnownCovered(tree, index, seen, tree.gates[g]);
    }
    forall k | 0 <= k < |subs|
      ensures SubstitutionCovered(tree, seen, subs[k])
    {
      KnownCovered(tree, index, seen, subs[k].hypothesis);
    }
    assert Closed(tree, seen) && AllCovered(tree, seen, root, subs);
    forall g | g in seen
      ensures Met(tree, root, subs, g)
    {
    }
  }

  lemma KnownCovered(tree: FaultTree, index: VariableIndex, seen: set<int>, f: Formula)
    requires Known(tree, index, seen, f)
    ensures Covered(tree, seen, f)
  {
  }

  ghost function AllFormulas(tree: FaultTree, seen: set<int>, root: Formula, subs: seq<Substitution>): (r: set<Formula>)
    ensures root in r && (forall k | 0 <= k < |subs| :: subs[k].hypothesis in r)
    ensures forall g <- seen :: g in tree.gates ==> tree.gates[g] in r
    ensures (forall f <- r :: Sized(f)) <==> SeenSized(tree, seen, root, subs)
  {
    {root} + (set k | 0 <= k < |subs| :: subs[k].hypothesis) + set g | g in seen && g in tree.gates :: tree.gates[g]
  }

  method GatherAll(tree: FaultTree, root: Formula, subs: seq<Substitution>, ghost level: nat) returns (seen: set<int>, events: seq<int>)
    requires tree.Valid() && tree.Below(root, level) && forall k | 0 <= k < |subs| :: Usable(tree, subs[k], level)
    ensures Individual(tree, events) && Gathered(tree, IndexOf(events), seen) && Known(tree, IndexOf(events), seen, root)
    ensures forall k | 0 <= k < |subs| :: SubstitutionKnown(tree, IndexOf(events), seen, subs[k])
    ensures Least(tree, seen, root, subs)
    ensures forall b <- events :: Used(tree, seen, root, subs, b)
  {
    hide Closed, Covered, EventCovered, Mentions;
    seen, events := GatherVariables(tree, root, level, {}, []);
    for k := 0 to |subs|
      invariant Individual(tree, events) && (forall g <- seen :: g in tree.gates && KnownIn(tree, events, seen, tree.gates[g]))
      invariant KnownIn(tree, events, seen, root)
      invariant forall j | 0 <= j < k :: KnownIn(tree, events, seen, subs[j].hypothesis)
      invariant forall j | 0 <= j < k :: subs[j].target.Some? ==> EventKnownIn(tree, events, seen, subs[j].target.value)
      invariant Least(tree, seen, root, subs)
      invariant forall b <- events :: Used(tree, seen, root, subs, b)
    {
      ghost var seenBefore, eventsBefore := seen, events;
      seen, events := GatherVariables(tree, subs[k].hypothesis, level, seen, events);
      StillKnown(tree, seenBefore, eventsBefore, seen, events);
      if subs[k].target.Some? {
        ghost var seenNext, eventsNext := seen, events;
        seen, events := GatherEvent(tree, subs[k].target.value, level, seen, events);
        StillKnown(tree, seenNext, eventsNext, seen, events);
      }
    }
    ghost var index := IndexOf(events);
    KnownByIndex(tree, events, seen, root);
    forall g <- seen
      ensures g in tree.gates.Keys && Known(tree, index, seen, tree.gates[g])
    {
      assert g in tree.gates;
      KnownByIndex(tree, events, seen, tree.gates[g]);
    }
    forall k | 0 <= k < |subs|
      ensures SubstitutionKnown(tree, index, seen, subs[k])
    {
      KnownByIndex(tree, events, seen, subs[k].hypothesis);
      if subs[k].target.Some? {
        EventKnownByIndex(tree, events, seen, subs[k].target.value);
      }
    }
  }

  /** What has been gathered once stays gathered. */
  lemma StillKnown(tree: FaultTree, seen: set<int>, events: seq<int>, seen': set<int>, events': seq<int>)
    requires (forall g <- seen :: g in seen') && events <= events'
    ensures forall f: Formula :: KnownIn(tree, events, seen, f) ==> KnownIn(tree, events', seen', f)
    ensures forall e: Event :: EventKnownIn(tree, events, seen, e) ==> EventKnownIn(tree, events', seen', e)
  {
    assert forall b <- events :: b in events';
    forall e: Event | EventKnownIn(tree, events, seen, e)
      ensures EventKnownIn(tree, events', seen', e)
    {
    }
  }

  lemma ArgumentLower(gates: Gates, rank: Rank, h: int, n: int)
    requires Acyclic(gates, rank) && h in gates && n in gates && n > 0
    ensures n in rank && h in rank && (Occurs(gates[h].args, n) ==> rank[n] < rank[h])
  {
    if Occurs(gates[h].args, n) {
      var i := if n in gates[h].args then n else -n;
      assert Abs(i) == n;
    }
  }

  /** A gate of the greatest rank has no parents. */
  lemma TopOrphan(gates: Gates, parents: Parents, variables: set<int>, nodeIndex: int, rank: Rank, top: int)
    requires Sound(gates, parents, variables, nodeIndex, rank) && top in gates && top in rank
    requires forall h <- gates :: h in rank && rank[h] <= rank[top]
    ensures Orphan(parents, top)
  {
    ParentsAre(gates, parents, variables, nodeIndex, rank, top);
    forall h <- gates
      ensures !Occurs(gates[h].args, top)
    {
      ArgumentLower(gates, rank, h, top);
    }
    var none: set<int> := {};
    forall h: int
      ensures h in parents[top] <==> h in none
    {
    }
    SameSet(parents[top], none);
  }

  lemma {:induction false} IndexSize(events: seq<int>)
    requires DistinctEvents(events)
    ensures |IndexOf(events)| == |events|
  {
    if events != [] {
      var last := |events| - 1;
      IndexSize(events[..last]);
      IndexIs(events[..last], events[last]);
    }
  }

  lemma IndexedEvents(events: seq<int>)
    ensures forall b <- IndexOf(events) :: b in events
  {
    forall b <- IndexOf(events)
      ensures b in events
    {
      IndexIs(events, b);
    }
  }

  /** In the end all formulas have been constructed. */
  lemma AllBuilt(tree: FaultTree, seen: set<int>, root: Formula, subs: seq<Substitution>, nodes: map<int, int>, built: set<Formula>)
    requires Counted(tree, seen, AllFormulas(tree, seen, root, subs), nodes, built) && Least(tree, seen, root, subs)
    requires root in built && AllCovered(tree, nodes.Keys, root, subs) && forall k | 0 <= k < |subs| :: subs[k].hypothesis in built
    ensures (forall f <- built :: Sized(f)) <==> SeenSized(tree, seen, root, subs)
  {
    assert Closed(tree, nodes.Keys);
    var formulas := AllFormulas(tree, seen, root, subs);
    forall f <- formulas
      ensures f in built
    {
      if f != root && !(exists k | 0 <= k < |subs| :: f == subs[k].hypothesis) {
        var g :| g in seen && g in tree.gates && f == tree.gates[g];
        assert g in nodes;
      }
    }
  }

  /** Constructs the graph of a fault tree with its declarative substitutions. The basic
      events have the indices from 2 on, and all gates have greater ones. All gates have as
      many arguments as their connectives demand exactly if no formula that is met is a
      cardinality over one argument with a single number. */
  method ConstructPdag(tree: FaultTree, root: Formula, subs: seq<Substitution>, rule: PairRule, ghost level: nat) returns (t: Translator, numVariables: nat)
    requires tree.Valid() && tree.Below(root, level) && tree.WellFormed(root)
    requires forall k | 0 <= k < |subs| :: Usable(tree, subs[k], level)
    ensures fresh(t) && fresh(t.pdag) && t.pdag.Valid() && t.tree == tree && t.pdag.rule == rule && t.pdag.root in t.pdag.gates
    ensures Applied(tree, t.index, t.pdag.gates, t.pdag.root, root, subs, level)
    ensures forall v :: v in t.pdag.variables <==> 2 <= v < 2 + numVariables
    ensures Indexed(t.index, t.pdag.variables) && |t.index| == numVariables
    ensures forall b <- t.index :: b !in tree.ccf && Used(tree, t.seen, root, subs, b)
    ensures forall g <- t.pdag.gates :: g >= 2 + numVariables
    ensures Gathered(tree, t.index, t.seen) && Known(tree, t.index, t.seen, root) && forall g :: g in t.seen <==> Met(tree, root, subs, g)
    ensures forall k | 0 <= k < |subs| :: SubstitutionKnown(tree, t.index, t.seen, subs[k])
    ensures AllComplete(t.pdag.gates) <==> AllSized(tree, root, subs)
    ensures t.pdag.registerNullGates && !t.pdag.complement && Registered(t.pdag.gates, t.pdag.nullGates, 0)
    ensures AreNull(t.pdag.gates, t.pdag.nullGates, t.pdag.nodeIndex) && Orphan(t.pdag.parents, t.pdag.root)
  {
    hide Sound, Constructed, Counted, Means, Applied, Known, Covered, Closed, FaultTree.Below, FaultTree.WellFormed;
    hide AllApply, Usable, SubstitutionKnown, SubstitutionCovered, Gathered, Least, Met, AllSized, SeenSized, Sized, Gate.Complete, Registered, AreNull;
    var seen, events := GatherAll(tree, root, subs, level);
    numVariables := |events|;
    IndexSize(events);
    IndexedEvents(events);
    SeenGates(tree, IndexOf(events), seen);
    t := new Translator(tree, events, seen, AllFormulas(tree, seen, root, subs), Height(level) + if subs == [] then 0 else 2, rule);
    var top := ConstructTop(t, root, subs, level);
    Completed(t, root, subs, top);
    SeenAreMet(tree, t.index, seen, root, subs);
    t.pdag.SetRoot(top);
  }

  /** What the construction has established in the end. */
  lemma Completed(t: Translator, root: Formula, subs: seq<Substitution>, top: int)
    requires t.Valid({}) && Least(t.tree, t.seen, root, subs) && t.formulas == AllFormulas(t.tree, t.seen, root, subs)
    requires top in t.pdag.gates && top in t.pdag.rank && t.pdag.rank[top] == t.limit
    requires root in t.built && AllCovered(t.tree, t.nodes.Keys, root, subs)
    requires forall k | 0 <= k < |subs| :: subs[k].hypothesis in t.built
    ensures AllComplete(t.pdag.gates) <==> SeenSized(t.tree, t.seen, root, subs)
    ensures AreNull(t.pdag.gates, t.pdag.nullGates, t.pdag.nodeIndex) && Orphan(t.pdag.parents, top)
    ensures Registered(t.pdag.gates, t.pdag.nullGates, 0)
    ensures forall g <- t.pdag.gates :: g > 1 && g !in t.pdag.variables
  {
    hide Sound, Constructed, Least, SeenSized, Sized, Gate.Complete, AllCovered, AllFormulas;
    NodeFacts(t.pdag.gates, t.pdag.parents, t.pdag.variables, t.pdag.nodeIndex, t.pdag.rank);
    TopOrphan(t.pdag.gates, t.pdag.parents, t.pdag.variables, t.pdag.nodeIndex, t.pdag.rank, top);
    AllBuilt(t.tree, t.seen, root, subs, t.nodes, t.built);
    NoneOpen(t.pdag.gates);
  }

  lemma NoneOpen(gates: Gates)
    ensures Clean(gates, {}) <==> AllComplete(gates)
  {
  }

  /** The gate of the root, or that of the root and all implications. */
  method ConstructTop(t: Translator, root: Formula, subs: seq<Substitution>, ghost level: nat) returns (top: int)
    requires t.Valid({}) && t.tree.Below(root, level) && t.tree.WellFormed(root) && Known(t.tree, t.index, t.seen, root)
    requires forall k | 0 <= k < |subs| :: Usable(t.tree, subs[k], level) && SubstitutionKnown(t.tree, t.index, t.seen, subs[k])
    requires t.limit == Height(level) + if subs == [] then 0 else 2
    requires root in t.formulas && forall k | 0 <= k < |subs| :: subs[k].hypothesis in t.formulas
    modifies t, t.pdag
    ensures t.Valid({}) && top in t.pdag.gates && top in t.pdag.rank && t.pdag.rank[top] == t.limit
    ensures Applied(t.tree, t.index, t.pdag.gates, top, root, subs, level)
    ensures root in t.built && AllCovered(t.tree, t.nodes.Keys, root, subs)
    ensures forall k | 0 <= k < |subs| :: subs[k].hypothesis in t.built
  {
    hide Sound, Constructed, Counted, Tracked, Means, Applied, Known, Covered, FaultTree.Below, FaultTree.WellFormed;
    hide AllApply, Usable, SubstitutionKnown, SubstitutionCovered, Gathered;
    top := t.ConstructFormula(root, level, {});
    NodeFacts(t.pdag.gates, t.pdag.parents, t.pdag.variables, t.pdag.nodeIndex, t.pdag.rank);
    if subs == [] {
      RootApplies(t.tree, t.index, t.pdag.gates, top, root, level);
    } else {
      ghost var nodes := t.nodes.Keys;
      top := ApplySubstitutions(t, top, root, subs, level);
      CoveredMore(t.tree, nodes, t.nodes.Keys, root);
    }
  }

  lemma SeenGates(tree: FaultTree, index: VariableIndex, seen: set<int>)
    requires Gathered(tree, index, seen)
    ensures forall g <- seen :: g in tree.gates
  {
  }

  /** The conjunction of all implications and the root. */
  method ApplySubstitutions(t: Translator, r: int, root: Formula, subs: seq<Substitution>, ghost level: nat) returns (g: int)
    requires t.Valid({}) && forall k | 0 <= k < |subs| :: Usable(t.tree, subs[k], level) && SubstitutionKnown(t.tree, t.index, t.seen, subs[k])
    requires Means(t.tree, t.index, t.pdag.gates, {}, r, root, level) && r > 1 && r in t.pdag.gates && r in t.pdag.parents
    requires r in t.pdag.rank && t.pdag.rank[r] <= Height(level)
    requires Height(level) + 2 <= t.limit && subs != [] && forall k | 0 <= k < |subs| :: subs[k].hypothesis in t.formulas
    modifies t, t.pdag
    ensures old(t.built) <= t.built && forall h <- old(t.nodes) :: h in t.nodes
    ensures forall k | 0 <= k < |subs| :: subs[k].hypothesis in t.built && SubstitutionCovered(t.tree, t.nodes.Keys, subs[k])
    ensures g in t.pdag.rank && t.pdag.rank[g] == Height(level) + 2
    ensures t.Valid({}) && g in t.pdag.gates
    ensures Applied(t.tree, t.index, t.pdag.gates, g, root, subs, level)
  {
    hide Sound, Constructed, Counted, Tracked, SubstitutionCovered, Means, Known, FaultTree.Below, FaultTree.WellFormed, Filled, Usable, SubstitutionKnown, AllApply, Applies;
    NodeFacts(t.pdag.gates, t.pdag.parents, t.pdag.variables, t.pdag.nodeIndex, t.pdag.rank);
    g := t.OpenGate(And, 0, Height(level) + 2, {});
    ghost var base, open := t.pdag.gates[g], {} + {g};
    MeansKept(t.tree, t.index, old(t.pdag.gates), {}, t.pdag.gates, open, r, root, level);
    NothingFilled(base);
    NothingApplies(t.tree, t.index, t.pdag.gates, t.pdag.rank, open, subs, level);
    ghost var s: seq<int> := [];
    for k := 0 to |subs|
      invariant t.Valid(open) && |s| == k
      invariant g in t.pdag.gates && g in t.pdag.rank && t.pdag.rank[g] == Height(level) + 2
      invariant Filled(base, t.pdag.gates[g], s) && AllApply(t.tree, t.index, t.pdag.gates, t.pdag.rank, open, s, subs, level)
      invariant Means(t.tree, t.index, t.pdag.gates, open, r, root, level)
      invariant r in t.pdag.gates && r in t.pdag.rank && t.pdag.rank[r] <= Height(level)
      invariant forall i <- s :: i in t.pdag.gates
      invariant old(t.built) <= t.built && forall h <- old(t.nodes) :: h in t.nodes
      invariant forall j | 0 <= j < k :: subs[j].hypothesis in t.built && SubstitutionCovered(t.tree, t.nodes.Keys, subs[j])
    {
      ghost var nodes := t.nodes.Keys;
      ghost var x := AddSubstitution(t, g, r, k, root, subs, level, open, base, s);
      s := s + [x];
      forall j | 0 <= j < k
        ensures SubstitutionCovered(t.tree, t.nodes.Keys, subs[j])
      {
        SubstitutionCoveredMore(t.tree, nodes, t.nodes.Keys, subs[j]);
      }
    }
    NodeFacts(t.pdag.gates, t.pdag.parents, t.pdag.variables, t.pdag.nodeIndex, t.pdag.rank);
    ghost var last, lastRank := t.pdag.gates, t.pdag.rank;
    RootApart(t.tree, t.index, last, lastRank, open, s, r, subs, level);
    t.Attach(g, r, open, base, s, |s| + 1);
    FilledFacts(base, t.pdag.gates[g], s + [r]);
    MeansKept(t.tree, t.index, last, open, t.pdag.gates, open, r, root, level);
    AllApplyKept(t.tree, t.index, last, t.pdag.gates, lastRank, t.pdag.rank, open, g, s, subs, level);
    assert open == {g};
    ApplicationApplies(t.tree, t.index, t.pdag.gates, t.pdag.rank, g, r, s, root, subs, level);
    DistinctElements(s + [r]);
    t.Finish(open, {});
  }

  /** One more implication becomes an argument. */
  method AddSubstitution(t: Translator, g: int, r: int, k: nat, ghost root: Formula, subs: seq<Substitution>, ghost level: nat,
                         ghost open: set<int>, ghost base: Gate, ghost s: seq<int>) returns (ghost x: int)
    requires t.Valid(open) && |s| == k < |subs| && base.kind.And? && g in open
    requires forall j | 0 <= j < |subs| :: Usable(t.tree, subs[j], level) && SubstitutionKnown(t.tree, t.index, t.seen, subs[j])
    requires g in t.pdag.gates && g in t.pdag.rank && t.pdag.rank[g] == Height(level) + 2
    requires Filled(base, t.pdag.gates[g], s) && AllApply(t.tree, t.index, t.pdag.gates, t.pdag.rank, open, s, subs, level)
    requires Means(t.tree, t.index, t.pdag.gates, open, r, root, level)
    requires r in t.pdag.gates && r in t.pdag.rank && t.pdag.rank[r] <= Height(level)
    requires forall i <- s :: i in t.pdag.gates
    requires Height(level) + 2 <= t.limit && subs[k].hypothesis in t.formulas
    modifies t, t.pdag
    ensures old(t.built) <= t.built && subs[k].hypothesis in t.built && SubstitutionCovered(t.tree, t.nodes.Keys, subs[k])
    ensures forall h <- old(t.nodes) :: h in t.nodes
    ensures t.Valid(open) && g in t.pdag.gates && g in t.pdag.rank && t.pdag.rank[g] == Height(level) + 2
    ensures Filled(base, t.pdag.gates[g], s + [x]) && AllApply(t.tree, t.index, t.pdag.gates, t.pdag.rank, open, s + [x], subs, level)
    ensures Means(t.tree, t.index, t.pdag.gates, open, r, root, level)
    ensures r in t.pdag.gates && r in t.pdag.rank && t.pdag.rank[r] <= Height(level)
    ensures forall i <- s + [x] :: i in t.pdag.gates
  {
    hide Sound, Constructed, Counted, Tracked, SubstitutionCovered, Means, Known, FaultTree.Below, FaultTree.WellFormed, Filled, Usable, SubstitutionKnown, AllApply, Applies, Distinct;
    NodeFacts(t.pdag.gates, t.pdag.parents, t.pdag.variables, t.pdag.nodeIndex, t.pdag.rank);
    ghost var one, oneRank := t.pdag.gates, t.pdag.rank;
    var y := ConstructSubstitution(t, subs[k], level, open);
    x := y;
    NodeFacts(t.pdag.gates, t.pdag.parents, t.pdag.variables, t.pdag.nodeIndex, t.pdag.rank);
    ghost var two, twoRank := t.pdag.gates, t.pdag.rank;
    AllApplyKept(t.tree, t.index, one, two, oneRank, twoRank, open, 0, s, subs, level);
    AllApplyNext(t.tree, t.index, one, two, twoRank, open, s, y, subs, level);
    t.Attach(g, y, open, base, s, |subs| + 1);
    AllApplyKept(t.tree, t.index, two, t.pdag.gates, twoRank, t.pdag.rank, open, g, s + [y], subs, level);
    MeansKept(t.tree, t.index, one, open, t.pdag.gates, open, r, root, level);
    forall i <- s + [x]
      ensures i in t.pdag.gates
    {
      assert i in one || i == y;
    }
  }

  lemma NothingApplies(tree: FaultTree, index: VariableIndex, gates: Gates, rank: Rank, open: set<int>, subs: seq<Substitution>, level: nat)
    ensures AllApply(tree, index, gates, rank, open, [], subs, level)
  {
  }

  /** The root has a lower rank than the implications. */
  lemma RootApart(tree: FaultTree, index: VariableIndex, gates: Gates, rank: Rank, open: set<int>, s: seq<int>, r: int, subs: seq<Substitution>, level: nat)
    requires AllApply(tree, index, gates, rank, open, s, subs, level) && r > 1 && r in rank && rank[r] <= Height(level)
    ensures Distinct(s + [r])
  {
    forall i | 0 <= i < |s|
      ensures Abs(s[i]) != Abs(r)
    {
      assert rank[s[i]] == Height(level) + 1;
    }
  }
}
