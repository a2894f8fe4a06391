/** The first phase of preprocessing: the graph of a fault tree without pass-through gates. */
module Preprocessing {
  import opened Indices
  import opened Connectives
  import opened Links
  import opened Values
  import opened Joining
  import opened Separation
  import opened Progress
  import opened Formulas
  import opened Meanings
  import opened Rewriting
  import opened Translation
  import opened Substitutions

  /** The variables of the basic events that are true. */
  ghost function VariablesOf(index: VariableIndex, true_: iset<int>): Valuation {
    iset n: int | OfTrue(index, n, true_)
  }

  ghost predicate OfTrue(index: VariableIndex, n: int, true_: iset<int>) {
    exists b <- index :: index[b] == n && b in true_
  }

  /** Every assignment of the basic events is one of their variables. */
  lemma EventsReached(index: VariableIndex, variables: set<int>, true_: iset<int>)
    requires Indexed(index, variables)
    ensures forall b <- index :: b in Events(index, VariablesOf(index, true_)) <==> b in true_
  {
  }

  /** The value of a formula depends only on the basic events that have been gathered. */
  lemma {:induction false} ValueOfKnown(tree: FaultTree, index: VariableIndex, seen: set<int>, f: Formula, level: nat,
                                        true_: iset<int>, true': iset<int>)
    requires tree.Valid() && tree.Below(f, level) && Gathered(tree, index, seen) && Known(tree, index, seen, f)
    requires forall b <- index :: b in true_ <==> b in true'
    ensures tree.Value(f, level, true_) <==> tree.Value(f, level, true')
    decreases level, 1
  {
    forall i | 0 <= i < |f.args|
      ensures tree.EventValue(f.args[i].event, level, true_) == tree.EventValue(f.args[i].event, level, true')
    {
      ArgumentFacts(tree, index, seen, f, level, i);
      EventValueOfKnown(tree, index, seen, f.args[i].event, level, true_, true');
    }
    assert tree.ArgValues(f, level, true_) == tree.ArgValues(f, level, true');
  }

  lemma {:induction false} EventValueOfKnown(tree: FaultTree, index: VariableIndex, seen: set<int>, e: Event, level: nat,
                                             true_: iset<int>, true': iset<int>)
    requires tree.Valid() && tree.EventBelow(e, level) && Gathered(tree, index, seen) && EventKnown(tree, index, seen, e)
    requires forall b <- index :: b in true_ <==> b in true'
    ensures tree.EventValue(e, level, true_) == tree.EventValue(e, level, true')
    decreases level, 0
  {
    match tree.Resolve(e)
    case GateEvent(g) => ValueOfKnown(tree, index, seen, tree.gates[g], tree.rank[g], true_, true');
    case _ =>
  }

  ghost predicate AllUsable(tree: FaultTree, root: Formula, subs: seq<Substitution>, level: nat) {
    tree.Valid() && tree.Below(root, level) && forall k | 0 <= k < |subs| :: Usable(tree, subs[k], level)
  }

  /** The root formula together with all implications. */
  ghost predicate Intended(tree: FaultTree, root: Formula, subs: seq<Substitution>, level: nat, true_: iset<int>)
    requires AllUsable(tree, root, subs, level)
  {
    tree.Value(root, level, true_) && forall k | 0 <= k < |subs| :: Implied(tree, subs[k], level, true_)
  }

  lemma IntendedOfKnown(tree: FaultTree, index: VariableIndex, seen: set<int>, root: Formula, subs: seq<Substitution>, level: nat,
                        true_: iset<int>, true': iset<int>)
    requires AllUsable(tree, root, subs, level) && Gathered(tree, index, seen) && Known(tree, index, seen, root)
    requires forall k | 0 <= k < |subs| :: SubstitutionKnown(tree, index, seen, subs[k])
    requires forall b <- index :: b in true_ <==> b in true'
    ensures Intended(tree, root, subs, level, true_) <==> Intended(tree, root, subs, level, true')
  {
    ValueOfKnown(tree, index, seen, root, level, true_, true');
    forall k | 0 <= k < |subs|
      ensures Implied(tree, subs[k], level, true_) <==> Implied(tree, subs[k], level, true')
    {
      ValueOfKnown(tree, index, seen, subs[k].hypothesis, level, true_, true');
      if subs[k].target.Some? {
        EventValueOfKnown(tree, index, seen, subs[k].target.value, level, true_, true');
      }
    }
  }

  /** The graph has the value of the root formula together with all implications, whichever
      basic events are true. */
  ghost predicate Computes(tree: FaultTree, index: VariableIndex, root: Formula, subs: seq<Substitution>, level: nat,
                           s: Snapshot, top: int, complement: bool) {
    && AllUsable(tree, root, subs, level) && Acyclic(s.gates, s.rank) && top in s.gates
    && forall true_: iset<int> ::
         GraphValue(s.gates, s.rank, top, complement, VariablesOf(index, true_)) <==> Intended(tree, root, subs, level, true_)
  }

  lemma AppliedComputes(tree: FaultTree, index: VariableIndex, seen: set<int>, variables: set<int>, root: Formula, subs: seq<Substitution>,
                        level: nat, s: Snapshot, top: int)
    requires Sound(s.gates, s.parents, variables, s.last, s.rank) && Indexed(index, variables)
    requires Applied(tree, index, s.gates, top, root, subs, level)
    requires Gathered(tree, index, seen) && Known(tree, index, seen, root)
    requires forall k | 0 <= k < |subs| :: SubstitutionKnown(tree, index, seen, subs[k])
    ensures Computes(tree, index, root, subs, level, s, top, false)
  {
    hide Known, SubstitutionKnown, Gathered, Implied, FaultTree.Below, FaultTree.Valid, FaultTree.Value, VariablesOf, Events;
    SoundFacts(s.gates, s.parents, variables, s.last, s.rank);
    forall b <- index
      ensures index[b] != 1 && index[b] !in s.gates
    {
      assert index[b] in {1} + variables;
      VariableNode(s.gates, s.parents, variables, s.last, s.rank, index[b]);
    }
    forall true_: iset<int>
      ensures GraphValue(s.gates, s.rank, top, false, VariablesOf(index, true_)) <==> Intended(tree, root, subs, level, true_)
    {
      var a := VariablesOf(index, true_);
      FunctionOfGraph(tree, index, s.gates, s.rank, top, root, subs, level, a);
      EventsReached(index, variables, true_);
      IntendedOfKnown(tree, index, seen, root, subs, level, Events(index, a), true_);
    }
  }

  lemma ComputesKept(tree: FaultTree, index: VariableIndex, root: Formula, subs: seq<Substitution>, level: nat,
                     s: Snapshot, top: int, complement: bool, t: Snapshot, top': int, complement': bool)
    requires Computes(tree, index, root, subs, level, s, top, complement) && SameGraph(s, top, complement, t, top', complement')
    ensures Computes(tree, index, root, subs, level, t, top', complement')
  {
    hide Intended, AllUsable, VariablesOf;
  }

  lemma RemovalSame(s: Snapshot, t: Snapshot, rule: PairRule, top: int)
    requires Run(s, t, 0, [Removal(s, t)], rule) && top in s.gates && top in t.gates
    ensures SameGraph(s, top, false, t, top, false)
  {
    hide Leads, Certifiable, NotMore, Advanced, Quiet;
    var steps := [Removal(s, t)];
    assert forall step <- steps :: !Wrong(step, rule);
    SameValuesSameGraph(s, t, top, false);
  }

  /** The graph as it is once the table of gates is given up: the gates that only the table
      referred to disappear. */
  method BuildGraph(tree: FaultTree, root: Formula, subs: seq<Substitution>, rule: PairRule, ghost level: nat)
      returns (t: Translator, numVariables: nat)
    requires tree.Valid() && tree.Below(root, level) && tree.WellFormed(root)
    requires forall k | 0 <= k < |subs| :: Usable(tree, subs[k], level)
    ensures fresh(t) && fresh(t.pdag) && t.pdag.Valid() && t.pdag.rule == rule && t.pdag.root in t.pdag.gates && !t.pdag.complement
    ensures forall v :: v in t.pdag.variables <==> 2 <= v < 2 + numVariables
    ensures Indexed(t.index, t.pdag.variables) && |t.index| == numVariables
    ensures forall b <- t.index :: b !in tree.ccf && Used(tree, t.seen, root, subs, b)
    ensures Gathered(tree, t.index, t.seen) && Known(tree, t.index, t.seen, root)
    ensures forall k | 0 <= k < |subs| :: SubstitutionKnown(tree, t.index, t.seen, subs[k])
    ensures Computes(tree, t.index, root, subs, level, t.pdag.Now(), t.pdag.root, false)
    ensures AllSized(tree, root, subs) ==> AllComplete(t.pdag.gates)
    ensures t.pdag.registerNullGates && Registered(t.pdag.gates, t.pdag.nullGates, 0)
    ensures AreNull(t.pdag.gates, t.pdag.nullGates, t.pdag.nodeIndex)
    ensures forall g <- t.pdag.gates :: g == t.pdag.root <==> Orphan(t.pdag.parents, g)
  {
    hide Sound, Applied, Known, SubstitutionKnown, Gathered, Met, AllSized, Gate.Complete, Computes, Run, Usable, FaultTree.Below,
         FaultTree.WellFormed, FaultTree.Valid, Indexed, SameGraph;
    t, numVariables := ConstructPdag(tree, root, subs, rule, level);
    AppliedComputes(tree, t.index, t.seen, t.pdag.variables, root, subs, level, t.pdag.Now(), t.pdag.root);
    ghost var built := t.pdag.Now();
    t.pdag.Reclaim({t.pdag.root});
    RemovalSame(built, t.pdag.Now(), rule, t.pdag.root);
    ComputesKept(tree, t.index, root, subs, level, built, t.pdag.root, false, t.pdag.Now(), t.pdag.root, false);
  }

  lemma NoNullGates(gates: Gates, parents: Parents, variables: set<int>, nodeIndex: int, rank: Rank)
    requires Sound(gates, parents, variables, nodeIndex, rank) && Registered(gates, [], 0)
    ensures forall h <- gates :: !gates[h].kind.Null? && !gates[h].constant
  {
    SoundFacts(gates, parents, variables, nodeIndex, rank);
    forall h <- gates
      ensures !gates[h].kind.Null? && !gates[h].constant
    {
      KindOfConstant(gates, parents, variables, nodeIndex, rank, h);
    }
  }

  /** Removes the pass-through gates, if there are any, and finds out whether the graph is a
      single variable or constant. Otherwise no pass-through gates and no constants are left,
      and the root has no parents. The function of the graph stays the same unless a step
      drops the wrong argument of a K/N gate. */
  method RunPhaseOne(pdag: Pdag) returns (trivial: bool, ghost steps: seq<Step>, ghost removed: Snapshot)
    requires pdag.Valid() && AllComplete(pdag.gates) && pdag.root in pdag.gates && pdag.registerNullGates
    requires AreNull(pdag.gates, pdag.nullGates, pdag.nodeIndex) && Registered(pdag.gates, pdag.nullGates, 0)
    requires forall g <- pdag.gates :: g == pdag.root <==> Orphan(pdag.parents, g)
    modifies pdag
    ensures pdag.Valid() && AllComplete(pdag.gates) && pdag.root in pdag.gates
    ensures forall g <- pdag.gates :: g == pdag.root <==> Orphan(pdag.parents, g)
    ensures trivial ==> !pdag.complement && pdag.gates[pdag.root].kind.Null? && pdag.gates[pdag.root].gateArgs == {}
    ensures !trivial ==> pdag.nullGates == [] && forall g <- pdag.gates :: !pdag.gates[g].kind.Null? && !pdag.gates[g].constant
    ensures Leads(old(pdag.Now()), steps, removed, pdag.rule)
    ensures !Deviated(steps, pdag.rule) || pdag.rule.AsDocumented? || Separate(old(pdag.gates), old(pdag.rank)) ==>
              SameGraph(old(pdag.Now()), old(pdag.root), old(pdag.complement), pdag.Now(), pdag.root, pdag.complement)
    ensures Separate(old(pdag.gates), old(pdag.rank)) ==> !Deviated(steps, pdag.rule)
  {
    hide Sound, AllComplete, Separate, SameValues, SameGraph, Deviated, Leads;
    SoundFacts(pdag.gates, pdag.parents, pdag.variables, pdag.nodeIndex, pdag.rank);
    if pdag.nullGates != [] {
      ghost var first := pdag.RemoveNullGates();
      ghost var middle, root, complement := pdag.Now(), pdag.root, pdag.complement;
      ghost var second;
      trivial, second, removed := pdag.IsTrivial();
      KindOfConstant(pdag.gates, pdag.parents, pdag.variables, pdag.nodeIndex, pdag.rank, pdag.root);
      steps := first + second;
      LeadsTwice(old(pdag.Now()), first, middle, second, removed, pdag.rule);
      DeviatedTwice(first, second, pdag.rule);
      DocumentedSteps(steps);
      if !Deviated(steps, pdag.rule) {
        SameValuesSameGraph(old(pdag.Now()), middle, root, complement);
        SameGraphTwice(old(pdag.Now()), root, complement, middle, root, complement, pdag.Now(), pdag.root, pdag.complement);
      }
    } else {
      trivial, steps, removed := false, [], pdag.Now();
      NoSteps(pdag.Now(), pdag.rule);
      SameGraphAgain(pdag.Now(), pdag.root, pdag.complement);
      NoNullGates(pdag.gates, pdag.parents, pdag.variables, pdag.nodeIndex, pdag.rank);
    }
  }

  /** From the fault tree to the graph without pass-through gates: the graph has the value of
      the root formula together with all implications, whichever basic events are true. As the
      code is written, this holds if no step drops the wrong argument of a K/N gate, as in
      graphs that are separate after construction; with the rule of the comments, always. */
  method Preprocess(tree: FaultTree, root: Formula, subs: seq<Substitution>, rule: PairRule, ghost level: nat)
      returns (t: Translator, trivial: bool, ghost built: Snapshot, ghost steps: seq<Step>, ghost removed: Snapshot)
    requires tree.Valid() && tree.Below(root, level) && tree.WellFormed(root)
    requires forall k | 0 <= k < |subs| :: Usable(tree, subs[k], level)
    requires AllSized(tree, root, subs)
    ensures fresh(t) && fresh(t.pdag) && t.pdag.Valid() && AllComplete(t.pdag.gates) && t.pdag.root in t.pdag.gates
    ensures Gathered(tree, t.index, t.seen) && Known(tree, t.index, t.seen, root) && Indexed(t.index, t.pdag.variables)
    ensures forall k | 0 <= k < |subs| :: SubstitutionKnown(tree, t.index, t.seen, subs[k])
    ensures forall b <- t.index :: b !in tree.ccf && Used(tree, t.seen, root, subs, b)
    ensures forall g <- t.pdag.gates :: g == t.pdag.root <==> Orphan(t.pdag.parents, g)
    ensures trivial ==> !t.pdag.complement && t.pdag.gates[t.pdag.root].kind.Null? && t.pdag.gates[t.pdag.root].gateArgs == {}
    ensures !trivial ==> forall g <- t.pdag.gates :: !t.pdag.gates[g].kind.Null? && !t.pdag.gates[g].constant
    ensures Acyclic(built.gates, built.rank) && Leads(built, steps, removed, rule)
    ensures !Deviated(steps, rule) || rule.AsDocumented? || Separate(built.gates, built.rank) ==>
              Computes(tree, t.index, root, subs, level, t.pdag.Now(), t.pdag.root, t.pdag.complement)
  {
    hide Sound, AllComplete, Separate, SameGraph, Deviated, Leads, Known, SubstitutionKnown, Gathered, Met, AllSized, Sized, Computes, Usable,
         FaultTree.Below, FaultTree.WellFormed, FaultTree.Valid, Indexed, Registered, AreNull;
    var numVariables;
    t, numVariables := BuildGraph(tree, root, subs, rule, level);
    built := t.pdag.Now();
    SoundFacts(built.gates, built.parents, t.pdag.variables, built.last, built.rank);
    ghost var top := t.pdag.root;
    trivial, steps, removed := RunPhaseOne(t.pdag);
    if !Deviated(steps, rule) || rule.AsDocumented? || Separate(built.gates, built.rank) {
      ComputesKept(tree, t.index, root, subs, level, built, top, false, t.pdag.Now(), t.pdag.root, t.pdag.complement);
    }
  }
}
