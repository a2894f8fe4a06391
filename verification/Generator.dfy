/** The random fault tree generator. The random choices are inputs, so that every sequence of
    choices is covered; a run may stop after any number of them. */
module Generator {
  import Sets
  import opened FaultTrees

  /** What is drawn for one argument: a new gate, candidates among the common gates in some
      order, or a basic event. */
  datatype Choice = NewGate | CommonGate(candidates: seq<int>) | BasicEvent(event: int)

  /** The draws for one gate of the queue, and the gate drawn if the queue is exhausted. */
  datatype Round = Round(numArguments: nat, choices: seq<Choice>, exhausted: int)

  // What a gate gets from the draws.

  type Events = map<int, set<int>>

  ghost function BasicEvents(choices: seq<Choice>): set<int> {
    set i | 0 <= i < |choices| && choices[i].BasicEvent? :: choices[i].event
  }

  ghost predicate Candidate(choices: seq<Choice>, x: int) {
    exists i | 0 <= i < |choices| :: choices[i].CommonGate? && x in choices[i].candidates
  }

  ghost function NewGates(choices: seq<Choice>): set<int> {
    set i | 0 <= i < |choices| && choices[i].NewGate?
  }

  ghost function CommonGates(choices: seq<Choice>): set<int> {
    set i | 0 <= i < |choices| && choices[i].CommonGate?
  }

  /** A new gate without arguments becomes an argument of the gate. */
  ghost predicate Grew(before: Links, events: Events, after: Links, events': Events, gate: int, added: int) {
    && gate in before && added !in before
    && after == before[added := {}][gate := before[gate] + {added}] && events' == events[added := {}]
  }

  /** A gate that was there becomes an argument of the gate. */
  ghost predicate Shared(before: Links, events: Events, after: Links, events': Events, gate: int, x: int) {
    gate in before && x in before && after == before[gate := before[gate] + {x}] && events' == events
  }

  /** What one choice gives to a gate. */
  ghost predicate Gives(before: Links, events: Events, after: Links, events': Events, gate: int, choice: Choice) {
    match choice
    case BasicEvent(event) => after == before && gate in events && events' == events[gate := events[gate] + {event}]
    case NewGate => exists added :: Grew(before, events, after, events', gate, added)
    case CommonGate(candidates) =>
      || (after == before && events' == events)
      || (exists x <- candidates :: Shared(before, events, after, events', gate, x))
      || exists added :: Grew(before, events, after, events', gate, added)
  }

  /** The gate gets exactly the basic events that are drawn, and gates that are new or among the
      candidates. All new gates are its arguments and have none yet, and other gates stay. */
  ghost predicate Given(before: Links, events: Events, after: Links, events': Events, gate: int, choices: seq<Choice>) {
    && gate in before && before.Keys <= after.Keys && events.Keys == before.Keys && events'.Keys == after.Keys
    && (forall h <- before :: h != gate ==> after[h] == before[h] && events'[h] == events[h])
    && (forall h <- after :: h !in before ==> after[h] == {} && events'[h] == {} && h in after[gate])
    && events'[gate] == events[gate] + BasicEvents(choices)
    && before[gate] <= after[gate]
    && (forall x <- after[gate] :: x in before[gate] || x !in before || Candidate(choices, x))
    && |before| + |NewGates(choices)| <= |after| <= |before| + |NewGates(choices)| + |CommonGates(choices)|
  }

  lemma NothingGiven(before: Links, events: Events, gate: int)
    requires gate in before && events.Keys == before.Keys
    ensures Given(before, events, before, events, gate, [])
  {
    assert NewGates([]) == {} && CommonGates([]) == {};
    assert BasicEvents([]) == {};
  }

  lemma EventsNext(choices: seq<Choice>, choice: Choice)
    ensures BasicEvents(choices + [choice]) == BasicEvents(choices) + if choice.BasicEvent? then {choice.event} else {}
  {
    var all, n := choices + [choice], |choices|;
    assert all[n] == choice;
    forall e: int
      ensures e in BasicEvents(all) <==> e in BasicEvents(choices) + if choice.BasicEvent? then {choice.event} else {}
    {
      if e in BasicEvents(choices) {
        var i :| 0 <= i < n && choices[i].BasicEvent? && choices[i].event == e;
        assert all[i] == choices[i];
      }
    }
    Sets.SameSet(BasicEvents(all), BasicEvents(choices) + if choice.BasicEvent? then {choice.event} else {});
  }

  lemma NewGatesNext(choices: seq<Choice>, choice: Choice)
    ensures |NewGates(choices + [choice])| == |NewGates(choices)| + if choice.NewGate? then 1 else 0
  {
    assert NewGates(choices + [choice]) == NewGates(choices) + if choice.NewGate? then {|choices|} else {};
  }

  lemma CommonGatesNext(choices: seq<Choice>, choice: Choice)
    ensures |CommonGates(choices + [choice])| == |CommonGates(choices)| + if choice.CommonGate? then 1 else 0
  {
    assert CommonGates(choices + [choice]) == CommonGates(choices) + if choice.CommonGate? then {|choices|} else {};
  }

  lemma CandidateNext(choices: seq<Choice>, choice: Choice)
    ensures forall x :: Candidate(choices, x) ==> Candidate(choices + [choice], x)
    ensures choice.CommonGate? ==> forall x <- choice.candidates :: Candidate(choices + [choice], x)
  {
    var all, n := choices + [choice], |choices|;
    assert all[n] == choice;
    forall x | Candidate(choices, x)
      ensures Candidate(all, x)
    {
      var i :| 0 <= i < n && choices[i].CommonGate? && x in choices[i].candidates;
      assert all[i] == choices[i];
    }
  }

  lemma GivenNext(before: Links, events: Events, middle: Links, events': Events, after: Links, events'': Events,
                  gate: int, choices: seq<Choice>, choice: Choice)
    requires Given(before, events, middle, events', gate, choices) && Gives(middle, events', after, events'', gate, choice)
    ensures Given(before, events, after, events'', gate, choices + [choice])
  {
    hide Given, Grew, Shared;
    match choice
    case BasicEvent(event) =>
      GivenEvent(before, events, middle, events', gate, choices, choice);
    case NewGate =>
      var added :| Grew(middle, events', after, events'', gate, added);
      GivenNew(before, events, middle, events', after, events'', gate, choices, choice, added);
    case CommonGate(candidates) =>
      if added :| Grew(middle, events', after, events'', gate, added) {
        GivenNew(before, events, middle, events', after, events'', gate, choices, choice, added);
      } else if x :| x in candidates && Shared(middle, events', after, events'', gate, x) {
        GivenShared(before, events, middle, events', after, events'', gate, choices, choice, x);
      } else {
        GivenSame(before, events, middle, events', gate, choices, choice);
      }
  }

  lemma GivenEvent(before: Links, events: Events, middle: Links, events': Events, gate: int, choices: seq<Choice>, choice: Choice)
    requires Given(before, events, middle, events', gate, choices) && choice.BasicEvent?
    ensures gate in events'
    ensures Given(before, events, middle, events'[gate := events'[gate] + {choice.event}], gate, choices + [choice])
  {
    EventsNext(choices, choice);
    NewGatesNext(choices, choice);
    CommonGatesNext(choices, choice);
    CandidateNext(choices, choice);
    hide BasicEvents, NewGates, CommonGates, Candidate;
    assert events'[gate] + {choice.event} == events[gate] + (BasicEvents(choices) + {choice.event});
  }

  lemma GivenNew(before: Links, events: Events, middle: Links, events': Events, after: Links, events'': Events,
                 gate: int, choices: seq<Choice>, choice: Choice, added: int)
    requires Given(before, events, middle, events', gate, choices) && !choice.BasicEvent?
    requires Grew(middle, events', after, events'', gate, added)
    ensures Given(before, events, after, events'', gate, choices + [choice])
  {
    EventsNext(choices, choice);
    NewGatesNext(choices, choice);
    CommonGatesNext(choices, choice);
    CandidateNext(choices, choice);
    hide BasicEvents, NewGates, CommonGates, Candidate;
    assert after.Keys == middle.Keys + {added};
    assert BasicEvents(choices) + {} == BasicEvents(choices);
    assert |after| == |middle| + 1;
  }

  lemma GivenShared(before: Links, events: Events, middle: Links, events': Events, after: Links, events'': Events,
                    gate: int, choices: seq<Choice>, choice: Choice, x: int)
    requires Given(before, events, middle, events', gate, choices) && choice.CommonGate? && x in choice.candidates
    requires Shared(middle, events', after, events'', gate, x)
    ensures Given(before, events, after, events'', gate, choices + [choice])
  {
    EventsNext(choices, choice);
    NewGatesNext(choices, choice);
    CommonGatesNext(choices, choice);
    CandidateNext(choices, choice);
    hide BasicEvents, NewGates, CommonGates, Candidate;
    assert after.Keys == middle.Keys;
    assert BasicEvents(choices) + {} == BasicEvents(choices);
    assert |after| == |middle|;
  }

  lemma GivenSame(before: Links, events: Events, middle: Links, events': Events, gate: int, choices: seq<Choice>, choice: Choice)
    requires Given(before, events, middle, events', gate, choices) && choice.CommonGate?
    ensures Given(before, events, middle, events', gate, choices + [choice])
  {
    EventsNext(choices, choice);
    NewGatesNext(choices, choice);
    CommonGatesNext(choices, choice);
    CandidateNext(choices, choice);
    hide BasicEvents, NewGates, CommonGates, Candidate;
    assert BasicEvents(choices) + {} == BasicEvents(choices);
  }

  /** A candidate that is no argument yet and closes no cycle. */
  predicate Suitable(arguments: Links, gate: int, ancestors: set<int>, x: int) {
    gate in arguments && x in arguments && x !in arguments[gate] && x != gate && (arguments[x] == {} || x !in ancestors)
  }

  /** No candidate is suitable before the tries run out. */
  ghost predicate Passed(candidates: seq<int>, arguments: Links, gate: int, ancestors: set<int>, maxTries: nat, tries: nat) {
    forall i | 0 <= i < |candidates| && tries + i + 1 < maxTries :: !Suitable(arguments, gate, ancestors, candidates[i])
  }

  class GeneratorFaultTree {
    const tree: FaultTree
    var commonGates: seq<int>
    var queue: seq<int>
    /** All gates that have ever entered the queue. */
    ghost var entered: seq<int>

    ghost predicate Valid()
      reads this, tree
    {
      && tree.Valid()
      && (forall g <- commonGates :: g in tree.gArguments)
      && (forall i, j | 0 <= i < j < |entered| :: entered[i] != entered[j])
      && (forall g <- queue :: g in entered)
      && (forall g <- entered :: g in tree.gArguments)
      && forall g <- tree.gArguments :: g in entered <==> g !in commonGates || tree.parents[g] != {}
    }

    /** The top gate enters the queue; common gates wait for their first parent. */
    constructor (numCommon: nat)
      ensures Valid() && fresh(tree) && |commonGates| == numCommon && |entered| == 1 && queue == entered
    {
      tree := new FaultTree();
      commonGates, queue, entered := [], [], [];
      new;
      var top := tree.ConstructGate();
      queue, entered := [top], [top];
      for i := 0 to numCommon
        invariant Valid() && fresh(tree) && |commonGates| == i && entered == [top] && queue == entered
        invariant forall g <- tree.gArguments :: tree.parents[g] == {}
      {
        var g := tree.ConstructGate();
        commonGates := commonGates + [g];
      }
    }

    method Enqueue(g: int)
      requires g !in entered
      modifies this`queue, this`entered
      ensures queue == old(queue) + [g] && entered == old(entered) + [g]
    {
      queue := queue + [g];
      entered := entered + [g];
    }

    /** A new argument gate enters the queue. */
    method AddNewGate(gate: int)
      requires Valid() && gate in tree.gArguments
      modifies this`queue, this`entered, tree
      ensures Valid() && commonGates == old(commonGates)
      ensures Ancestors(gate, tree.parents) == old(Ancestors(gate, tree.parents)) && gate in tree.gArguments
      ensures old(entered) <= entered && queue == old(queue) + entered[|old(entered)|..]
      ensures exists added :: Grew(old(tree.gArguments), old(tree.bArguments), tree.gArguments, tree.bArguments, gate, added) && entered == old(entered) + [added]
    {
      KnownParents(tree.gArguments, tree.parents);
      ghost var parents := tree.parents;
      var added := tree.ConstructGate();
      AncestorsWithNew(gate, parents, added);
      tree.AddArgument(gate, added);
      Enqueue(added);
    }

    /** The first suitable candidate becomes an argument, and enters the queue if this is its
        first parent. */
    method AddCommonGate(gate: int, candidates: seq<int>, ancestors: set<int>, tries: nat) returns (nextTries: nat)
      requires Valid() && gate in tree.gArguments && ancestors == Ancestors(gate, tree.parents)
      requires forall c <- candidates :: c in commonGates
      modifies this`queue, this`entered, tree
      ensures Valid() && commonGates == old(commonGates)
      ensures Ancestors(gate, tree.parents) == old(Ancestors(gate, tree.parents)) && gate in tree.gArguments
      ensures old(entered) <= entered && queue == old(queue) + entered[|old(entered)|..]
      ensures || (tree.gArguments == old(tree.gArguments) && tree.bArguments == old(tree.bArguments))
              || exists x <- candidates :: Shared(old(tree.gArguments), old(tree.bArguments), tree.gArguments, tree.bArguments, gate, x)
      ensures Passed(candidates, old(tree.gArguments), gate, ancestors, |commonGates|, tries) ==>
                tree.gArguments == old(tree.gArguments)
      ensures !Passed(candidates, old(tree.gArguments), gate, ancestors, |commonGates|, tries) ==>
                exists i | 0 <= i < |candidates| ::
                  && Suitable(old(tree.gArguments), gate, ancestors, candidates[i])
                  && (forall j | 0 <= j < i :: !Suitable(old(tree.gArguments), gate, ancestors, candidates[j]))
                  && Shared(old(tree.gArguments), old(tree.bArguments), tree.gArguments, tree.bArguments, gate, candidates[i])
    {
      nextTries := tries;
      for i := 0 to |candidates|
        invariant Valid() && unchanged(this) && unchanged(tree) && nextTries == tries + i
        invariant forall j | 0 <= j < i :: !Suitable(tree.gArguments, gate, ancestors, candidates[j]) && tries + j + 1 < |commonGates|
      {
        var candidate := candidates[i];
        assert candidate in candidates;
        nextTries := nextTries + 1;
        if nextTries >= |commonGates| {
          break;
        }
        if candidate in tree.gArguments[gate] || candidate == gate {
          continue;
        }
        if tree.gArguments[candidate] == {} || candidate !in ancestors {
          LeafOrNoAncestor(tree.gArguments, tree.parents, gate, candidate);
          if tree.parents[candidate] == {} {
            Enqueue(candidate);
          }
          tree.AddArgument(gate, candidate);
          break;
        }
      }
    }

    /** Gives the first gate of the queue its arguments: those of the first draws, as many as it
        takes to have enough. New arguments without another parent enter the queue. */
    method InitGates(numArguments: nat, choices: seq<Choice>) returns (used: nat)
      requires Valid() && queue != [] && forall c <- choices :: c.CommonGate? ==> forall g <- c.candidates :: g in commonGates
      modifies this`queue, this`entered, tree
      ensures Valid() && commonGates == old(commonGates) && old(entered) <= entered
      ensures queue == old(queue)[1..] + entered[|old(entered)|..]
      ensures used <= |choices| && old(queue)[0] in tree.gArguments
      ensures used == |choices| || tree.NumArguments(old(queue)[0]) >= numArguments
      ensures Given(old(tree.gArguments), old(tree.bArguments), tree.gArguments, tree.bArguments, old(queue)[0], choices[..used])
    {
      hide Given, Gives, Grew, Shared;
      var gate := queue[0];
      assert gate in queue;
      queue := queue[1..];
      KnownParents(tree.gArguments, tree.parents);
      NothingGiven(tree.gArguments, tree.bArguments, gate);
      var ancestors := {};
      var tries: nat := 0;
      used := 0;
      while used < |choices| && tree.NumArguments(gate) < numArguments
        invariant used <= |choices|
        invariant Valid() && commonGates == old(commonGates) && old(entered) <= entered && gate in tree.gArguments
        invariant queue == old(queue)[1..] + entered[|old(entered)|..]
        invariant ancestors == {} || ancestors == Ancestors(gate, tree.parents)
        invariant Given(old(tree.gArguments), old(tree.bArguments), tree.gArguments, tree.bArguments, gate, choices[..used])
        decreases |choices| - used
      {
        var choice := choices[used];
        assert choice in choices;
        ghost var middle, events, before := tree.gArguments, tree.bArguments, entered;
        ancestors, tries := AddChoice(gate, choice, ancestors, tries);
        assert entered[|old(entered)|..] == before[|old(entered)|..] + entered[|before|..];
        GivenNext(old(tree.gArguments), old(tree.bArguments), middle, events, tree.gArguments, tree.bArguments, gate, choices[..used], choice);
        assert choices[..used + 1] == choices[..used] + [choice];
        used := used + 1;
      }
    }

    /** Gives a gate what one choice says. Ancestors are collected when they are needed first. */
    method AddChoice(gate: int, choice: Choice, ancestors: set<int>, tries: nat) returns (known: set<int>, nextTries: nat)
      requires Valid() && gate in tree.gArguments && (ancestors == {} || ancestors == Ancestors(gate, tree.parents))
      requires choice.CommonGate? ==> forall g <- choice.candidates :: g in commonGates
      modifies this`queue, this`entered, tree
      ensures Valid() && commonGates == old(commonGates) && gate in tree.gArguments
      ensures old(entered) <= entered && queue == old(queue) + entered[|old(entered)|..]
      ensures known == {} || known == Ancestors(gate, tree.parents)
      ensures Gives(old(tree.gArguments), old(tree.bArguments), tree.gArguments, tree.bArguments, gate, choice)
    {
      hide Grew, Shared, Passed;
      known, nextTries := ancestors, tries;
      match choice
      case BasicEvent(event) =>
        tree.AddBasicArgument(gate, event);
      case NewGate =>
        AddNewGate(gate);
      case CommonGate(candidates) =>
        if tries < |commonGates| {
          if known == {} {
            known := tree.GetAncestors(gate);
            KnownParents(tree.gArguments, tree.parents);
            AncestorsUnique(known, gate, tree.parents);
          }
          nextTries := AddCommonGate(gate, candidates, known, nextTries);
        } else {
          AddNewGate(gate);
        }
    }

    /** Starts over from some gate when the queue is exhausted too early. */
    method CorrectForExhaustion(gate: int)
      requires Valid()
      modifies this`queue, this`entered, tree
      ensures Valid() && commonGates == old(commonGates) && old(entered) <= entered
      ensures if old(queue) == [] && gate in old(tree.gArguments) && gate !in commonGates
              then exists added ::
                     && Grew(old(tree.gArguments), old(tree.bArguments), tree.gArguments, tree.bArguments, gate, added)
                     && queue == [added]
              else tree.gArguments == old(tree.gArguments) && tree.bArguments == old(tree.bArguments) && queue == old(queue)
    {
      if queue == [] && gate in tree.gArguments && gate !in commonGates {
        AddNewGate(gate);
      }
    }
  }

  /** The gate graph stays acyclic and each gate enters the queue at most once, for every
      sequence of random choices. */
  method GenerateFaultTree(numCommon: nat, rounds: seq<Round>) returns (generator: GeneratorFaultTree)
    ensures fresh(generator) && generator.Valid() && Acyclic(generator.tree.gArguments, generator.tree.rank)
    ensures forall i, j | 0 <= i < j < |generator.entered| :: generator.entered[i] != generator.entered[j]
  {
    generator := new GeneratorFaultTree(numCommon);
    var i := 0;
    while i < |rounds| && generator.queue != []
      invariant generator.Valid() && fresh(generator) && fresh(generator.tree)
      decreases |rounds| - i
    {
      var choices := Usable(rounds[i].choices, generator.commonGates);
      var used := generator.InitGates(rounds[i].numArguments, choices);
      generator.CorrectForExhaustion(rounds[i].exhausted);
      i := i + 1;
    }
  }

  /** The choices without candidates that are no common gates. */
  function Usable(choices: seq<Choice>, commonGates: seq<int>): (r: seq<Choice>)
    ensures forall c <- r :: c.CommonGate? ==> forall g <- c.candidates :: g in commonGates
    ensures (forall c <- choices :: c.CommonGate? ==> forall g <- c.candidates :: g in commonGates) ==> r == choices
  {
    if choices == [] then []
    else
      var c := choices[|choices| - 1];
      Usable(choices[..|choices| - 1], commonGates)
      + if c.CommonGate? && exists g <- c.candidates :: g !in commonGates then [] else [c]
  }

  lemma LeafOrNoAncestor(arguments: Links, parents: Links, g: int, x: int)
    requires Linked(arguments, parents) && g in arguments && x in arguments && x != g
    requires arguments[x] == {} || x !in Ancestors(g, parents)
    ensures x !in Ancestors(g, parents)
  {
    KnownParents(arguments, parents);
    AncestorsAre(g, parents);
    if arguments[x] == {} {
      LeafIsNoAncestor(arguments, parents, Ancestors(g, parents), g, x);
    }
  }
}
