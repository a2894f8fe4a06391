/** The walk over the paths of an event tree, and the check that its instructions collect
    only formulas or only expressions. */
module EventTreeAnalysis {
  import opened Options
  import Sets
  import opened Cycles
  import opened EventTrees
  import opened Walks
  import opened Routes
  import opened WalkRoutes

  datatype Kind = Expression | Formula

  // The kinds of what is collected.

  ghost function InstructionKinds(model: Model, ranks: Ranks, i: Instruction, level: nat): set<Kind>
    decreases level, 1, i
  {
    match i
    case CollectExpression(_) => {Expression}
    case CollectFormula(_) => {Formula}
    case Link(l) => LinkKinds(model, ranks, l, level)
    case IfThenElse(_, positive, None) => InstructionKinds(model, ranks, positive, level)
    case IfThenElse(_, positive, Some(negative)) =>
      InstructionKinds(model, ranks, positive, level) + InstructionKinds(model, ranks, negative, level)
    case Block(instructions) => AllKinds(model, ranks, instructions, level)
    case SetHouseEvent(_, _) => {}
  }

  ghost function AllKinds(model: Model, ranks: Ranks, instructions: seq<Instruction>, level: nat): set<Kind>
    decreases level, 1, instructions
  {
    if instructions == [] then {}
    else
      var last := |instructions| - 1;
      AllKinds(model, ranks, instructions[..last], level) + InstructionKinds(model, ranks, instructions[last], level)
  }

  ghost function LinkKinds(model: Model, ranks: Ranks, l: int, level: nat): set<Kind>
    decreases level, 0, 0
  {
    if ranks.LowerLink(l, level) && l in model.links && model.links[l] in model.trees && model.links[l] in ranks.depths
    then BranchKinds(model, ranks, model.links[l], model.trees[model.links[l]].initial, ranks.links[l], ranks.depths[model.links[l]])
    else {}
  }

  ghost function BranchKinds(model: Model, ranks: Ranks, tree: int, b: Branch, level: nat, depth: nat): set<Kind>
    requires tree in model.trees
    decreases level, depth + 2, b
  {
    AllKinds(model, ranks, b.instructions, level) + TargetKinds(model, ranks, tree, b.target, level, depth)
  }

  ghost function TargetKinds(model: Model, ranks: Ranks, tree: int, target: Target, level: nat, depth: nat): set<Kind>
    requires tree in model.trees
    decreases level, depth + 2, target
  {
    match target
    case Sequence(id) =>
      if id in model.trees[tree].sequences then AllKinds(model, ranks, model.trees[tree].sequences[id], level) else {}
    case Fork(_, paths) => PathKinds(model, ranks, tree, paths, level, depth)
    case NamedBranch(n) =>
      if ranks.Lower(tree, n, depth) && n in model.trees[tree].branches
      then BranchKinds(model, ranks, tree, model.trees[tree].branches[n], level, ranks.branches[tree][n])
      else {}
  }

  ghost function PathKinds(model: Model, ranks: Ranks, tree: int, paths: seq<Path>, level: nat, depth: nat): set<Kind>
    requires tree in model.trees
    decreases level, depth + 2, paths
  {
    if paths == [] then {}
    else
      var last := |paths| - 1;
      PathKinds(model, ranks, tree, paths[..last], level, depth) + BranchKinds(model, ranks, tree, paths[last].branch, level, depth)
  }

  predicate Pure(kinds: set<Kind>) {
    !(Expression in kinds && Formula in kinds)
  }

  /** The functional events that are set are not later than the given order. */
  ghost predicate Before(model: Model, tree: int, context: Context, low: nat) {
    tree in model.trees && forall event <- context :: event in model.trees[tree].order && model.trees[tree].order[event] <= low
  }

  class SequenceCollector {
    const model: Model
    const holds: Condition
    ghost const ranks: Ranks
    var context: Context
    /** The paths that have been found, by sequence. */
    var sequences: map<(int, int), seq<PathCollector>>
    ghost var found: seq<Found>

    constructor (model: Model, holds: Condition, ghost ranks: Ranks)
      ensures this.model == model && this.holds == holds && this.ranks == ranks
      ensures context == map[] && found == [] && Sorted()
    {
      this.model, this.holds, this.ranks := model, holds, ranks;
      context, sequences, found := map[], map[], [];
    }

    /** The paths of each sequence are those found with that end, in order. */
    ghost predicate Sorted()
      reads this`sequences, this`found
    {
      forall tree, id :: (if (tree, id) in sequences then sequences[(tree, id)] else []) == Ending(found, tree, id)
    }

    method Register(tree: int, id: int, collector: PathCollector)
      requires Sorted()
      modifies this`sequences, this`found
      ensures Sorted() && found == old(found) + [Found(tree, id, collector)]
    {
      var key := (tree, id);
      var before := if key in sequences then sequences[key] else [];
      sequences := sequences[key := before + [collector]];
      found := found + [Found(tree, id, collector)];
      assert found[..|found| - 1] == old(found);
    }

    method WalkBranch(tree: int, b: Branch, collector: PathCollector, ghost level: nat, ghost depth: nat, ghost low: nat)
      requires Walkable(model, ranks, tree, b, level, depth, low) && Before(model, tree, context, low) && Sorted()
      modifies this
      ensures context == old(context) && Sorted()
      ensures found == old(found) + Walk(model, ranks, holds, tree, b, level, depth, context, collector)
      decreases level, depth + 2, b
    {
      var next, linked := Execute(b.instructions, collector, false, level, found, State(collector, [], false));
      WalkToTarget(tree, b.target, next, level, depth, low);
    }

    method WalkToTarget(tree: int, target: Target, collector: PathCollector, ghost level: nat, ghost depth: nat, ghost low: nat)
      requires WalkableTarget(model, ranks, tree, target, level, depth, low) && Before(model, tree, context, low) && Sorted()
      modifies this
      ensures context == old(context) && Sorted()
      ensures found == old(found) + WalkTarget(model, ranks, holds, tree, target, level, depth, context, collector)
      decreases level, depth + 2, target
    {
      match target
      case Sequence(id) =>
        var next, linked := Execute(model.trees[tree].sequences[id], collector, false, level, found, State(collector, [], false));
        if !linked {
          Register(tree, id, next);
        }
      case NamedBranch(n) =>
        WalkBranch(tree, model.trees[tree].branches[n], collector, level, ranks.branches[tree][n], low);
      case Fork(event, paths) =>
        WalkFork(tree, event, paths, collector, level, depth, low);
    }

    /** Sets the functional event to the state of each path in turn. */
    method WalkFork(tree: int, event: string, paths: seq<Path>, collector: PathCollector, ghost level: nat, ghost depth: nat, ghost low: nat)
      requires WalkableTarget(model, ranks, tree, Fork(event, paths), level, depth, low) && Before(model, tree, context, low) && Sorted()
      modifies this
      ensures context == old(context) && Sorted()
      ensures found == old(found) + WalkPaths(model, ranks, holds, tree, event, paths, level, depth, context, collector)
      decreases level, depth + 2, paths, 0
    {
      hide Before, WalkableTarget, Walkable, WalkPaths, Walk, Sorted;
      ForkParts(model, ranks, tree, event, paths, level, depth, low);
      EventIsNew(model, tree, context, low, event);
      assert event !in context;
      ghost var outer := context;
      ghost var order := model.trees[tree].order[event];
      NoPath(model, ranks, holds, tree, event, paths, level, depth, outer, collector);
      for k := 0 to |paths|
        invariant context - {event} == outer && Sorted()
        invariant found == old(found) + WalkPaths(model, ranks, holds, tree, event, paths[..k], level, depth, outer, collector)
      {
        context := context[event := paths[k].state];
        assert context == outer[event := paths[k].state];
        EventIsSet(model, tree, outer, low, event, paths[k].state);
        WalkBranch(tree, paths[k].branch, collector, level, depth, order);
        NextPath(model, ranks, holds, tree, event, paths, k, level, depth, outer, collector);
      }
      assert paths[..|paths|] == paths;
      context := context - {event};
    }

    method Execute(instructions: seq<Instruction>, collector: PathCollector, linked: bool, ghost level: nat, ghost base: seq<Found>, ghost s: State)
      returns (next: PathCollector, nextLinked: bool)
      requires forall l <- Nodes(AllLinks(instructions)) :: WalkableLink(model, ranks, l, level)
      requires Sorted() && s.collector == collector && s.linked == linked && found == base + s.found
      modifies this
      ensures context == old(context) && Sorted()
      ensures var t := RunAll(model, ranks, holds, instructions, level, context, s);
              next == t.collector && nextLinked == t.linked && found == base + t.found
      decreases level, 1, instructions
    {
      next, nextLinked := collector, linked;
      for k := 0 to |instructions|
        invariant context == old(context) && Sorted()
        invariant var t := RunAll(model, ranks, holds, instructions[..k], level, context, s);
                  next == t.collector && nextLinked == t.linked && found == base + t.found
      {
        ghost var t := RunAll(model, ranks, holds, instructions[..k], level, context, s);
        PartLinks(instructions, k);
        next, nextLinked := ExecuteOne(instructions[k], next, nextLinked, level, base, t);
        assert instructions[..k + 1][..k] == instructions[..k];
      }
      assert instructions[..|instructions|] == instructions;
    }

    method ExecuteOne(i: Instruction, collector: PathCollector, linked: bool, ghost level: nat, ghost base: seq<Found>, ghost s: State)
      returns (next: PathCollector, nextLinked: bool)
      requires forall l <- Nodes(InstructionLinks(i)) :: WalkableLink(model, ranks, l, level)
      requires Sorted() && s.collector == collector && s.linked == linked && found == base + s.found
      modifies this
      ensures context == old(context) && Sorted()
      ensures var t := Run(model, ranks, holds, i, level, context, s);
              next == t.collector && nextLinked == t.linked && found == base + t.found
      decreases level, 1, i
    {
      next, nextLinked := collector, linked;
      match i
      case SetHouseEvent(name, state) => next := next.(settings := next.settings[name := state]);
      case CollectExpression(e) => next := next.(expressions := next.expressions + [e]);
      case CollectFormula(f) => next := next.(formulas := next.formulas + [Cloned(f, next.settings)]);
      case IfThenElse(condition, positive, negative) =>
        if holds(condition, context) {
          next, nextLinked := ExecuteOne(positive, next, nextLinked, level, base, s);
        } else if negative.Some? {
          next, nextLinked := ExecuteOne(negative.value, next, nextLinked, level, base, s);
        }
      case Block(instructions) =>
        next, nextLinked := Execute(instructions, next, nextLinked, level, base, s);
      case Link(l) =>
        nextLinked := true;
        assert l in Nodes(InstructionLinks(i));
        FollowLink(l, next, level);
    }

    /** Walks the linked tree without functional events, and restores them. */
    method FollowLink(l: int, collector: PathCollector, ghost level: nat)
      requires WalkableLink(model, ranks, l, level) && Sorted()
      modifies this
      ensures context == old(context) && Sorted()
      ensures found == old(found) + Follow(model, ranks, holds, l, level, collector)
      decreases level, 0
    {
      var tree := model.links[l];
      var save := context;
      context := map[];
      WalkBranch(tree, model.trees[tree].initial, collector, ranks.links[l], ranks.depths[tree], 0);
      context := save;
    }
  }

  lemma ForkParts(model: Model, ranks: Ranks, tree: int, event: string, paths: seq<Path>, level: nat, depth: nat, low: nat)
    requires WalkableTarget(model, ranks, tree, Fork(event, paths), level, depth, low)
    ensures tree in model.trees && event in model.trees[tree].order && low < model.trees[tree].order[event]
    ensures forall k | 0 <= k < |paths| ::
              Walkable(model, ranks, tree, paths[k].branch, level, depth, model.trees[tree].order[event])
  {
  }

  lemma NoPath(model: Model, ranks: Ranks, holds: Condition, tree: int, event: string, paths: seq<Path>, level: nat, depth: nat,
               context: Context, collector: PathCollector)
    requires tree in model.trees
    ensures WalkPaths(model, ranks, holds, tree, event, paths[..0], level, depth, context, collector) == []
  {
  }

  /** A later functional event has not been set. */
  lemma EventIsNew(model: Model, tree: int, context: Context, low: nat, event: string)
    requires Before(model, tree, context, low) && event in model.trees[tree].order && low < model.trees[tree].order[event]
    ensures event !in context
  {
  }

  lemma EventIsSet(model: Model, tree: int, context: Context, low: nat, event: string, state: string)
    requires Before(model, tree, context, low) && event in model.trees[tree].order && low < model.trees[tree].order[event]
    ensures Before(model, tree, context[event := state], model.trees[tree].order[event])
  {
  }

  lemma NextPath(model: Model, ranks: Ranks, holds: Condition, tree: int, event: string, paths: seq<Path>, k: nat, level: nat, depth: nat,
                 context: Context, collector: PathCollector)
    requires tree in model.trees && k < |paths|
    ensures WalkPaths(model, ranks, holds, tree, event, paths[..k + 1], level, depth, context, collector)
         == WalkPaths(model, ranks, holds, tree, event, paths[..k], level, depth, context, collector)
            + Walk(model, ranks, holds, tree, paths[k].branch, level, depth, context[event := paths[k].state], collector)
  {
    assert paths[..k + 1][..k] == paths[..k];
  }

  lemma PartLinks(instructions: seq<Instruction>, k: nat)
    requires k < |instructions|
    ensures Nodes(InstructionLinks(instructions[k])) <= Nodes(AllLinks(instructions))
  {
    GroupNodes(seq(|instructions|, i requires 0 <= i < |instructions| => InstructionLinks(instructions[i])), k);
  }

  ghost function Ending(found: seq<Found>, tree: int, id: int): seq<PathCollector> {
    if found == [] then [] else
      var last := found[|found| - 1];
      Ending(found[..|found| - 1], tree, id) + if last.tree == tree && last.sequence == id then [last.collector] else []
  }

  // Homogeneity.

  function Types(t: Option<Kind>): set<Kind> {
    match t
    case None => {}
    case Some(k) => {k}
  }

  /** The check of a walk that meets collections of one kind at a time. */
  class HomogeneousChecker {
    const model: Model
    ghost const ranks: Ranks
    /** The kind met so far. */
    var kind: Option<Kind>

    constructor (model: Model, ghost ranks: Ranks)
      ensures this.model == model && this.ranks == ranks && kind == None
    {
      this.model, this.ranks, kind := model, ranks, None;
    }

    method Meet(k: Kind) returns (ok: bool)
      modifies this`kind
      ensures ok <==> Pure(old(Types(kind)) + {k})
      ensures ok ==> Types(kind) == old(Types(kind)) + {k}
    {
      match kind
      case None => kind := Some(k); ok := true;
      case Some(other) => ok := other == k;
    }

    method Visit(i: Instruction, ghost level: nat) returns (ok: bool)
      requires forall l <- Nodes(InstructionLinks(i)) :: WalkableLink(model, ranks, l, level)
      modifies this`kind
      ensures ok <==> Pure(old(Types(kind)) + InstructionKinds(model, ranks, i, level))
      ensures ok ==> Types(kind) == old(Types(kind)) + InstructionKinds(model, ranks, i, level)
      decreases level, 1, i
    {
      match i
      case SetHouseEvent(_, _) => ok := true;
      case CollectExpression(_) => ok := Meet(Expression);
      case CollectFormula(_) => ok := Meet(Formula);
      case IfThenElse(_, positive, None) => ok := Visit(positive, level);
      case IfThenElse(_, positive, Some(negative)) =>
        ok := Visit(positive, level);
        if ok {
          ok := Visit(negative, level);
        }
      case Block(instructions) => ok := VisitAll(instructions, level);
      case Link(l) =>
        assert l in Nodes(InstructionLinks(i));
        var tree := model.links[l];
        ok := VisitBranch(tree, model.trees[tree].initial, ranks.links[l], ranks.depths[tree], 0);
    }

    method VisitAll(instructions: seq<Instruction>, ghost level: nat) returns (ok: bool)
      requires forall l <- Nodes(AllLinks(instructions)) :: WalkableLink(model, ranks, l, level)
      modifies this`kind
      ensures ok <==> Pure(old(Types(kind)) + AllKinds(model, ranks, instructions, level))
      ensures ok ==> Types(kind) == old(Types(kind)) + AllKinds(model, ranks, instructions, level)
      decreases level, 1, instructions
    {
      hide InstructionKinds;
      for k := 0 to |instructions|
        invariant Types(kind) == old(Types(kind)) + AllKinds(model, ranks, instructions[..k], level)
      {
        PartLinks(instructions, k);
        ok := Visit(instructions[k], level);
        SomeKinds(model, ranks, instructions, k + 1, level);
        assert instructions[..k + 1][..k] == instructions[..k];
        if !ok {
          return;
        }
      }
      assert instructions[..|instructions|] == instructions;
      ok := true;
      KindIsPure(kind);
    }

    method VisitBranch(tree: int, b: Branch, ghost level: nat, ghost depth: nat, ghost low: nat) returns (ok: bool)
      requires Walkable(model, ranks, tree, b, level, depth, low)
      modifies this`kind
      ensures ok <==> Pure(old(Types(kind)) + BranchKinds(model, ranks, tree, b, level, depth))
      ensures ok ==> Types(kind) == old(Types(kind)) + BranchKinds(model, ranks, tree, b, level, depth)
      decreases level, depth + 2, b
    {
      ok := VisitAll(b.instructions, level);
      if ok {
        ok := VisitTarget(tree, b.target, level, depth, low);
      }
    }

    method VisitTarget(tree: int, target: Target, ghost level: nat, ghost depth: nat, ghost low: nat) returns (ok: bool)
      requires WalkableTarget(model, ranks, tree, target, level, depth, low)
      modifies this`kind
      ensures ok <==> Pure(old(Types(kind)) + TargetKinds(model, ranks, tree, target, level, depth))
      ensures ok ==> Types(kind) == old(Types(kind)) + TargetKinds(model, ranks, tree, target, level, depth)
      decreases level, depth + 2, target
    {
      match target
      case Sequence(id) => ok := VisitAll(model.trees[tree].sequences[id], level);
      case NamedBranch(n) => ok := VisitBranch(tree, model.trees[tree].branches[n], level, ranks.branches[tree][n], low);
      case Fork(event, paths) =>
        ForkParts(model, ranks, tree, event, paths, level, depth, low);
        for k := 0 to |paths|
          invariant Types(kind) == old(Types(kind)) + PathKinds(model, ranks, tree, paths[..k], level, depth)
        {
          ok := VisitBranch(tree, paths[k].branch, level, depth, model.trees[tree].order[event]);
          SomePathKinds(model, ranks, tree, paths, k + 1, level, depth);
          assert paths[..k + 1][..k] == paths[..k];
          if !ok {
            return;
          }
        }
        assert paths[..|paths|] == paths;
        ok := true;
        KindIsPure(kind);
    }
  }

  lemma KindIsPure(kind: Option<Kind>)
    ensures Pure(Types(kind))
  {
  }

  lemma {:induction false} SomeKinds(model: Model, ranks: Ranks, instructions: seq<Instruction>, k: nat, level: nat)
    requires k <= |instructions|
    ensures AllKinds(model, ranks, instructions[..k], level) <= AllKinds(model, ranks, instructions, level)
    decreases |instructions| - k
  {
    if k == |instructions| {
      assert instructions[..k] == instructions;
    } else {
      SomeKinds(model, ranks, instructions, k + 1, level);
      assert instructions[..k + 1][..k] == instructions[..k];
    }
  }

  lemma {:induction false} SomePathKinds(model: Model, ranks: Ranks, tree: int, paths: seq<Path>, k: nat, level: nat, depth: nat)
    requires tree in model.trees && k <= |paths|
    ensures PathKinds(model, ranks, tree, paths[..k], level, depth) <= PathKinds(model, ranks, tree, paths, level, depth)
    decreases |paths| - k
  {
    if k == |paths| {
      assert paths[..k] == paths;
    } else {
      SomePathKinds(model, ranks, tree, paths, k + 1, level, depth);
      assert paths[..k + 1][..k] == paths[..k];
    }
  }

  // What the walk collects.

  ghost predicate OfKinds(c: PathCollector, kinds: set<Kind>) {
    (c.expressions != [] ==> Expression in kinds) && (c.formulas != [] ==> Formula in kinds)
  }

  ghost predicate AllOfKinds(found: seq<Found>, kinds: set<Kind>) {
    forall i | 0 <= i < |found| :: OfKinds(found[i].collector, kinds)
  }

  lemma {:induction false} RunCollects(model: Model, ranks: Ranks, holds: Condition, i: Instruction, level: nat, context: Context, s: State, kinds: set<Kind>)
    requires InstructionKinds(model, ranks, i, level) <= kinds && OfKinds(s.collector, kinds) && AllOfKinds(s.found, kinds)
    ensures var t := Run(model, ranks, holds, i, level, context, s);
            OfKinds(t.collector, kinds) && AllOfKinds(t.found, kinds)
    decreases level, 1, i
  {
    match i
    case IfThenElse(condition, positive, negative) =>
      if holds(condition, context) {
        RunCollects(model, ranks, holds, positive, level, context, s, kinds);
      } else if negative.Some? {
        RunCollects(model, ranks, holds, negative.value, level, context, s, kinds);
      }
    case Block(instructions) => RunAllCollects(model, ranks, holds, instructions, level, context, s, kinds);
    case Link(l) =>
      if ranks.LowerLink(l, level) && l in model.links && model.links[l] in model.trees && model.links[l] in ranks.depths {
        var tree := model.links[l];
        WalkCollects(model, ranks, holds, tree, model.trees[tree].initial, ranks.links[l], ranks.depths[tree], map[], s.collector, kinds);
      }
    case _ =>
  }

  lemma {:induction false} RunAllCollects(model: Model, ranks: Ranks, holds: Condition, instructions: seq<Instruction>, level: nat, context: Context, s: State, kinds: set<Kind>)
    requires AllKinds(model, ranks, instructions, level) <= kinds && OfKinds(s.collector, kinds) && AllOfKinds(s.found, kinds)
    ensures var t := RunAll(model, ranks, holds, instructions, level, context, s);
            OfKinds(t.collector, kinds) && AllOfKinds(t.found, kinds)
    decreases level, 1, instructions
  {
    if instructions != [] {
      var last := |instructions| - 1;
      RunAllCollects(model, ranks, holds, instructions[..last], level, context, s, kinds);
      RunCollects(model, ranks, holds, instructions[last], level, context,
                  RunAll(model, ranks, holds, instructions[..last], level, context, s), kinds);
    }
  }

  /** All paths from a branch on collect only what the branch has to collect. */
  lemma {:induction false} WalkCollects(model: Model, ranks: Ranks, holds: Condition, tree: int, b: Branch, level: nat, depth: nat,
                                        context: Context, collector: PathCollector, kinds: set<Kind>)
    requires tree in model.trees && BranchKinds(model, ranks, tree, b, level, depth) <= kinds && OfKinds(collector, kinds)
    ensures AllOfKinds(Walk(model, ranks, holds, tree, b, level, depth, context, collector), kinds)
    decreases level, depth + 2, b
  {
    RunAllCollects(model, ranks, holds, b.instructions, level, context, State(collector, [], false), kinds);
    var s := RunAll(model, ranks, holds, b.instructions, level, context, State(collector, [], false));
    WalkTargetCollects(model, ranks, holds, tree, b.target, level, depth, context, s.collector, kinds);
  }

  lemma {:induction false} WalkTargetCollects(model: Model, ranks: Ranks, holds: Condition, tree: int, target: Target, level: nat, depth: nat,
                                              context: Context, collector: PathCollector, kinds: set<Kind>)
    requires tree in model.trees && TargetKinds(model, ranks, tree, target, level, depth) <= kinds && OfKinds(collector, kinds)
    ensures AllOfKinds(WalkTarget(model, ranks, holds, tree, target, level, depth, context, collector), kinds)
    decreases level, depth + 2, target
  {
    match target
    case Sequence(id) =>
      if id in model.trees[tree].sequences {
        RunAllCollects(model, ranks, holds, model.trees[tree].sequences[id], level, context, State(collector, [], false), kinds);
      }
    case NamedBranch(n) =>
      if ranks.Lower(tree, n, depth) && n in model.trees[tree].branches {
        WalkCollects(model, ranks, holds, tree, model.trees[tree].branches[n], level, ranks.branches[tree][n], context, collector, kinds);
      }
    case Fork(event, paths) =>
      WalkPathsCollects(model, ranks, holds, tree, event, paths, level, depth, context, collector, kinds);
  }

  lemma {:induction false} WalkPathsCollects(model: Model, ranks: Ranks, holds: Condition, tree: int, event: string, paths: seq<Path>, level: nat, depth: nat,
                                             context: Context, collector: PathCollector, kinds: set<Kind>)
    requires tree in model.trees && PathKinds(model, ranks, tree, paths, level, depth) <= kinds && OfKinds(collector, kinds)
    ensures AllOfKinds(WalkPaths(model, ranks, holds, tree, event, paths, level, depth, context, collector), kinds)
    decreases level, depth + 2, paths
  {
    if paths != [] {
      var last := |paths| - 1;
      WalkPathsCollects(model, ranks, holds, tree, event, paths[..last], level, depth, context, collector, kinds);
      WalkCollects(model, ranks, holds, tree, paths[last].branch, level, depth, context[event := paths[last].state], collector, kinds);
    }
  }

  // The validation of a model, and the walk that relies on it.

  /** The walk of a branch is safe from any rank of links on. */
  ghost predicate SafeBranch(model: Model, ranks: Ranks, tree: int, b: Branch, level: nat) {
    && tree in model.trees && tree in ranks.depths
    && Walkable(model, ranks, tree, b, level, ranks.depths[tree], 0)
    && Pure(BranchKinds(model, ranks, tree, b, level, ranks.depths[tree]))
  }

  ghost predicate SafeTree(model: Model, ranks: Ranks, tree: int, level: nat) {
    && tree in model.trees
    && SafeBranch(model, ranks, tree, model.trees[tree].initial, level)
    && forall n <- model.trees[tree].branches :: SafeBranch(model, ranks, tree, model.trees[tree].branches[n], level)
  }

  /** A branch of a validated model can be walked. */
  lemma BranchIsWalkable(model: Model, ranks: Ranks, tree: int, b: Branch, level: nat)
    requires Validated(model, ranks) && tree in model.trees && tree in ranks.depths
    requires CheckedBranch(model, ranks, tree, b) && ResolvedTarget(model, tree, b.target)
    requires forall l <- model.links :: ranks.LowerLink(l, level)
    ensures Walkable(model, ranks, tree, b, level, ranks.depths[tree], 0)
  {
    assert CheckedTree(model, ranks, tree) && ResolvedTree(model, tree);
    NamesResolved(model, tree, b.target);
    FollowsStart(model, ranks, tree, b.target, ranks.depths[tree]);
    LinksResolved(model, ranks, tree, b.target, ranks.depths[tree]);
    CheckedIsWalkable(model, ranks, tree, b.target, level, ranks.depths[tree], 0, ranks.depths[tree]);
  }

  /** The links of a resolved target are those of the model. */
  lemma {:induction false} LinksResolved(model: Model, ranks: Ranks, tree: int, target: Target, depth: nat)
    requires Resolved(model) && tree in model.trees && ResolvedTarget(model, tree, target)
    ensures Nodes(SequenceLinks(model, ranks, tree, target, depth)) <= model.links.Keys
    decreases depth, target
  {
    assert ResolvedTree(model, tree);
    match target
    case Sequence(_) =>
    case NamedBranch(n) =>
      if ranks.Lower(tree, n, depth) {
        LinksResolved(model, ranks, tree, model.trees[tree].branches[n].target, ranks.branches[tree][n]);
      }
    case Fork(_, paths) =>
      forall k | 0 <= k < |paths|
        ensures Nodes(SequenceLinks(model, ranks, tree, paths[k].branch.target, depth)) <= model.links.Keys
      {
        LinksResolved(model, ranks, tree, paths[k].branch.target, depth);
      }
  }

  method EnsureHomogeneousBranch(model: Model, tree: int, b: Branch, ghost ranks: Ranks, ghost level: nat) returns (ok: bool)
    requires Validated(model, ranks) && tree in model.trees && tree in ranks.depths
    requires CheckedBranch(model, ranks, tree, b) && ResolvedTarget(model, tree, b.target)
    requires forall l <- model.links :: ranks.LowerLink(l, level)
    ensures ok <==> SafeBranch(model, ranks, tree, b, level)
  {
    BranchIsWalkable(model, ranks, tree, b, level);
    var checker := new HomogeneousChecker(model, ranks);
    ok := checker.VisitBranch(tree, b, level, ranks.depths[tree], 0);
    assert {} + BranchKinds(model, ranks, tree, b, level, ranks.depths[tree]) == BranchKinds(model, ranks, tree, b, level, ranks.depths[tree]);
  }

  method EnsureHomogeneousEventTree(model: Model, tree: int, ghost ranks: Ranks, ghost level: nat) returns (ok: bool)
    requires Validated(model, ranks) && tree in model.trees && forall l <- model.links :: ranks.LowerLink(l, level)
    ensures ok <==> SafeTree(model, ranks, tree, level)
  {
    assert CheckedTree(model, ranks, tree) && ResolvedTree(model, tree);
    var t := model.trees[tree];
    var names := Sets.Listed(t.branches.Keys);
    for i := 0 to |names|
      invariant forall j | 0 <= j < i :: names[j] in t.branches && SafeBranch(model, ranks, tree, t.branches[names[j]], level)
    {
      var n := names[i];
      assert n in names;
      assert n in t.branches.Keys;
      ok := EnsureHomogeneousBranch(model, tree, t.branches[n], ranks, level);
      if !ok {
        return;
      }
    }
    assert forall n <- t.branches :: n in names;
    ok := EnsureHomogeneousBranch(model, tree, t.initial, ranks, level);
  }

  /** What fails, in the order of the loader: cycles of gates, rules or branches, the order of
      forks or the places of links, cycles of links, or mixed instructions. */
  ghost predicate Fails(model: Model, gates: Graph, rules: Graph, ranks: Ranks, level: nat) {
    || Cyclic(gates) || Cyclic(rules) || (exists tree <- model.trees :: Cyclic(BranchGraph(model.trees[tree])))
    || (exists tree <- model.trees :: RankedTree(model, ranks, tree) && !CheckedTree(model, ranks, tree))
    || (Resolved(model) && (forall tree <- model.trees :: CheckedTree(model, ranks, tree)) && Cyclic(LinkGraph(model, ranks)))
    || (Validated(model, ranks) && exists tree <- model.trees :: !SafeTree(model, ranks, tree, level))
  }

  /** The checks in the order of the loader. */
  method ValidateInitialization(model: Model, gates: Graph, rules: Graph) returns (ok: bool, ghost ranks: Ranks, ghost level: nat)
    requires Resolved(model) && Closed(gates) && Closed(rules)
    ensures ok ==> Validated(model, ranks) && forall tree <- model.trees :: SafeTree(model, ranks, tree, level)
    ensures ok ==> !Cyclic(gates) && !Cyclic(rules) && forall tree <- model.trees :: !Cyclic(BranchGraph(model.trees[tree]))
    ensures !ok ==> Fails(model, gates, rules, ranks, level)
  {
    level := 0;
    ranks := Ranks(map[], map[], map[]);
    ok := CheckGraph(gates);
    if !ok {
      return;
    }
    ok := CheckGraph(rules);
    if !ok {
      return;
    }
    var trees := Sets.Listed(model.trees.Keys);
    ghost var branches, depths, links;
    ok, branches, depths := CheckAllBranches(model, trees);
    if !ok {
      return;
    }
    ranks := Ranks(branches, depths, map[]);
    ok := CheckTrees(model, trees, ranks);
    if !ok {
      return;
    }
    ok, links := CheckLinks(model, ranks);
    if !ok {
      return;
    }
    RanksOfLinks(model, ranks, links);
    ranks := ranks.(links := links);
    level := Bound(links, links.Keys);
    for i := 0 to |trees|
      invariant forall j | 0 <= j < i :: SafeTree(model, ranks, trees[j], level)
    {
      var tree := trees[i];
      assert tree in trees;
      assert tree in model.trees.Keys;
      ok := EnsureHomogeneousEventTree(model, tree, ranks, level);
      if !ok {
        return;
      }
    }
    assert forall tree <- model.trees :: tree in trees;
  }

  method CheckTrees(model: Model, trees: seq<int>, ghost ranks: Ranks) returns (ok: bool)
    requires Resolved(model) && forall tree :: tree in trees <==> tree in model.trees.Keys
    requires forall tree <- model.trees :: RankedTree(model, ranks, tree)
    ensures ok <==> forall tree <- model.trees :: CheckedTree(model, ranks, tree)
  {
    for i := 0 to |trees|
      invariant forall j | 0 <= j < i :: CheckedTree(model, ranks, trees[j])
    {
      var tree := trees[i];
      assert tree in trees;
      assert tree in model.trees.Keys;
      ok := CheckTree(model, tree, ranks);
      if !ok {
        return;
      }
    }
    assert forall tree <- model.trees :: tree in trees;
    ok := true;
  }

  /** The ranks of links do not matter to the checks of the trees. */
  lemma RanksOfLinks(model: Model, ranks: Ranks, links: map<int, nat>)
    requires forall tree <- model.trees :: CheckedTree(model, ranks, tree)
    ensures forall tree <- model.trees :: CheckedTree(model, ranks.(links := links), tree)
  {
    var ranks' := ranks.(links := links);
    forall tree <- model.trees
      ensures CheckedTree(model, ranks', tree)
    {
      assert CheckedTree(model, ranks, tree);
      OrderedSame(model, ranks, ranks', tree, model.trees[tree].initial.target);
      forall n <- model.trees[tree].branches
        ensures CheckedBranch(model, ranks', tree, model.trees[tree].branches[n])
      {
        assert CheckedBranch(model, ranks, tree, model.trees[tree].branches[n]);
        OrderedSame(model, ranks, ranks', tree, model.trees[tree].branches[n].target);
      }
    }
  }

  lemma {:induction false} OrderedSame(model: Model, ranks: Ranks, ranks': Ranks, tree: int, target: Target)
    requires tree in model.trees && tree in ranks.depths && ranks' == ranks.(links := ranks'.links)
    ensures Ordered(model, ranks', tree, target, ranks.depths[tree]) == Ordered(model, ranks, tree, target, ranks.depths[tree])
  {
    if target.Fork? && target.event in model.trees[tree].order {
      forall k | 0 <= k < |target.paths|
        ensures Ordered(model, ranks', tree, target.paths[k].branch.target, ranks.depths[tree])
             == Ordered(model, ranks, tree, target.paths[k].branch.target, ranks.depths[tree])
        ensures Follows(model, ranks', tree, model.trees[tree].order[target.event], target.paths[k].branch.target, ranks.depths[tree])
             == Follows(model, ranks, tree, model.trees[tree].order[target.event], target.paths[k].branch.target, ranks.depths[tree])
      {
        OrderedSame(model, ranks, ranks', tree, target.paths[k].branch.target);
        FollowsSame(model, ranks, ranks', tree, model.trees[tree].order[target.event], target.paths[k].branch.target, ranks.depths[tree]);
      }
    }
  }

  lemma {:induction false} FollowsSame(model: Model, ranks: Ranks, ranks': Ranks, tree: int, low: nat, target: Target, depth: nat)
    requires tree in model.trees && ranks' == ranks.(links := ranks'.links)
    ensures Follows(model, ranks', tree, low, target, depth) == Follows(model, ranks, tree, low, target, depth)
    decreases depth
  {
    if target.NamedBranch? && ranks.Lower(tree, target.name, depth) && target.name in model.trees[tree].branches {
      FollowsSame(model, ranks, ranks', tree, low, model.trees[tree].branches[target.name].target, ranks.branches[tree][target.name]);
    }
  }

  /** The beginning of a walk. */
  function Start(model: Model, tree: int): Point
    requires tree in model.trees
  {
    var b := model.trees[tree].initial;
    Point(tree, b.instructions, Toward(b.target), map[], [], false, [])
  }

  /** The found paths that end in a sequence, in order. */
  ghost predicate Gathered(found: seq<Found>, tree: int, id: int, collectors: seq<PathCollector>, positions: seq<nat>) {
    && Increasing(positions, |found|) && |collectors| == |positions|
    && (forall i | 0 <= i < |found| :: found[i].tree == tree && found[i].sequence == id <==> i in positions)
    && forall k | 0 <= k < |positions| :: found[positions[k]] == Found(tree, id, collectors[k])
  }

  ghost predicate EndIn(found: seq<Found>, tree: int, id: int, collectors: seq<PathCollector>) {
    exists positions: seq<nat> :: Gathered(found, tree, id, collectors, positions)
  }

  function PathsOf(sequences: map<(int, int), seq<PathCollector>>, tree: int, id: int): seq<PathCollector> {
    if (tree, id) in sequences then sequences[(tree, id)] else []
  }

  lemma {:induction false} EndingGathered(found: seq<Found>, tree: int, id: int)
    ensures EndIn(found, tree, id, Ending(found, tree, id))
  {
    if found == [] {
      assert Gathered(found, tree, id, [], []);
    } else {
      var last := |found| - 1;
      EndingGathered(found[..last], tree, id);
      var before: seq<nat> :| Gathered(found[..last], tree, id, Ending(found[..last], tree, id), before);
      assert found == found[..last] + [found[last]];
      GatheredNext(found[..last], tree, id, Ending(found[..last], tree, id), before, found[last]);
    }
  }

  lemma GatheredNext(found: seq<Found>, tree: int, id: int, collectors: seq<PathCollector>, positions: seq<nat>, f: Found)
    requires Gathered(found, tree, id, collectors, positions)
    ensures f.tree == tree && f.sequence == id ==>
              Gathered(found + [f], tree, id, collectors + [f.collector], positions + [|found|])
    ensures !(f.tree == tree && f.sequence == id) ==> Gathered(found + [f], tree, id, collectors, positions)
    ensures EndIn(found + [f], tree, id, collectors + if f.tree == tree && f.sequence == id then [f.collector] else [])
  {
    var all := found + [f];
    if f.tree == tree && f.sequence == id {
      forall i | 0 <= i < |all|
        ensures all[i].tree == tree && all[i].sequence == id <==> i in positions + [|found|]
      {
      }
      assert Gathered(all, tree, id, collectors + [f.collector], positions + [|found|]);
    } else {
      assert Gathered(all, tree, id, collectors, positions);
      assert collectors + [] == collectors;
    }
  }

  /** Walks a tree of a validated model. The walk ends, no functional event is set twice, the
      functional events are restored, and no sequence has both formulas and expressions. It finds
      exactly the routes to sequences, one for each list of choices, in their order, and sorts
      them by their sequences. */
  method CollectSequences(model: Model, holds: Condition, tree: int, ghost ranks: Ranks, ghost level: nat)
      returns (c: SequenceCollector, ghost choices: seq<seq<nat>>)
    requires SafeTree(model, ranks, tree, level)
    ensures fresh(c) && c.context == map[] && c.Sorted()
    ensures Lists(model, holds, Start(model, tree), c.found, choices)
    ensures forall other, id :: EndIn(c.found, other, id, PathsOf(c.sequences, other, id))
    ensures c.found == Walk(model, ranks, holds, tree, model.trees[tree].initial, level, ranks.depths[tree], map[], PathCollector([], [], map[]))
    ensures forall i, j | 0 <= i < |c.found| && 0 <= j < |c.found| ::
              c.found[i].collector.formulas == [] || c.found[j].collector.expressions == []
  {
    hide Lists, EndIn, Walkable, BranchKinds, Collects, PathsOf;
    c := new SequenceCollector(model, holds, ranks);
    var start := PathCollector([], [], map[]);
    ghost var b := model.trees[tree].initial;
    c.WalkBranch(tree, model.trees[tree].initial, start, level, ranks.depths[tree], 0);
    WalkCollects(model, ranks, holds, tree, b, level, ranks.depths[tree], map[], start, BranchKinds(model, ranks, tree, b, level, ranks.depths[tree]));
    NothingCollected();
    assert c.found == Walk(model, ranks, holds, tree, b, level, ranks.depths[tree], map[], start);
    choices := WalkLists(model, ranks, holds, tree, b, level, ranks.depths[tree], 0, start, Start(model, tree));
    forall other, id
      ensures EndIn(c.found, other, id, PathsOf(c.sequences, other, id))
    {
      EndingGathered(c.found, other, id);
      EndingOf(c, other, id);
    }
  }

  lemma EndingOf(c: SequenceCollector, tree: int, id: int)
    requires c.Sorted()
    ensures PathsOf(c.sequences, tree, id) == Ending(c.found, tree, id)
  {
  }
}
