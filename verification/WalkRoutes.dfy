/** The walk finds exactly the routes to sequences, in the order of the choices, with what the
    instructions along each route collect. */
module WalkRoutes {
  import opened Options
  import opened Cycles
  import opened EventTrees
  import opened Walks
  import opened Routes

  // Collecting.

  lemma NothingCollected()
    ensures Collects(PathCollector([], [], map[]), [])
  {
    var positions: seq<nat> := [];
    assert CollectsExpressions([], [], positions);
    assert CollectsFormulas([], [], positions);
  }

  lemma SameStates(done: seq<Instruction>, i: Instruction, settings: map<string, bool>)
    requires LastStates(done, settings) && !i.SetHouseEvent?
    ensures LastStates(done + [i], settings)
  {
    var all := done + [i];
    forall name: string
      ensures if name in settings
              then exists k | 0 <= k < |all| ::
                     all[k] == SetHouseEvent(name, settings[name]) && forall j | k < j < |all| :: !SetsEvent(all[j], name)
              else forall j | 0 <= j < |all| :: !SetsEvent(all[j], name)
    {
      if name in settings {
        var k :| 0 <= k < |done| && done[k] == SetHouseEvent(name, settings[name]) && forall j | k < j < |done| :: !SetsEvent(done[j], name);
        assert all[k] == SetHouseEvent(name, settings[name]) && forall j | k < j < |all| :: !SetsEvent(all[j], name);
      }
    }
  }

  lemma NextState(done: seq<Instruction>, name: string, state: bool, settings: map<string, bool>)
    requires LastStates(done, settings)
    ensures LastStates(done + [SetHouseEvent(name, state)], settings[name := state])
  {
    var all, settings' := done + [SetHouseEvent(name, state)], settings[name := state];
    forall other: string
      ensures if other in settings'
              then exists k | 0 <= k < |all| ::
                     all[k] == SetHouseEvent(other, settings'[other]) && forall j | k < j < |all| :: !SetsEvent(all[j], other)
              else forall j | 0 <= j < |all| :: !SetsEvent(all[j], other)
    {
      if other == name {
        assert all[|done|] == SetHouseEvent(other, settings'[other]);
      } else if other in settings {
        var k :| 0 <= k < |done| && done[k] == SetHouseEvent(other, settings[other]) && forall j | k < j < |done| :: !SetsEvent(done[j], other);
        assert all[k] == SetHouseEvent(other, settings'[other]) && forall j | k < j < |all| :: !SetsEvent(all[j], other);
      }
    }
  }

  lemma SameExpressions(expressions: seq<int>, done: seq<Instruction>, positions: seq<nat>, i: Instruction)
    requires CollectsExpressions(expressions, done, positions) && !i.CollectExpression?
    ensures CollectsExpressions(expressions, done + [i], positions)
  {
  }

  lemma NextExpression(expressions: seq<int>, done: seq<Instruction>, positions: seq<nat>, e: int)
    requires CollectsExpressions(expressions, done, positions)
    ensures CollectsExpressions(expressions + [e], done + [CollectExpression(e)], positions + [|done|])
  {
    var all := done + [CollectExpression(e)];
    forall i | 0 <= i < |all|
      ensures all[i].CollectExpression? <==> i in positions + [|done|]
    {
    }
  }

  lemma SameFormulas(formulas: seq<Cloned>, done: seq<Instruction>, positions: seq<nat>, i: Instruction)
    requires CollectsFormulas(formulas, done, positions) && !i.CollectFormula?
    ensures CollectsFormulas(formulas, done + [i], positions)
  {
    forall k | 0 <= k < |positions|
      ensures (done + [i])[..positions[k]] == done[..positions[k]]
    {
    }
  }

  lemma NextFormula(formulas: seq<Cloned>, done: seq<Instruction>, positions: seq<nat>, f: int, settings: map<string, bool>)
    requires CollectsFormulas(formulas, done, positions) && LastStates(done, settings)
    ensures CollectsFormulas(formulas + [Cloned(f, settings)], done + [CollectFormula(f)], positions + [|done|])
  {
    hide LastStates;
    var all := done + [CollectFormula(f)];
    assert all[..|done|] == done;
    forall k | 0 <= k < |positions|
      ensures all[..positions[k]] == done[..positions[k]]
    {
    }
    forall i | 0 <= i < |all|
      ensures all[i].CollectFormula? <==> i in positions + [|done|]
    {
    }
  }

  /** What one instruction adds to the collection. */
  lemma CollectsNext(c: PathCollector, done: seq<Instruction>, i: Instruction)
    requires Collects(c, done)
    ensures i.SetHouseEvent? ==> Collects(c.(settings := c.settings[i.name := i.state]), done + [i])
    ensures i.CollectExpression? ==> Collects(c.(expressions := c.expressions + [i.expression]), done + [i])
    ensures i.CollectFormula? ==> Collects(c.(formulas := c.formulas + [Cloned(i.formula, c.settings)]), done + [i])
  {
    hide CollectsExpressions, CollectsFormulas, LastStates;
    var es: seq<nat> :| CollectsExpressions(c.expressions, done, es);
    var fs: seq<nat> :| CollectsFormulas(c.formulas, done, fs);
    match i
    case SetHouseEvent(name, state) =>
      SameExpressions(c.expressions, done, es, i);
      SameFormulas(c.formulas, done, fs, i);
      NextState(done, name, state, c.settings);
    case CollectExpression(e) =>
      NextExpression(c.expressions, done, es, e);
      SameFormulas(c.formulas, done, fs, i);
      SameStates(done, i, c.settings);
    case CollectFormula(f) =>
      SameExpressions(c.expressions, done, es, i);
      NextFormula(c.formulas, done, fs, f, c.settings);
      SameStates(done, i, c.settings);
    case _ =>
  }

  // What is executed when all links are passed.

  ghost function Executed(holds: Condition, i: Instruction, context: Context): seq<Instruction> {
    match i
    case Link(_) => []
    case IfThenElse(condition, positive, negative) =>
      if holds(condition, context) then Executed(holds, positive, context)
      else if negative.Some? then Executed(holds, negative.value, context)
      else []
    case Block(instructions) => ExecutedAll(holds, instructions, context)
    case _ => [i]
  }

  ghost function ExecutedAll(holds: Condition, instructions: seq<Instruction>, context: Context): seq<Instruction> {
    if instructions == [] then [] else
      var last := |instructions| - 1;
      ExecutedAll(holds, instructions[..last], context) + Executed(holds, instructions[last], context)
  }

  /** The choices at the links that are passed. */
  ghost function Passes(holds: Condition, i: Instruction, context: Context): seq<nat> {
    match i
    case Link(_) => [1]
    case IfThenElse(condition, positive, negative) =>
      if holds(condition, context) then Passes(holds, positive, context)
      else if negative.Some? then Passes(holds, negative.value, context)
      else []
    case Block(instructions) => PassesAll(holds, instructions, context)
    case _ => []
  }

  ghost function PassesAll(holds: Condition, instructions: seq<Instruction>, context: Context): seq<nat> {
    if instructions == [] then [] else
      var last := |instructions| - 1;
      PassesAll(holds, instructions[..last], context) + Passes(holds, instructions[last], context)
  }

  lemma {:induction false} RunCollection(model: Model, ranks: Ranks, holds: Condition, i: Instruction, level: nat, context: Context, s: State, done: seq<Instruction>)
    requires Collects(s.collector, done)
    ensures var t := Run(model, ranks, holds, i, level, context, s);
            Collects(t.collector, done + Executed(holds, i, context)) && t.linked == (s.linked || Passes(holds, i, context) != [])
    decreases i
  {
    hide Collects, Follow;
    match i
    case IfThenElse(condition, positive, negative) =>
      if holds(condition, context) {
        RunCollection(model, ranks, holds, positive, level, context, s, done);
      } else if negative.Some? {
        RunCollection(model, ranks, holds, negative.value, level, context, s, done);
      } else {
        assert done + [] == done;
      }
    case Block(instructions) => RunAllCollection(model, ranks, holds, instructions, level, context, s, done);
    case Link(_) => assert done + [] == done;
    case _ => CollectsNext(s.collector, done, i);
  }

  lemma {:induction false} RunAllCollection(model: Model, ranks: Ranks, holds: Condition, instructions: seq<Instruction>, level: nat, context: Context, s: State, done: seq<Instruction>)
    requires Collects(s.collector, done)
    ensures var t := RunAll(model, ranks, holds, instructions, level, context, s);
            Collects(t.collector, done + ExecutedAll(holds, instructions, context))
            && t.linked == (s.linked || PassesAll(holds, instructions, context) != [])
    decreases instructions
  {
    hide Collects, Run, Executed, Passes;
    if instructions == [] {
      assert done + [] == done;
    } else {
      var last := |instructions| - 1;
      RunAllCollection(model, ranks, holds, instructions[..last], level, context, s, done);
      var before := done + ExecutedAll(holds, instructions[..last], context);
      RunCollection(model, ranks, holds, instructions[last], level, context,
                    RunAll(model, ranks, holds, instructions[..last], level, context, s), before);
      assert before + Executed(holds, instructions[last], context) == done + ExecutedAll(holds, instructions, context);
    }
  }

  // The walk from each kind of point.

  /** The point after some instructions. */
  ghost function After(p: Point, executed: seq<Instruction>, passes: seq<nat>, tail: seq<Instruction>): Point {
    p.(rest := tail, done := p.done + executed, linked := p.linked || passes != [], choices := p.choices + passes)
  }

  lemma AfterNothing(p: Point)
    ensures After(p, [], [], p.rest) == p
  {
    assert p.done + [] == p.done && p.choices + [] == p.choices;
  }

  lemma AfterTwice(p: Point, first: seq<Instruction>, second: seq<Instruction>, passes: seq<nat>, next: seq<nat>, middle: seq<Instruction>, tail: seq<Instruction>)
    ensures After(After(p, first, passes, middle), second, next, tail) == After(p, first + second, passes + next, tail)
  {
    assert p.done + first + second == p.done + (first + second);
    assert p.choices + passes + next == p.choices + (passes + next);
  }

  /** An instruction that the route just does. */
  lemma DoneLists(model: Model, holds: Condition, p: Point, i: Instruction, tail: seq<Instruction>, more: seq<Found>, next: seq<seq<nat>>)
    requires p.rest == [i] + tail && (i.SetHouseEvent? || i.CollectExpression? || i.CollectFormula?)
    requires Lists(model, holds, After(p, [i], [], tail), more, next)
    ensures Lists(model, holds, p, more, next)
  {
    hide Lists;
    var q := After(p, [i], [], tail);
    assert p.rest[0] == i && p.rest[1..] == tail && p.choices + [] == p.choices;
    StepLists(model, holds, p, q, more, next);
  }

  /** A block or a condition gives way to other instructions. */
  lemma UnfoldedLists(model: Model, holds: Condition, p: Point, i: Instruction, tail: seq<Instruction>, inner: seq<Instruction>,
                      found: seq<Found>, choices: seq<seq<nat>>)
    requires p.rest == [i] + tail && (i.Block? || i.IfThenElse?)
    requires i.Block? ==> inner == i.instructions
    requires i.IfThenElse? ==>
               inner == if holds(i.condition, p.context) then [i.positive] else if i.negative.Some? then [i.negative.value] else []
    requires Lists(model, holds, p.(rest := inner + tail), found, choices)
    ensures Lists(model, holds, p, found, choices)
  {
    hide Lists;
    assert p.rest[0] == i && p.rest[1..] == tail;
    assert inner == [] ==> inner + tail == tail;
    StepLists(model, holds, p, p.(rest := inner + tail), found, choices);
  }

  /** The routes through a linked tree come before those that pass the link. */
  lemma LinkLists(model: Model, holds: Condition, p: Point, l: int, tail: seq<Instruction>,
                  inside: seq<Found>, first: seq<seq<nat>>, more: seq<Found>, next: seq<seq<nat>>)
    requires p.rest == [Link(l)] + tail && l in model.links && model.links[l] in model.trees
    requires Lists(model, holds, Entered(model, p, l), inside, first)
    requires Lists(model, holds, Passed(p, tail), more, next)
    ensures Lists(model, holds, p, inside + more, first + next)
  {
    hide Lists, ListsFirst, Entered, Passed;
    assert p.rest[0] == Link(l) && p.rest[1..] == tail;
    var ways := [Entered(model, p, l), Passed(p, tail)];
    LinkWays(model, holds, p, l, tail);
    NoWay(model, holds, p, ways);
    WayNext(model, holds, p, ways, 0, [], [], inside, first);
    assert [] + inside == inside && [] + first == first;
    WayNext(model, holds, p, ways, 1, inside, first, more, next);
    AllWays(model, holds, p, ways, inside + more, first + next);
  }

  lemma LinkWays(model: Model, holds: Condition, p: Point, l: int, tail: seq<Instruction>)
    requires p.rest == [Link(l)] + tail && l in model.links && model.links[l] in model.trees
    ensures !Ends(p)
    ensures forall q :: Steps(model, holds, p, q) <==> q == Entered(model, p, l) || q == Passed(p, tail)
    ensures Entered(model, p, l).choices == p.choices + [0] && Passed(p, tail).choices == p.choices + [1]
  {
    assert p.rest[0] == Link(l) && p.rest[1..] == tail;
  }

  /** The found paths do not depend on those found before. */
  ghost predicate Runs(model: Model, holds: Condition, p: Point, before: seq<Found>, after: seq<Found>, more: seq<Found>,
                       found: seq<Found>, choices: seq<seq<nat>>) {
    after == before + found && Lists(model, holds, p, found + more, choices)
  }

  lemma {:induction false} RunLists(model: Model, ranks: Ranks, holds: Condition, i: Instruction, level: nat, s: State,
                                    p: Point, tail: seq<Instruction>, more: seq<Found>, next: seq<seq<nat>>)
      returns (found: seq<Found>, choices: seq<seq<nat>>)
    requires forall l <- Nodes(InstructionLinks(i)) :: WalkableLink(model, ranks, l, level)
    requires Collects(s.collector, p.done) && p.rest == [i] + tail
    requires Lists(model, holds, After(p, Executed(holds, i, p.context), Passes(holds, i, p.context), tail), more, next)
    ensures Runs(model, holds, p, s.found, Run(model, ranks, holds, i, level, p.context, s).found, more, found, choices)
    decreases level, 1, i
  {
    hide Lists, Collects, WalkableLink, Follow;
    match i
    case IfThenElse(condition, positive, negative) =>
      if holds(condition, p.context) {
        found, choices := RunLists(model, ranks, holds, positive, level, s, p.(rest := [positive] + tail), tail, more, next);
        UnfoldedLists(model, holds, p, i, tail, [positive], found + more, choices);
      } else if negative.Some? {
        found, choices := RunLists(model, ranks, holds, negative.value, level, s, p.(rest := [negative.value] + tail), tail, more, next);
        UnfoldedLists(model, holds, p, i, tail, [negative.value], found + more, choices);
      } else {
        found, choices := [], next;
        AfterNothing(p.(rest := tail));
        assert [] + tail == tail && [] + more == more;
        UnfoldedLists(model, holds, p, i, tail, [], more, next);
      }
    case Block(instructions) =>
      found, choices := RunAllLists(model, ranks, holds, instructions, level, s, p.(rest := instructions + tail), tail, more, next);
      UnfoldedLists(model, holds, p, i, tail, instructions, found + more, choices);
    case Link(l) =>
      assert l in Nodes(InstructionLinks(i));
      var first: seq<seq<nat>>;
      found, first := FollowLists(model, ranks, holds, l, level, s.collector, p);
      choices := first + next;
      assert After(p, [], [1], tail) == Passed(p, tail) by {
        assert p.done + [] == p.done;
      }
      LinkFacts(model, ranks, l, level);
      LinkLists(model, holds, p, l, tail, found, first, more, next);
    case _ =>
      found, choices := [], next;
      assert [] + more == more;
      DoneLists(model, holds, p, i, tail, more, next);
  }

  lemma LinkFacts(model: Model, ranks: Ranks, l: int, level: nat)
    requires WalkableLink(model, ranks, l, level)
    ensures l in model.links && ranks.LowerLink(l, level) && model.links[l] in model.trees && model.links[l] in ranks.depths
    ensures Walkable(model, ranks, model.links[l], model.trees[model.links[l]].initial, ranks.links[l], ranks.depths[model.links[l]], 0)
  {
  }

  lemma {:induction false} RunAllLists(model: Model, ranks: Ranks, holds: Condition, instructions: seq<Instruction>, level: nat, s: State,
                                       p: Point, tail: seq<Instruction>, more: seq<Found>, next: seq<seq<nat>>)
      returns (found: seq<Found>, choices: seq<seq<nat>>)
    requires forall l <- Nodes(AllLinks(instructions)) :: WalkableLink(model, ranks, l, level)
    requires Collects(s.collector, p.done) && p.rest == instructions + tail
    requires Lists(model, holds, After(p, ExecutedAll(holds, instructions, p.context), PassesAll(holds, instructions, p.context), tail), more, next)
    ensures Runs(model, holds, p, s.found, RunAll(model, ranks, holds, instructions, level, p.context, s).found, more, found, choices)
    decreases level, 1, instructions
  {
    hide Lists, Collects, WalkableLink, Executed, Passes, Run;
    if instructions == [] {
      found, choices := [], next;
      AfterNothing(p);
      assert p.rest == tail && [] + more == more && s.found + [] == s.found;
    } else {
      var last := |instructions| - 1;
      var front, i := instructions[..last], instructions[last];
      var t := RunAll(model, ranks, holds, front, level, p.context, s);
      var middle := After(p, ExecutedAll(holds, front, p.context), PassesAll(holds, front, p.context), [i] + tail);
      RunAllCollection(model, ranks, holds, front, level, p.context, s, p.done);
      PartOfLinks(instructions, last);
      FrontLinks(instructions);
      AfterTwice(p, ExecutedAll(holds, front, p.context), Executed(holds, i, p.context), PassesAll(holds, front, p.context),
                 Passes(holds, i, p.context), [i] + tail, tail);
      var inner, ds := RunLists(model, ranks, holds, i, level, t, middle, tail, more, next);
      assert front + ([i] + tail) == instructions + tail;
      var outer, cs := RunAllLists(model, ranks, holds, front, level, s, p, [i] + tail, inner + more, ds);
      found, choices := outer + inner, cs;
      assert outer + (inner + more) == found + more;
    }
  }

  lemma PartOfLinks(instructions: seq<Instruction>, k: nat)
    requires k < |instructions|
    ensures Nodes(InstructionLinks(instructions[k])) <= Nodes(AllLinks(instructions))
  {
    GroupNodes(seq(|instructions|, i requires 0 <= i < |instructions| => InstructionLinks(instructions[i])), k);
  }

  lemma FrontLinks(instructions: seq<Instruction>)
    requires instructions != []
    ensures Nodes(AllLinks(instructions[..|instructions| - 1])) <= Nodes(AllLinks(instructions))
  {
    var front := instructions[..|instructions| - 1];
    forall l <- Nodes(AllLinks(front))
      ensures l in Nodes(AllLinks(instructions))
    {
      var parts := seq(|front|, i requires 0 <= i < |front| => InstructionLinks(front[i]));
      assert AllLinks(front) == Group(parts);
      var part :| part in parts && l in Nodes(part);
      var k :| 0 <= k < |parts| && parts[k] == part;
      PartOfLinks(instructions, k);
    }
  }

  lemma {:induction false} FollowLists(model: Model, ranks: Ranks, holds: Condition, l: int, level: nat, collector: PathCollector, p: Point)
      returns (found: seq<Found>, choices: seq<seq<nat>>)
    requires WalkableLink(model, ranks, l, level) && Collects(collector, p.done)
    ensures found == Follow(model, ranks, holds, l, level, collector)
    ensures l in model.links && model.links[l] in model.trees && Lists(model, holds, Entered(model, p, l), found, choices)
    decreases level, 0
  {
    hide Lists, Collects, Walkable, Walk;
    LinkFacts(model, ranks, l, level);
    var tree := model.links[l];
    found := Follow(model, ranks, holds, l, level, collector);
    choices := WalkLists(model, ranks, holds, tree, model.trees[tree].initial, ranks.links[l], ranks.depths[tree], 0, collector, Entered(model, p, l));
  }

  /** The walk of a branch finds exactly the routes from its beginning, in order. */
  lemma {:induction false} WalkLists(model: Model, ranks: Ranks, holds: Condition, tree: int, b: Branch, level: nat, depth: nat, low: nat,
                                     collector: PathCollector, p: Point) returns (choices: seq<seq<nat>>)
    requires Walkable(model, ranks, tree, b, level, depth, low) && Collects(collector, p.done)
    requires p.tree == tree && p.rest == b.instructions && p.goal == Toward(b.target) && !p.linked
    ensures Lists(model, holds, p, Walk(model, ranks, holds, tree, b, level, depth, p.context, collector), choices)
    decreases level, depth + 3, b
  {
    hide Lists, Collects, WalkTarget, WalkableTarget, RunAll, ExecutedAll, PassesAll;
    var s := State(collector, [], false);
    var t := RunAll(model, ranks, holds, b.instructions, level, p.context, s);
    var q := After(p, ExecutedAll(holds, b.instructions, p.context), PassesAll(holds, b.instructions, p.context), []);
    RunAllCollection(model, ranks, holds, b.instructions, level, p.context, s, p.done);
    var more := WalkTarget(model, ranks, holds, tree, b.target, level, depth, p.context, t.collector);
    var next := TargetLists(model, ranks, holds, tree, b.target, level, depth, low, t.collector, q);
    assert b.instructions + [] == b.instructions;
    var found, cs := RunAllLists(model, ranks, holds, b.instructions, level, s, p, [], more, next);
    choices := cs;
    assert [] + found == found;
  }

  lemma {:induction false} TargetLists(model: Model, ranks: Ranks, holds: Condition, tree: int, target: Target, level: nat, depth: nat, low: nat,
                                       collector: PathCollector, p: Point) returns (choices: seq<seq<nat>>)
    requires WalkableTarget(model, ranks, tree, target, level, depth, low) && Collects(collector, p.done)
    requires p.tree == tree && p.rest == [] && p.goal == Toward(target)
    ensures tree in model.trees
    ensures Lists(model, holds, p, WalkTarget(model, ranks, holds, tree, target, level, depth, p.context, collector), choices)
    decreases level, depth + 3, target
  {
    hide Lists, Collects, Walk, Walkable;
    var t := model.trees[tree];
    match target
    case Sequence(id) =>
      var q := p.(rest := t.sequences[id], goal := InSequence(id), linked := false);
      choices := SequenceLists(model, ranks, holds, tree, id, level, collector, q);
      StepLists(model, holds, p, q, WalkTarget(model, ranks, holds, tree, target, level, depth, p.context, collector), choices);
    case NamedBranch(n) =>
      var b := t.branches[n];
      var q := p.(rest := b.instructions, goal := Toward(b.target), linked := false);
      choices := WalkLists(model, ranks, holds, tree, b, level, ranks.branches[tree][n], low, collector, q);
      StepLists(model, holds, p, q, WalkTarget(model, ranks, holds, tree, target, level, depth, p.context, collector), choices);
    case Fork(event, paths) =>
      var ways := Ways(p, event, paths);
      ForkWays(model, holds, p, event, paths);
      choices := PathsLists(model, ranks, holds, tree, event, paths, |paths|, level, depth, low, collector, p);
      assert paths[..|paths|] == paths;
      AllWays(model, holds, p, ways, WalkPaths(model, ranks, holds, tree, event, paths, level, depth, p.context, collector), choices);
  }

  /** A sequence records the route unless a link has been passed. */
  lemma SequenceLists(model: Model, ranks: Ranks, holds: Condition, tree: int, id: int, level: nat, collector: PathCollector, p: Point)
      returns (choices: seq<seq<nat>>)
    requires tree in model.trees && id in model.trees[tree].sequences && Collects(collector, p.done)
    requires forall l <- Nodes(AllLinks(model.trees[tree].sequences[id])) :: WalkableLink(model, ranks, l, level)
    requires p.tree == tree && p.rest == model.trees[tree].sequences[id] && p.goal == InSequence(id) && !p.linked
    ensures var s := RunAll(model, ranks, holds, model.trees[tree].sequences[id], level, p.context, State(collector, [], false));
            Lists(model, holds, p, s.found + if s.linked then [] else [Found(tree, id, s.collector)], choices)
    decreases level, 2
  {
    hide Lists, Collects, RunAll, ExecutedAll, PassesAll;
    var instructions, s := model.trees[tree].sequences[id], State(collector, [], false);
    var t := RunAll(model, ranks, holds, instructions, level, p.context, s);
    var q := After(p, ExecutedAll(holds, instructions, p.context), PassesAll(holds, instructions, p.context), []);
    RunAllCollection(model, ranks, holds, instructions, level, p.context, s, p.done);
    var more := if t.linked then [] else [Found(tree, id, t.collector)];
    var next: seq<seq<nat>>;
    if t.linked {
      StopLists(model, holds, q);
      next := [];
    } else {
      EndLists(model, holds, q, Found(tree, id, t.collector));
      next := [q.choices];
    }
    assert instructions + [] == instructions;
    var found, cs := RunAllLists(model, ranks, holds, instructions, level, s, p, [], more, next);
    choices := cs;
    assert [] + found == found;
  }

  ghost function Ways(p: Point, event: string, paths: seq<Path>): (r: seq<Point>)
    ensures |r| == |paths|
  {
    seq(|paths|, k requires 0 <= k < |paths| => Taken(p, event, paths, k))
  }

  lemma ForkWays(model: Model, holds: Condition, p: Point, event: string, paths: seq<Path>)
    requires p.rest == [] && p.goal == Toward(Fork(event, paths)) && p.tree in model.trees
    ensures !Ends(p)
    ensures forall q :: Steps(model, holds, p, q) <==> q in Ways(p, event, paths)
    ensures forall k | 0 <= k < |paths| :: Ways(p, event, paths)[k] == Taken(p, event, paths, k) && Steps(model, holds, p, Ways(p, event, paths)[k])
  {
    var ways := Ways(p, event, paths);
    forall k | 0 <= k < |paths|
      ensures Steps(model, holds, p, ways[k])
    {
      assert ways[k] == Taken(p, event, paths, k);
    }
    forall q | Steps(model, holds, p, q)
      ensures q in ways
    {
      var k :| 0 <= k < |paths| && q == Taken(p, event, paths, k);
      assert ways[k] == q;
    }
  }

  lemma {:induction false} PathsLists(model: Model, ranks: Ranks, holds: Condition, tree: int, event: string, paths: seq<Path>, m: nat,
                                      level: nat, depth: nat, low: nat, collector: PathCollector, p: Point) returns (choices: seq<seq<nat>>)
    requires WalkableTarget(model, ranks, tree, Fork(event, paths), level, depth, low) && Collects(collector, p.done) && m <= |paths|
    requires p.tree == tree && p.rest == [] && p.goal == Toward(Fork(event, paths))
    ensures tree in model.trees
    ensures ListsFirst(model, holds, p, Ways(p, event, paths), m,
                       WalkPaths(model, ranks, holds, tree, event, paths[..m], level, depth, p.context, collector), choices)
    decreases level, depth + 3, paths, m
  {
    hide ListsFirst, Lists, Collects, Walk, Walkable;
    var ways := Ways(p, event, paths);
    if m == 0 {
      choices := [];
      NoWay(model, holds, p, ways);
    } else {
      var k := m - 1;
      ForkWays(model, holds, p, event, paths);
      var first := PathsLists(model, ranks, holds, tree, event, paths, k, level, depth, low, collector, p);
      var next := WalkLists(model, ranks, holds, tree, paths[k].branch, level, depth, model.trees[tree].order[event], collector, ways[k]);
      choices := first + next;
      assert paths[..m][..k] == paths[..k];
      WayNext(model, holds, p, ways, k, WalkPaths(model, ranks, holds, tree, event, paths[..k], level, depth, p.context, collector), first,
              Walk(model, ranks, holds, tree, paths[k].branch, level, depth, p.context[event := paths[k].state], collector), next);
    }
  }
}
