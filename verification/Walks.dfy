/** The walk over the paths of an event tree. */
module Walks {
  import opened Options
  import opened EventTrees

  /** A formula is cloned under the house events that have been set before. */
  datatype Cloned = Cloned(formula: int, settings: map<string, bool>)

  datatype PathCollector = PathCollector(expressions: seq<int>, formulas: seq<Cloned>, settings: map<string, bool>)

  type Context = map<string, string>

  /** A path that ends in a sequence. */
  datatype Found = Found(tree: int, sequence: int, collector: PathCollector)

  datatype State = State(collector: PathCollector, found: seq<Found>, linked: bool)

  type Condition = (int, Context) -> bool

  /** The effect of an instruction on the path. */
  ghost function Run(model: Model, ranks: Ranks, holds: Condition, i: Instruction, level: nat, context: Context, s: State): State
    decreases level, 1, i
  {
    match i
    case SetHouseEvent(name, state) => s.(collector := s.collector.(settings := s.collector.settings[name := state]))
    case CollectExpression(e) => s.(collector := s.collector.(expressions := s.collector.expressions + [e]))
    case CollectFormula(f) =>
      s.(collector := s.collector.(formulas := s.collector.formulas + [Cloned(f, s.collector.settings)]))
    case Link(l) => State(s.collector, s.found + Follow(model, ranks, holds, l, level, s.collector), true)
    case IfThenElse(condition, positive, negative) =>
      if holds(condition, context) then Run(model, ranks, holds, positive, level, context, s)
      else if negative.Some? then Run(model, ranks, holds, negative.value, level, context, s)
      else s
    case Block(instructions) => RunAll(model, ranks, holds, instructions, level, context, s)
  }

  ghost function RunAll(model: Model, ranks: Ranks, holds: Condition, instructions: seq<Instruction>, level: nat, context: Context, s: State): State
    decreases level, 1, instructions
  {
    if instructions == [] then s else
      var last := |instructions| - 1;
      Run(model, ranks, holds, instructions[last], level, context,
          RunAll(model, ranks, holds, instructions[..last], level, context, s))
  }

  /** The paths of a linked tree, in which no functional event is set yet. */
  ghost function Follow(model: Model, ranks: Ranks, holds: Condition, l: int, level: nat, collector: PathCollector): seq<Found>
    decreases level, 0, 0
  {
    if ranks.LowerLink(l, level) && l in model.links && model.links[l] in model.trees && model.links[l] in ranks.depths
    then Walk(model, ranks, holds, model.links[l], model.trees[model.links[l]].initial, ranks.links[l], ranks.depths[model.links[l]], map[], collector)
    else []
  }

  /** All paths from a branch on, in the order of the walk. */
  ghost function Walk(model: Model, ranks: Ranks, holds: Condition, tree: int, b: Branch, level: nat, depth: nat,
                      context: Context, collector: PathCollector): seq<Found>
    requires tree in model.trees
    decreases level, depth + 2, b
  {
    var s := RunAll(model, ranks, holds, b.instructions, level, context, State(collector, [], false));
    s.found + WalkTarget(model, ranks, holds, tree, b.target, level, depth, context, s.collector)
  }

  ghost function WalkTarget(model: Model, ranks: Ranks, holds: Condition, tree: int, target: Target, level: nat, depth: nat,
                            context: Context, collector: PathCollector): seq<Found>
    requires tree in model.trees
    decreases level, depth + 2, target
  {
    match target
    case Sequence(id) =>
      if id in model.trees[tree].sequences then
        var s := RunAll(model, ranks, holds, model.trees[tree].sequences[id], level, context, State(collector, [], false));
        s.found + if s.linked then [] else [Found(tree, id, s.collector)]
      else []
    case Fork(event, paths) => WalkPaths(model, ranks, holds, tree, event, paths, level, depth, context, collector)
    case NamedBranch(n) =>
      if ranks.Lower(tree, n, depth) && n in model.trees[tree].branches
      then Walk(model, ranks, holds, tree, model.trees[tree].branches[n], level, ranks.branches[tree][n], context, collector)
      else []
  }

  ghost function WalkPaths(model: Model, ranks: Ranks, holds: Condition, tree: int, event: string, paths: seq<Path>, level: nat, depth: nat,
                           context: Context, collector: PathCollector): seq<Found>
    requires tree in model.trees
    decreases level, depth + 2, paths
  {
    if paths == [] then [] else
      var last := |paths| - 1;
      WalkPaths(model, ranks, holds, tree, event, paths[..last], level, depth, context, collector)
      + Walk(model, ranks, holds, tree, paths[last].branch, level, depth, context[event := paths[last].state], collector)
  }
}
