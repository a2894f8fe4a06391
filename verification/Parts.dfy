/** What lies below a branch of an event tree: the meaning of the static checks. */
module Parts {
  import opened Options
  import Sets
  import opened Cycles
  import opened EventTrees
  import opened EventTreeAnalysis

  datatype Item = OfInstruction(instruction: Instruction) | OfBranch(tree: int, branch: Branch) | OfTarget(tree: int, target: Target)

  /** The direct parts of an item; within a branch, links, sequences and named branches are not
      followed. */
  ghost predicate Part(model: Model, within: bool, x: Item, y: Item) {
    match x
    case OfInstruction(i) => InstructionPart(model, within, i, y)
    case OfBranch(tree, b) => BranchPart(tree, b, y)
    case OfTarget(tree, target) => TargetPart(model, within, tree, target, y)
  }

  ghost predicate BranchPart(tree: int, b: Branch, y: Item) {
    y == OfTarget(tree, b.target) || exists k | 0 <= k < |b.instructions| :: y == OfInstruction(b.instructions[k])
  }

  ghost predicate InstructionPart(model: Model, within: bool, i: Instruction, y: Item) {
    match i
    case IfThenElse(_, positive, negative) => y == OfInstruction(positive) || (negative.Some? && y == OfInstruction(negative.value))
    case Block(instructions) => exists k | 0 <= k < |instructions| :: y == OfInstruction(instructions[k])
    case Link(l) =>
      && !within && l in model.links && model.links[l] in model.trees
      && y == OfBranch(model.links[l], model.trees[model.links[l]].initial)
    case _ => false
  }

  ghost predicate TargetPart(model: Model, within: bool, tree: int, target: Target, y: Item) {
    match target
    case Sequence(id) =>
      && !within && tree in model.trees && id in model.trees[tree].sequences
      && exists k | 0 <= k < |model.trees[tree].sequences[id]| :: y == OfInstruction(model.trees[tree].sequences[id][k])
    case NamedBranch(n) =>
      !within && tree in model.trees && n in model.trees[tree].branches && y == OfBranch(tree, model.trees[tree].branches[n])
    case Fork(_, paths) => exists k | 0 <= k < |paths| :: y == OfBranch(tree, paths[k].branch)
  }

  ghost predicate IsChain(model: Model, within: bool, chain: seq<Item>) {
    chain != [] && forall i | 0 < i < |chain| :: Part(model, within, chain[i - 1], chain[i])
  }

  ghost predicate Below(model: Model, within: bool, x: Item, y: Item) {
    exists chain: seq<Item> :: IsChain(model, within, chain) && chain[0] == x && chain[|chain| - 1] == y
  }

  lemma BelowSelf(model: Model, within: bool, x: Item)
    ensures Below(model, within, x, x)
  {
    assert IsChain(model, within, [x]) && [x][0] == x;
  }

  lemma BelowNext(model: Model, within: bool, x: Item, y: Item, z: Item)
    requires Part(model, within, x, y) && Below(model, within, y, z)
    ensures Below(model, within, x, z)
  {
    hide Part;
    var chain: seq<Item> :| IsChain(model, within, chain) && chain[0] == y && chain[|chain| - 1] == z;
    var longer := [x] + chain;
    forall i | 0 < i < |longer|
      ensures Part(model, within, longer[i - 1], longer[i])
    {
      assert i > 1 ==> Part(model, within, chain[i - 2], chain[i - 1]);
    }
    assert IsChain(model, within, longer) && longer[0] == x && longer[|longer| - 1] == z;
  }

  lemma BelowFirst(model: Model, within: bool, x: Item, z: Item) returns (y: Item)
    requires Below(model, within, x, z) && x != z
    ensures Part(model, within, x, y) && Below(model, within, y, z)
  {
    hide Part;
    var chain: seq<Item> :| IsChain(model, within, chain) && chain[0] == x && chain[|chain| - 1] == z;
    y := chain[1];
    var shorter := chain[1..];
    assert Part(model, within, chain[0], chain[1]);
    assert IsChain(model, within, shorter) && shorter[0] == y && shorter[|shorter| - 1] == z;
  }

  // Kinds.

  /** The instruction collects something of this kind. */
  predicate CollectsKind(x: Item, kind: Kind) {
    x.OfInstruction? && if kind.Expression? then x.instruction.CollectExpression? else x.instruction.CollectFormula?
  }

  ghost predicate Has(model: Model, x: Item, kind: Kind) {
    exists y :: Below(model, false, x, y) && CollectsKind(y, kind)
  }

  lemma HasSelf(model: Model, x: Item, kind: Kind)
    requires CollectsKind(x, kind)
    ensures Has(model, x, kind)
  {
    BelowSelf(model, false, x);
  }

  lemma HasNext(model: Model, x: Item, y: Item, kind: Kind)
    requires Part(model, false, x, y) && Has(model, y, kind)
    ensures Has(model, x, kind)
  {
    hide Part;
    var z :| Below(model, false, y, z) && CollectsKind(z, kind);
    BelowNext(model, false, x, y, z);
  }

  lemma HasFirst(model: Model, x: Item, kind: Kind) returns (y: Item)
    requires Has(model, x, kind) && !CollectsKind(x, kind)
    ensures Part(model, false, x, y) && Has(model, y, kind)
  {
    hide Part;
    var z :| Below(model, false, x, z) && CollectsKind(z, kind);
    y := BelowFirst(model, false, x, z);
  }

  lemma {:induction false} InstructionHas(model: Model, ranks: Ranks, i: Instruction, level: nat, kind: Kind)
    requires forall l <- Nodes(InstructionLinks(i)) :: WalkableLink(model, ranks, l, level)
    ensures kind in InstructionKinds(model, ranks, i, level) <==> Has(model, OfInstruction(i), kind)
    decreases level, 1, i
  {
    hide Has, WalkableLink, BranchKinds;
    var x := OfInstruction(i);
    match i
    case IfThenElse(_, positive, negative) =>
      InstructionHas(model, ranks, positive, level, kind);
      if negative.Some? {
        InstructionHas(model, ranks, negative.value, level, kind);
      }
      if Has(model, OfInstruction(positive), kind) {
        HasNext(model, x, OfInstruction(positive), kind);
      }
      if negative.Some? && Has(model, OfInstruction(negative.value), kind) {
        HasNext(model, x, OfInstruction(negative.value), kind);
      }
      if Has(model, x, kind) {
        var y := HasFirst(model, x, kind);
      }
    case Block(instructions) =>
      AllHas(model, ranks, instructions, level, kind);
      if k :| 0 <= k < |instructions| && Has(model, OfInstruction(instructions[k]), kind) {
        HasNext(model, x, OfInstruction(instructions[k]), kind);
      }
      if Has(model, x, kind) {
        var y := HasFirst(model, x, kind);
      }
    case Link(l) =>
      assert l in Nodes(InstructionLinks(i));
      LinkHas(model, ranks, l, level, kind);
    case _ =>
      if CollectsKind(x, kind) {
        HasSelf(model, x, kind);
      }
      if Has(model, x, kind) && !CollectsKind(x, kind) {
        var y := HasFirst(model, x, kind);
      }
  }

  lemma {:induction false} LinkHas(model: Model, ranks: Ranks, l: int, level: nat, kind: Kind)
    requires WalkableLink(model, ranks, l, level)
    ensures kind in LinkKinds(model, ranks, l, level) <==> Has(model, OfInstruction(Link(l)), kind)
    decreases level, 0
  {
    hide Has, Walkable, BranchKinds;
    var tree := model.links[l];
    var b := model.trees[tree].initial;
    BranchHas(model, ranks, tree, b, ranks.links[l], ranks.depths[tree], 0, kind);
    if Has(model, OfBranch(tree, b), kind) {
      HasNext(model, OfInstruction(Link(l)), OfBranch(tree, b), kind);
    }
    if Has(model, OfInstruction(Link(l)), kind) {
      var y := HasFirst(model, OfInstruction(Link(l)), kind);
    }
  }

  lemma {:induction false} AllHas(model: Model, ranks: Ranks, instructions: seq<Instruction>, level: nat, kind: Kind)
    requires forall l <- Nodes(AllLinks(instructions)) :: WalkableLink(model, ranks, l, level)
    ensures kind in AllKinds(model, ranks, instructions, level)
       <==> exists k | 0 <= k < |instructions| :: Has(model, OfInstruction(instructions[k]), kind)
    decreases level, 1, instructions
  {
    hide Has, WalkableLink, InstructionKinds;
    if instructions != [] {
      var last := |instructions| - 1;
      FrontOfLinks(instructions);
      PartLinks(instructions, last);
      AllHas(model, ranks, instructions[..last], level, kind);
      InstructionHas(model, ranks, instructions[last], level, kind);
      assert forall k | 0 <= k < last :: instructions[..last][k] == instructions[k];
    }
  }

  lemma FrontOfLinks(instructions: seq<Instruction>)
    requires instructions != []
    ensures Nodes(AllLinks(instructions[..|instructions| - 1])) <= Nodes(AllLinks(instructions))
  {
    var front := instructions[..|instructions| - 1];
    forall l <- Nodes(AllLinks(front))
      ensures l in Nodes(AllLinks(instructions))
    {
      var parts := seq(|front|, i requires 0 <= i < |front| => InstructionLinks(front[i]));
      assert AllLinks(front) == Group(parts);
      var part :| part in parts && l in Nodes(part);
      var k :| 0 <= k < |parts| && parts[k] == part;
      PartLinks(instructions, k);
    }
  }

  /** The kinds of a branch are exactly those of the collect instructions below it. */
  lemma {:induction false} BranchHas(model: Model, ranks: Ranks, tree: int, b: Branch, level: nat, depth: nat, low: nat, kind: Kind)
    requires Walkable(model, ranks, tree, b, level, depth, low)
    ensures kind in BranchKinds(model, ranks, tree, b, level, depth) <==> Has(model, OfBranch(tree, b), kind)
    decreases level, depth + 2, b
  {
    hide Has, WalkableTarget, WalkableLink, AllKinds, TargetKinds;
    var x := OfBranch(tree, b);
    AllHas(model, ranks, b.instructions, level, kind);
    TargetHas(model, ranks, tree, b.target, level, depth, low, kind);
    if k :| 0 <= k < |b.instructions| && Has(model, OfInstruction(b.instructions[k]), kind) {
      HasNext(model, x, OfInstruction(b.instructions[k]), kind);
    }
    if Has(model, OfTarget(tree, b.target), kind) {
      HasNext(model, x, OfTarget(tree, b.target), kind);
    }
    if Has(model, x, kind) {
      var y := HasFirst(model, x, kind);
    }
  }

  lemma {:induction false} TargetHas(model: Model, ranks: Ranks, tree: int, target: Target, level: nat, depth: nat, low: nat, kind: Kind)
    requires WalkableTarget(model, ranks, tree, target, level, depth, low)
    ensures tree in model.trees
    ensures kind in TargetKinds(model, ranks, tree, target, level, depth) <==> Has(model, OfTarget(tree, target), kind)
    decreases level, depth + 2, target
  {
    hide Has, Walkable, WalkableLink, AllKinds, BranchKinds;
    var x, t := OfTarget(tree, target), model.trees[tree];
    match target
    case Sequence(id) =>
      AllHas(model, ranks, t.sequences[id], level, kind);
      if k :| 0 <= k < |t.sequences[id]| && Has(model, OfInstruction(t.sequences[id][k]), kind) {
        HasNext(model, x, OfInstruction(t.sequences[id][k]), kind);
      }
      if Has(model, x, kind) {
        var y := HasFirst(model, x, kind);
      }
    case NamedBranch(n) =>
      BranchHas(model, ranks, tree, t.branches[n], level, ranks.branches[tree][n], low, kind);
      if Has(model, OfBranch(tree, t.branches[n]), kind) {
        HasNext(model, x, OfBranch(tree, t.branches[n]), kind);
      }
      if Has(model, x, kind) {
        var y := HasFirst(model, x, kind);
      }
    case Fork(event, paths) =>
      ForkParts(model, ranks, tree, event, paths, level, depth, low);
      PathsHave(model, ranks, tree, paths, level, depth, t.order[event], kind);
      if k :| 0 <= k < |paths| && Has(model, OfBranch(tree, paths[k].branch), kind) {
        HasNext(model, x, OfBranch(tree, paths[k].branch), kind);
      }
      if Has(model, x, kind) {
        var y := HasFirst(model, x, kind);
      }
  }

  lemma {:induction false} PathsHave(model: Model, ranks: Ranks, tree: int, paths: seq<Path>, level: nat, depth: nat, low: nat, kind: Kind)
    requires tree in model.trees && forall k | 0 <= k < |paths| :: Walkable(model, ranks, tree, paths[k].branch, level, depth, low)
    ensures kind in PathKinds(model, ranks, tree, paths, level, depth)
       <==> exists k | 0 <= k < |paths| :: Has(model, OfBranch(tree, paths[k].branch), kind)
    decreases level, depth + 2, paths
  {
    hide Has, Walkable, BranchKinds;
    if paths != [] {
      var last := |paths| - 1;
      PathsHave(model, ranks, tree, paths[..last], level, depth, low, kind);
      BranchHas(model, ranks, tree, paths[last].branch, level, depth, low, kind);
      assert forall k | 0 <= k < last :: paths[..last][k] == paths[k];
    }
  }

  // Links.

  lemma {:induction false} InstructionLinksBelow(model: Model, i: Instruction, l: int)
    ensures l in Nodes(InstructionLinks(i)) <==> Below(model, true, OfInstruction(i), OfInstruction(Link(l)))
    decreases i
  {
    hide Below;
    var x, z := OfInstruction(i), OfInstruction(Link(l));
    match i
    case IfThenElse(_, positive, negative) =>
      InstructionLinksBelow(model, positive, l);
      if negative.Some? {
        InstructionLinksBelow(model, negative.value, l);
        GroupNodes([InstructionLinks(positive), InstructionLinks(negative.value)], 0);
        GroupNodes([InstructionLinks(positive), InstructionLinks(negative.value)], 1);
      }
      if Below(model, true, OfInstruction(positive), z) {
        BelowNext(model, true, x, OfInstruction(positive), z);
      }
      if negative.Some? && Below(model, true, OfInstruction(negative.value), z) {
        BelowNext(model, true, x, OfInstruction(negative.value), z);
      }
      if Below(model, true, x, z) {
        var y := BelowFirst(model, true, x, z);
      }
    case Block(instructions) =>
      AllLinksBelow(model, instructions, l);
      if k :| 0 <= k < |instructions| && Below(model, true, OfInstruction(instructions[k]), z) {
        BelowNext(model, true, x, OfInstruction(instructions[k]), z);
      }
      if Below(model, true, x, z) {
        var y := BelowFirst(model, true, x, z);
      }
    case _ =>
      BelowSelf(model, true, x);
      if Below(model, true, x, z) && x != z {
        var y := BelowFirst(model, true, x, z);
      }
  }

  lemma {:induction false} AllLinksBelow(model: Model, instructions: seq<Instruction>, l: int)
    ensures l in Nodes(AllLinks(instructions))
       <==> exists k | 0 <= k < |instructions| :: Below(model, true, OfInstruction(instructions[k]), OfInstruction(Link(l)))
    decreases instructions
  {
    hide Below;
    var parts := seq(|instructions|, k requires 0 <= k < |instructions| => InstructionLinks(instructions[k]));
    forall k | 0 <= k < |instructions|
      ensures l in Nodes(parts[k]) <==> Below(model, true, OfInstruction(instructions[k]), OfInstruction(Link(l)))
    {
      InstructionLinksBelow(model, instructions[k], l);
    }
    if l in Nodes(Group(parts)) {
      var part :| part in parts && l in Nodes(part);
      var k :| 0 <= k < |parts| && parts[k] == part;
      assert Below(model, true, OfInstruction(instructions[k]), OfInstruction(Link(l)));
    }
    if k :| 0 <= k < |instructions| && Below(model, true, OfInstruction(instructions[k]), OfInstruction(Link(l))) {
      GroupNodes(parts, k);
    }
  }

  ghost predicate HasLink(model: Model, x: Item) {
    exists l :: Below(model, true, x, OfInstruction(Link(l)))
  }

  lemma HasLinkNext(model: Model, x: Item, y: Item)
    requires Part(model, true, x, y) && HasLink(model, y)
    ensures HasLink(model, x)
  {
    hide Part, Below;
    var l :| Below(model, true, y, OfInstruction(Link(l)));
    BelowNext(model, true, x, y, OfInstruction(Link(l)));
  }

  lemma HasLinkFirst(model: Model, x: Item) returns (y: Item)
    requires HasLink(model, x) && !x.OfInstruction?
    ensures Part(model, true, x, y) && HasLink(model, y)
  {
    hide Part, Below;
    var l :| Below(model, true, x, OfInstruction(Link(l)));
    y := BelowFirst(model, true, x, OfInstruction(Link(l)));
  }

  /** A branch passes the check exactly if no instruction in it is a link. */
  lemma {:induction false} LinkFreeExactly(model: Model, tree: int, b: Branch)
    ensures LinkFree(b) <==> !HasLink(model, OfBranch(tree, b))
    decreases b
  {
    hide HasLink;
    var x := OfBranch(tree, b);
    if b.target.Fork? {
      forall k | 0 <= k < |b.target.paths|
        ensures LinkFree(b.target.paths[k].branch) <==> !HasLink(model, OfBranch(tree, b.target.paths[k].branch))
      {
        LinkFreeExactly(model, tree, b.target.paths[k].branch);
      }
    }
    LinkFreeParts(model, tree, b);
    if HasLink(model, OfTarget(tree, b.target)) {
      HasLinkNext(model, x, OfTarget(tree, b.target));
    }
    if k :| 0 <= k < |b.instructions| && HasLink(model, OfInstruction(b.instructions[k])) {
      HasLinkNext(model, x, OfInstruction(b.instructions[k]));
    }
    if HasLink(model, x) {
      var y := HasLinkFirst(model, x);
    }
  }

  lemma LinkFreeParts(model: Model, tree: int, b: Branch)
    requires b.target.Fork? ==> forall k | 0 <= k < |b.target.paths| ::
               LinkFree(b.target.paths[k].branch) <==> !HasLink(model, OfBranch(tree, b.target.paths[k].branch))
    ensures LinkFreeTarget(b.target) <==> !HasLink(model, OfTarget(tree, b.target))
    ensures Nodes(AllLinks(b.instructions)) == {} <==> !(exists k | 0 <= k < |b.instructions| :: HasLink(model, OfInstruction(b.instructions[k])))
  {
    var x := OfTarget(tree, b.target);
    if k :| 0 <= k < |b.instructions| && HasLink(model, OfInstruction(b.instructions[k])) {
      var l :| Below(model, true, OfInstruction(b.instructions[k]), OfInstruction(Link(l)));
      AllLinksBelow(model, b.instructions, l);
    }
    if Nodes(AllLinks(b.instructions)) != {} {
      var l := Sets.Some(Nodes(AllLinks(b.instructions)));
      AllLinksBelow(model, b.instructions, l);
    }
    hide HasLink;
    if HasLink(model, x) {
      var y := HasLinkFirst(model, x);
    }
    if b.target.Fork? {
      if k :| 0 <= k < |b.target.paths| && HasLink(model, OfBranch(tree, b.target.paths[k].branch)) {
        HasLinkNext(model, x, OfBranch(tree, b.target.paths[k].branch));
      }
    }
  }

  // The order of functional events.

  /** From a target, through named branches only. */
  ghost predicate IsHops(model: Model, tree: int, hops: seq<Target>) {
    hops != [] && forall i | 0 < i < |hops| :: Hop(model, tree, hops[i - 1], hops[i])
  }

  predicate Hop(model: Model, tree: int, target: Target, next: Target) {
    && target.NamedBranch? && tree in model.trees && target.name in model.trees[tree].branches
    && next == model.trees[tree].branches[target.name].target
  }

  /** The fork is the next one on the way from a target. */
  ghost predicate NextFork(model: Model, tree: int, target: Target, fork: Target) {
    fork.Fork? && exists hops: seq<Target> :: IsHops(model, tree, hops) && hops[0] == target && hops[|hops| - 1] == fork
  }

  lemma NextForkSelf(model: Model, tree: int, target: Target)
    requires tree in model.trees && target.Fork?
    ensures NextFork(model, tree, target, target)
    ensures forall fork :: NextFork(model, tree, target, fork) ==> fork == target
  {
    assert IsHops(model, tree, [target]) && [target][0] == target;
    forall fork | NextFork(model, tree, target, fork)
      ensures fork == target
    {
      var hops: seq<Target> :| IsHops(model, tree, hops) && hops[0] == target && hops[|hops| - 1] == fork;
      assert |hops| > 1 ==> Hop(model, tree, hops[1 - 1], hops[1]);
    }
  }

  lemma NextForkNamed(model: Model, tree: int, n: int, fork: Target)
    requires tree in model.trees && n in model.trees[tree].branches
    ensures NextFork(model, tree, NamedBranch(n), fork) <==> NextFork(model, tree, model.trees[tree].branches[n].target, fork)
  {
    var target := model.trees[tree].branches[n].target;
    if NextFork(model, tree, NamedBranch(n), fork) {
      var hops: seq<Target> :| IsHops(model, tree, hops) && hops[0] == NamedBranch(n) && hops[|hops| - 1] == fork;
      assert Hop(model, tree, hops[1 - 1], hops[1]);
      var rest := hops[1..];
      assert IsHops(model, tree, rest) && rest[0] == target && rest[|rest| - 1] == fork;
    }
    if NextFork(model, tree, target, fork) {
      var hops: seq<Target> :| IsHops(model, tree, hops) && hops[0] == target && hops[|hops| - 1] == fork;
      var longer := [NamedBranch(n)] + hops;
      assert IsHops(model, tree, longer) && longer[0] == NamedBranch(n) && longer[|longer| - 1] == fork;
    }
  }

  lemma NoNextFork(model: Model, tree: int, target: Target, fork: Target)
    requires target.Sequence?
    ensures !NextFork(model, tree, target, fork)
  {
    forall hops: seq<Target> | IsHops(model, tree, hops) && hops[0] == target
      ensures |hops| == 1
    {
      assert |hops| <= 1 || Hop(model, tree, hops[1 - 1], hops[1]);
    }
  }

  /** The event of a fork comes later. */
  predicate Later(model: Model, tree: int, low: nat, fork: Target) {
    tree in model.trees && fork.Fork? && fork.event in model.trees[tree].order && low < model.trees[tree].order[fork.event]
  }

  lemma {:induction false} FollowsExactly(model: Model, ranks: Ranks, tree: int, low: nat, target: Target, depth: nat)
    requires tree in model.trees && RankedTree(model, ranks, tree) && ResolvedTree(model, tree)
    requires ResolvedTarget(model, tree, target) && (target.NamedBranch? ==> ranks.Lower(tree, target.name, depth))
    ensures Follows(model, ranks, tree, low, target, depth)
       <==> forall fork :: NextFork(model, tree, target, fork) ==> Later(model, tree, low, fork)
    decreases depth
  {
    match target
    case Sequence(_) =>
      forall fork
        ensures !NextFork(model, tree, target, fork)
      {
        NoNextFork(model, tree, target, fork);
      }
    case Fork(_, _) =>
      NextForkSelf(model, tree, target);
    case NamedBranch(n) =>
      var b := model.trees[tree].branches[n];
      forall fork
        ensures NextFork(model, tree, target, fork) <==> NextFork(model, tree, b.target, fork)
      {
        NextForkNamed(model, tree, n, fork);
      }
      assert b.target.NamedBranch? ==> b.target.name in Nodes(BranchNames(b));
      hide NextFork, Later, ResolvedTarget;
      FollowsExactly(model, ranks, tree, low, b.target, ranks.branches[tree][n]);
  }

  /** Every fork in a branch has an earlier event than the next fork on each of its paths. */
  ghost predicate ForksInOrder(model: Model, tree: int, x: Item) {
    forall event, paths: seq<Path>, k, fork |
      && Below(model, true, x, OfTarget(tree, Fork(event, paths)))
      && 0 <= k < |paths| && NextFork(model, tree, paths[k].branch.target, fork) :: Precedes(model, tree, event, fork)
  }

  predicate Precedes(model: Model, tree: int, event: string, fork: Target) {
    && tree in model.trees && event in model.trees[tree].order
    && Later(model, tree, model.trees[tree].order[event], fork)
  }

  lemma InOrderNext(model: Model, tree: int, x: Item, y: Item)
    requires ForksInOrder(model, tree, x) && Part(model, true, x, y)
    ensures ForksInOrder(model, tree, y)
  {
    hide Part, Below, NextFork, Precedes;
    forall event, paths: seq<Path>, k, fork |
      Below(model, true, y, OfTarget(tree, Fork(event, paths))) && 0 <= k < |paths| && NextFork(model, tree, paths[k].branch.target, fork)
      ensures Precedes(model, tree, event, fork)
    {
      BelowNext(model, true, x, y, OfTarget(tree, Fork(event, paths)));
    }
  }

  /** The order of forks is checked exactly. */
  lemma {:induction false} OrderedExactly(model: Model, ranks: Ranks, tree: int, target: Target)
    requires tree in model.trees && RankedTree(model, ranks, tree) && ResolvedTree(model, tree) && tree in ranks.depths
    requires ResolvedTarget(model, tree, target)
    ensures Ordered(model, ranks, tree, target, ranks.depths[tree]) <==> ForksInOrder(model, tree, OfTarget(tree, target))
    decreases target
  {
    hide Below, NextFork, Precedes, Follows, ForksInOrder;
    var depth, x := ranks.depths[tree], OfTarget(tree, target);
    match target
    case Fork(event, paths) =>
      forall k | 0 <= k < |paths|
        ensures Ordered(model, ranks, tree, paths[k].branch.target, depth) <==> ForksInOrder(model, tree, OfTarget(tree, paths[k].branch.target))
        ensures Follows(model, ranks, tree, model.trees[tree].order[event], paths[k].branch.target, depth)
           <==> forall fork :: NextFork(model, tree, paths[k].branch.target, fork) ==> Later(model, tree, model.trees[tree].order[event], fork)
      {
        OrderedExactly(model, ranks, tree, paths[k].branch.target);
        FollowsExactly(model, ranks, tree, model.trees[tree].order[event], paths[k].branch.target, depth);
      }
      ForkInOrder(model, tree, event, paths);
    case _ =>
      OnlyItself(model, tree, target);
  }

  lemma ForkInOrder(model: Model, tree: int, event: string, paths: seq<Path>)
    requires tree in model.trees && event in model.trees[tree].order
    ensures ForksInOrder(model, tree, OfTarget(tree, Fork(event, paths)))
       <==> forall k | 0 <= k < |paths| ::
              && ForksInOrder(model, tree, OfTarget(tree, paths[k].branch.target))
              && forall fork :: NextFork(model, tree, paths[k].branch.target, fork) ==> Later(model, tree, model.trees[tree].order[event], fork)
  {
    var x := OfTarget(tree, Fork(event, paths));
    BelowSelf(model, true, x);
    if ForksInOrder(model, tree, x) {
      forall k | 0 <= k < |paths|
        ensures ForksInOrder(model, tree, OfTarget(tree, paths[k].branch.target))
      {
        InOrderNext(model, tree, x, OfBranch(tree, paths[k].branch));
        InOrderNext(model, tree, OfBranch(tree, paths[k].branch), OfTarget(tree, paths[k].branch.target));
      }
      forall k, fork | 0 <= k < |paths| && NextFork(model, tree, paths[k].branch.target, fork)
        ensures Later(model, tree, model.trees[tree].order[event], fork)
      {
        assert Precedes(model, tree, event, fork);
      }
    }
    if forall k | 0 <= k < |paths| ::
         && ForksInOrder(model, tree, OfTarget(tree, paths[k].branch.target))
         && forall fork :: NextFork(model, tree, paths[k].branch.target, fork) ==> Later(model, tree, model.trees[tree].order[event], fork)
    {
      forall e, ps: seq<Path>, j, fork |
        Below(model, true, x, OfTarget(tree, Fork(e, ps))) && 0 <= j < |ps| && NextFork(model, tree, ps[j].branch.target, fork)
        ensures Precedes(model, tree, e, fork)
      {
        if OfTarget(tree, Fork(e, ps)) != x {
          var k := InsideFork(model, tree, event, paths, OfTarget(tree, Fork(e, ps)));
          assert ForksInOrder(model, tree, OfTarget(tree, paths[k].branch.target));
        }
      }
    }
  }

  /** A fork in a fork is in one of its paths. */
  lemma InsideFork(model: Model, tree: int, event: string, paths: seq<Path>, z: Item) returns (k: nat)
    requires Below(model, true, OfTarget(tree, Fork(event, paths)), z) && z != OfTarget(tree, Fork(event, paths)) && z.OfTarget?
    ensures k < |paths| && Below(model, true, OfTarget(tree, paths[k].branch.target), z)
  {
    var y := BelowFirst(model, true, OfTarget(tree, Fork(event, paths)), z);
    k :| 0 <= k < |paths| && y == OfBranch(tree, paths[k].branch);
    var w := BelowFirst(model, true, y, z);
    if w.OfInstruction? {
      NoTargetBelow(model, w, z);
    }
  }

  lemma NoTargetBelow(model: Model, x: Item, z: Item)
    requires x.OfInstruction? && z.OfTarget?
    ensures !Below(model, true, x, z)
  {
    if chain: seq<Item> :| IsChain(model, true, chain) && chain[0] == x && chain[|chain| - 1] == z {
      OnlyInstructions(model, chain, |chain| - 1);
    }
  }

  lemma {:induction false} OnlyInstructions(model: Model, chain: seq<Item>, k: nat)
    requires IsChain(model, true, chain) && chain[0].OfInstruction? && k < |chain|
    ensures chain[k].OfInstruction?
  {
    if k > 0 {
      OnlyInstructions(model, chain, k - 1);
      assert Part(model, true, chain[k - 1], chain[k]);
    }
  }

  lemma OnlyItself(model: Model, tree: int, target: Target)
    requires !target.Fork?
    ensures ForksInOrder(model, tree, OfTarget(tree, target))
  {
    forall event, paths: seq<Path>
      ensures !Below(model, true, OfTarget(tree, target), OfTarget(tree, Fork(event, paths)))
    {
      if Below(model, true, OfTarget(tree, target), OfTarget(tree, Fork(event, paths))) {
        var y := BelowFirst(model, true, OfTarget(tree, target), OfTarget(tree, Fork(event, paths)));
      }
    }
  }
}
