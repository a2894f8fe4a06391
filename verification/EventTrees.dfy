/** Event trees: branches that fork on functional events, named branches that can be reused,
    and links from end sequences to other trees. */
module EventTrees {
  import opened Options
  import opened Cycles
  import Sets

  /** A rule is used as a block of its instructions. */
  datatype Instruction =
    | SetHouseEvent(name: string, state: bool)
    | CollectExpression(expression: int)
    | CollectFormula(formula: int)
    | Link(link: int)
    | IfThenElse(condition: int, positive: Instruction, negative: Option<Instruction>)
    | Block(instructions: seq<Instruction>)

  datatype Target = Sequence(id: int) | Fork(event: string, paths: seq<Path>) | NamedBranch(name: int)

  datatype Branch = Branch(instructions: seq<Instruction>, target: Target)

  datatype Path = Path(state: string, branch: Branch)

  datatype EventTree = EventTree(initial: Branch, branches: map<int, Branch>, sequences: map<int, seq<Instruction>>, order: map<string, nat>)

  /** A link leads to the initial state of a tree. */
  datatype Model = Model(trees: map<int, EventTree>, links: map<int, int>)

  // Connectors for the detection of cycles.

  function InstructionLinks(i: Instruction): Connector {
    match i
    case Link(l) => Leaf(l)
    case IfThenElse(_, positive, None) => InstructionLinks(positive)
    case IfThenElse(_, positive, Some(negative)) => Group([InstructionLinks(positive), InstructionLinks(negative)])
    case Block(instructions) => AllLinks(instructions)
    case _ => Group([])
  }

  function AllLinks(instructions: seq<Instruction>): Connector {
    Group(seq(|instructions|, k requires 0 <= k < |instructions| => InstructionLinks(instructions[k])))
  }

  /** The named branches to which a branch leads directly. */
  function BranchNames(b: Branch): Connector {
    TargetNames(b.target)
  }

  function TargetNames(target: Target): Connector {
    match target
    case Sequence(_) => Group([])
    case Fork(_, paths) => Group(seq(|paths|, k requires 0 <= k < |paths| => BranchNames(paths[k].branch)))
    case NamedBranch(n) => Leaf(n)
  }

  /** Ranks that show branches and links to be without cycles. */
  datatype Ranks = Ranks(branches: map<int, map<int, nat>>, depths: map<int, nat>, links: map<int, nat>)
  {
    /** The rank of a named branch, if it is less than the limit. */
    ghost predicate Lower(tree: int, n: int, depth: nat) {
      tree in branches && n in branches[tree] && branches[tree][n] < depth
    }

    ghost predicate LowerLink(l: int, level: nat) {
      l in links && links[l] < level
    }
  }

  /** The links in the sequences to which a branch leads within its tree. */
  ghost function SequenceLinks(model: Model, ranks: Ranks, tree: int, target: Target, depth: nat): Connector
    requires tree in model.trees
    decreases depth, target
  {
    match target
    case Sequence(id) =>
      if id in model.trees[tree].sequences then AllLinks(model.trees[tree].sequences[id]) else Group([])
    case Fork(_, paths) =>
      Group(seq(|paths|, k requires 0 <= k < |paths| => SequenceLinks(model, ranks, tree, paths[k].branch.target, depth)))
    case NamedBranch(n) =>
      if ranks.Lower(tree, n, depth) && n in model.trees[tree].branches
      then SequenceLinks(model, ranks, tree, model.trees[tree].branches[n].target, ranks.branches[tree][n])
      else Group([])
  }

  // What the loader establishes: references are to existing things.

  ghost predicate ResolvedTarget(model: Model, tree: int, target: Target)
    requires tree in model.trees
  {
    match target
    case Sequence(id) => id in model.trees[tree].sequences
    case Fork(event, paths) =>
      && event in model.trees[tree].order && model.trees[tree].order[event] > 0
      && forall k | 0 <= k < |paths| :: ResolvedTarget(model, tree, paths[k].branch.target)
    case NamedBranch(n) => n in model.trees[tree].branches
  }

  ghost predicate ResolvedTree(model: Model, tree: int)
    requires tree in model.trees
  {
    var t := model.trees[tree];
    && ResolvedTarget(model, tree, t.initial.target)
    && (forall n <- t.branches :: ResolvedTarget(model, tree, t.branches[n].target))
    && forall q <- t.sequences :: Nodes(AllLinks(t.sequences[q])) <= model.links.Keys
  }

  ghost predicate Resolved(model: Model) {
    && (forall tree <- model.trees :: ResolvedTree(model, tree))
    && forall l <- model.links :: model.links[l] in model.trees
  }

  // What the validators establish.

  /** Named branches have greater ranks than those to which they lead. */
  ghost predicate RankedTree(model: Model, ranks: Ranks, tree: int)
    requires tree in model.trees
  {
    && tree in ranks.branches && tree in ranks.depths
    && forall n <- model.trees[tree].branches ::
         && ranks.Lower(tree, n, ranks.depths[tree])
         && forall m <- Nodes(BranchNames(model.trees[tree].branches[n])) :: ranks.Lower(tree, m, ranks.branches[tree][n])
  }

  /** The next functional event on the way is later than the given one. */
  ghost predicate Follows(model: Model, ranks: Ranks, tree: int, low: nat, target: Target, depth: nat)
    requires tree in model.trees
    decreases depth, target
  {
    match target
    case Sequence(_) => true
    case Fork(event, _) => event in model.trees[tree].order && low < model.trees[tree].order[event]
    case NamedBranch(n) =>
      ranks.Lower(tree, n, depth) && n in model.trees[tree].branches
      && Follows(model, ranks, tree, low, model.trees[tree].branches[n].target, ranks.branches[tree][n])
  }

  /** The functional events of the forks in a branch are in order. */
  ghost predicate Ordered(model: Model, ranks: Ranks, tree: int, target: Target, depth: nat)
    requires tree in model.trees
  {
    match target
    case Sequence(_) => true
    case NamedBranch(_) => true
    case Fork(event, paths) =>
      event in model.trees[tree].order
      && forall k | 0 <= k < |paths| ::
           && Ordered(model, ranks, tree, paths[k].branch.target, depth)
           && Follows(model, ranks, tree, model.trees[tree].order[event], paths[k].branch.target, depth)
  }

  /** No links outside of sequences. */
  predicate LinkFree(b: Branch) {
    Nodes(AllLinks(b.instructions)) == {} && LinkFreeTarget(b.target)
  }

  predicate LinkFreeTarget(target: Target) {
    match target
    case Fork(_, paths) => forall k | 0 <= k < |paths| :: LinkFree(paths[k].branch)
    case _ => true
  }

  /** Everything that the later walk of a branch needs. */
  ghost predicate Walkable(model: Model, ranks: Ranks, tree: int, b: Branch, level: nat, depth: nat, low: nat)
    decreases level, depth + 1, b
  {
    && tree in model.trees
    && Nodes(AllLinks(b.instructions)) == {}
    && WalkableTarget(model, ranks, tree, b.target, level, depth, low)
  }

  ghost predicate WalkableTarget(model: Model, ranks: Ranks, tree: int, target: Target, level: nat, depth: nat, low: nat)
    decreases level, depth + 1, target
  {
    && tree in model.trees
    && match target
       case Sequence(id) =>
         && id in model.trees[tree].sequences
         && forall l <- Nodes(AllLinks(model.trees[tree].sequences[id])) :: WalkableLink(model, ranks, l, level)
       case Fork(event, paths) =>
         && event in model.trees[tree].order && low < model.trees[tree].order[event]
         && forall k | 0 <= k < |paths| ::
              Walkable(model, ranks, tree, paths[k].branch, level, depth, model.trees[tree].order[event])
       case NamedBranch(n) =>
         && n in model.trees[tree].branches && ranks.Lower(tree, n, depth)
         && Walkable(model, ranks, tree, model.trees[tree].branches[n], level, ranks.branches[tree][n], low)
  }

  ghost predicate WalkableLink(model: Model, ranks: Ranks, l: int, level: nat)
    decreases level, 0
  {
    && l in model.links && ranks.LowerLink(l, level)
    && model.links[l] in model.trees && model.links[l] in ranks.depths
    && Walkable(model, ranks, model.links[l], model.trees[model.links[l]].initial, ranks.links[l], ranks.depths[model.links[l]], 0)
  }

  /** What the checks of one tree establish. */
  ghost predicate CheckedTree(model: Model, ranks: Ranks, tree: int) {
    && tree in model.trees
    && RankedTree(model, ranks, tree)
    && CheckedBranch(model, ranks, tree, model.trees[tree].initial)
    && forall n <- model.trees[tree].branches :: CheckedBranch(model, ranks, tree, model.trees[tree].branches[n])
  }

  ghost predicate CheckedBranch(model: Model, ranks: Ranks, tree: int, b: Branch)
    requires tree in model.trees && tree in ranks.depths
  {
    && Ordered(model, ranks, tree, b.target, ranks.depths[tree])
    && LinkFree(b)
  }

  /** Links have greater ranks than the links of their trees. */
  ghost predicate RankedLinks(model: Model, ranks: Ranks) {
    forall l <- model.links ::
      && l in ranks.links && model.links[l] in model.trees && model.links[l] in ranks.depths
      && forall m <- Nodes(SequenceLinks(model, ranks, model.links[l], model.trees[model.links[l]].initial.target,
                                         ranks.depths[model.links[l]])) :: ranks.LowerLink(m, ranks.links[l])
  }

  /** All checks have passed. */
  ghost predicate Validated(model: Model, ranks: Ranks) {
    && Resolved(model)
    && (forall tree <- model.trees :: CheckedTree(model, ranks, tree))
    && RankedLinks(model, ranks)
  }

  lemma GroupNodes(parts: seq<Connector>, k: nat)
    requires k < |parts|
    ensures Nodes(parts[k]) <= Nodes(Group(parts))
  {
    assert parts[k] in parts;
  }

  /** Every branch may come first. */
  lemma {:induction false} FollowsStart(model: Model, ranks: Ranks, tree: int, target: Target, depth: nat)
    requires Resolved(model) && tree in model.trees && RankedTree(model, ranks, tree)
    requires ResolvedTarget(model, tree, target) && forall n <- Nodes(TargetNames(target)) :: ranks.Lower(tree, n, depth)
    ensures Follows(model, ranks, tree, 0, target, depth)
    decreases depth
  {
    if target.NamedBranch? {
      assert ranks.Lower(tree, target.name, depth);
      assert ResolvedTree(model, tree);
      FollowsStart(model, ranks, tree, model.trees[tree].branches[target.name].target, ranks.branches[tree][target.name]);
    }
  }

  /** What has been checked can be walked. */
  lemma {:induction false} CheckedIsWalkable(model: Model, ranks: Ranks, tree: int, target: Target, level: nat, depth: nat, low: nat, limit: nat)
    requires Validated(model, ranks) && tree in model.trees
    requires ResolvedTarget(model, tree, target) && LinkFreeTarget(target)
    requires tree in ranks.depths && Ordered(model, ranks, tree, target, ranks.depths[tree])
    requires Follows(model, ranks, tree, low, target, limit)
    requires forall n <- Nodes(TargetNames(target)) :: ranks.Lower(tree, n, depth)
    requires forall l <- Nodes(SequenceLinks(model, ranks, tree, target, depth)) :: ranks.LowerLink(l, level)
    ensures WalkableTarget(model, ranks, tree, target, level, depth, low)
    decreases level, depth + 1, target
  {
    hide Ranks.Lower;
    assert CheckedTree(model, ranks, tree) && ResolvedTree(model, tree);
    match target
    case Sequence(id) =>
      forall l <- Nodes(AllLinks(model.trees[tree].sequences[id]))
        ensures WalkableLink(model, ranks, l, level)
      {
        LinkIsWalkable(model, ranks, l, level);
      }
    case Fork(event, paths) =>
      forall k | 0 <= k < |paths|
        ensures Walkable(model, ranks, tree, paths[k].branch, level, depth, model.trees[tree].order[event])
      {
        PathParts(model, ranks, tree, event, paths, depth, k);
        CheckedIsWalkable(model, ranks, tree, paths[k].branch.target, level, depth, model.trees[tree].order[event], ranks.depths[tree]);
      }
    case NamedBranch(n) =>
      NameParts(model, ranks, tree, n, depth);
      CheckedIsWalkable(model, ranks, tree, model.trees[tree].branches[n].target, level, ranks.branches[tree][n], low, ranks.branches[tree][n]);
  }

  lemma LinkIsWalkable(model: Model, ranks: Ranks, l: int, level: nat)
    requires Validated(model, ranks) && l in model.links && ranks.LowerLink(l, level)
    ensures WalkableLink(model, ranks, l, level)
    decreases level, 0
  {
    var tree := model.links[l];
    TreeIsWalkable(model, ranks, tree, ranks.links[l]);
  }

  /** Every tree can be walked from its initial state. */
  lemma TreeIsWalkable(model: Model, ranks: Ranks, tree: int, level: nat)
    requires Validated(model, ranks) && tree in model.trees && tree in ranks.depths
    requires forall l <- Nodes(SequenceLinks(model, ranks, tree, model.trees[tree].initial.target, ranks.depths[tree])) :: ranks.LowerLink(l, level)
    ensures Walkable(model, ranks, tree, model.trees[tree].initial, level, ranks.depths[tree], 0)
    decreases level, ranks.depths[tree] + 2
  {
    assert CheckedTree(model, ranks, tree) && ResolvedTree(model, tree);
    var target := model.trees[tree].initial.target;
    NamesResolved(model, tree, target);
    FollowsStart(model, ranks, tree, target, ranks.depths[tree]);
    CheckedIsWalkable(model, ranks, tree, target, level, ranks.depths[tree], 0, ranks.depths[tree]);
  }

  /** The names in a resolved target are those of branches. */
  lemma {:induction false} NamesResolved(model: Model, tree: int, target: Target)
    requires tree in model.trees && ResolvedTarget(model, tree, target)
    ensures Nodes(TargetNames(target)) <= model.trees[tree].branches.Keys
  {
    if target.Fork? {
      var paths := target.paths;
      forall k | 0 <= k < |paths|
        ensures Nodes(BranchNames(paths[k].branch)) <= model.trees[tree].branches.Keys
      {
        NamesResolved(model, tree, paths[k].branch.target);
      }
    }
  }

  lemma PathParts(model: Model, ranks: Ranks, tree: int, event: string, paths: seq<Path>, depth: nat, k: nat)
    requires tree in model.trees && k < |paths|
    ensures Nodes(TargetNames(paths[k].branch.target)) <= Nodes(TargetNames(Fork(event, paths)))
    ensures Nodes(SequenceLinks(model, ranks, tree, paths[k].branch.target, depth))
         <= Nodes(SequenceLinks(model, ranks, tree, Fork(event, paths), depth))
  {
    GroupNodes(seq(|paths|, i requires 0 <= i < |paths| => BranchNames(paths[i].branch)), k);
    GroupNodes(seq(|paths|, i requires 0 <= i < |paths| => SequenceLinks(model, ranks, tree, paths[i].branch.target, depth)), k);
  }

  lemma NameParts(model: Model, ranks: Ranks, tree: int, n: int, depth: nat)
    requires tree in model.trees && n in model.trees[tree].branches
    requires forall m <- Nodes(TargetNames(NamedBranch(n))) :: ranks.Lower(tree, m, depth)
    ensures ranks.Lower(tree, n, depth) && tree in ranks.branches && n in ranks.branches[tree] && ranks.branches[tree][n] < depth
    ensures SequenceLinks(model, ranks, tree, NamedBranch(n), depth)
         == SequenceLinks(model, ranks, tree, model.trees[tree].branches[n].target, ranks.branches[tree][n])
  {
    assert n in Nodes(TargetNames(NamedBranch(n)));
  }

  // The validators.

  function BranchGraph(t: EventTree): Graph {
    map n | n in t.branches :: BranchNames(t.branches[n])
  }

  /** Looks for cycles among the named branches of a tree. */
  method CheckBranches(model: Model, tree: int) returns (ok: bool, ghost rank: map<int, nat>, ghost depth: nat)
    requires Resolved(model) && tree in model.trees
    ensures ok <==> !Cyclic(BranchGraph(model.trees[tree]))
    ensures ok ==> forall n <- model.trees[tree].branches ::
                     && n in rank && rank[n] < depth
                     && forall m <- Nodes(BranchNames(model.trees[tree].branches[n])) :: m in rank && rank[m] < rank[n]
  {
    var t := model.trees[tree];
    var graph := BranchGraph(t);
    assert ResolvedTree(model, tree);
    forall n <- graph
      ensures Nodes(graph[n]) <= graph.Keys
    {
      NamesResolved(model, tree, t.branches[n].target);
    }
    var names := Sets.Listed(t.branches.Keys);
    var cycle, marks;
    forall n
      ensures n in names <==> n in graph
    {
      assert n in names <==> n in t.branches.Keys;
    }
    WholeGraph(graph, names);
    cycle, marks, rank := CheckCycle(graph, names);
    ok := cycle.None?;
    depth := 0;
    if ok {
      depth := Bound(rank, rank.Keys);
      forall n <- t.branches
        ensures n in rank && rank[n] < depth && forall m <- Nodes(BranchNames(t.branches[n])) :: m in rank && rank[m] < rank[n]
      {
        assert n in t.branches.Keys && n in names && n in graph;
      }
    }
  }

  lemma {:induction false} Bound(rank: map<int, nat>, nodes: set<int>) returns (bound: nat)
    requires nodes <= rank.Keys
    ensures forall n <- nodes :: rank[n] < bound
  {
    if nodes == {} {
      bound := 0;
    } else {
      var n := Sets.Some(nodes);
      var rest := Bound(rank, nodes - {n});
      bound := rest + rank[n] + 1;
    }
  }

  /** The next functional event must be later. */
  method CheckNext(model: Model, tree: int, low: nat, target: Target, ghost ranks: Ranks, ghost depth: nat) returns (ok: bool)
    requires Resolved(model) && tree in model.trees && RankedTree(model, ranks, tree)
    requires ResolvedTarget(model, tree, target) && forall n <- Nodes(TargetNames(target)) :: ranks.Lower(tree, n, depth)
    ensures ok <==> Follows(model, ranks, tree, low, target, depth)
    decreases depth
  {
    match target
    case Sequence(_) => ok := true;
    case Fork(event, _) => ok := low < model.trees[tree].order[event];
    case NamedBranch(n) =>
      NameParts(model, ranks, tree, n, depth);
      assert ResolvedTree(model, tree);
      ok := CheckNext(model, tree, low, model.trees[tree].branches[n].target, ranks, ranks.branches[tree][n]);
  }

  method CheckFunctionalEventOrder(model: Model, tree: int, b: Branch, ghost ranks: Ranks) returns (ok: bool)
    requires Resolved(model) && tree in model.trees && RankedTree(model, ranks, tree)
    requires ResolvedTarget(model, tree, b.target)
    ensures ok <==> Ordered(model, ranks, tree, b.target, ranks.depths[tree])
    decreases b
  {
    match b.target
    case Sequence(_) => ok := true;
    case NamedBranch(_) => ok := true;
    case Fork(event, paths) =>
      for k := 0 to |paths|
        invariant forall i | 0 <= i < k ::
                    && Ordered(model, ranks, tree, paths[i].branch.target, ranks.depths[tree])
                    && Follows(model, ranks, tree, model.trees[tree].order[event], paths[i].branch.target, ranks.depths[tree])
      {
        ok := CheckFunctionalEventOrder(model, tree, paths[k].branch, ranks);
        if !ok {
          return;
        }
        NamesResolved(model, tree, paths[k].branch.target);
        ok := CheckNext(model, tree, model.trees[tree].order[event], paths[k].branch.target, ranks, ranks.depths[tree]);
        if !ok {
          return;
        }
      }
      ok := true;
  }

  method EnsureLinksOnlyInSequences(b: Branch) returns (ok: bool)
    ensures ok <==> LinkFree(b)
  {
    if Nodes(AllLinks(b.instructions)) != {} {
      return false;
    }
    match b.target
    case Fork(_, paths) =>
      for k := 0 to |paths|
        invariant forall i | 0 <= i < k :: LinkFree(paths[i].branch)
      {
        ok := EnsureLinksOnlyInSequences(paths[k].branch);
        if !ok {
          return;
        }
      }
      ok := true;
    case _ => ok := true;
  }

  method CheckBranch(model: Model, tree: int, b: Branch, ghost ranks: Ranks) returns (ok: bool)
    requires Resolved(model) && tree in model.trees && RankedTree(model, ranks, tree) && ResolvedTarget(model, tree, b.target)
    ensures ok <==> CheckedBranch(model, ranks, tree, b)
  {
    ok := CheckFunctionalEventOrder(model, tree, b, ranks);
    if ok {
      ok := EnsureLinksOnlyInSequences(b);
    }
  }

  method CheckTree(model: Model, tree: int, ghost ranks: Ranks) returns (ok: bool)
    requires Resolved(model) && tree in model.trees && RankedTree(model, ranks, tree)
    ensures ok <==> CheckedTree(model, ranks, tree)
  {
    assert ResolvedTree(model, tree);
    var t := model.trees[tree];
    var names := Sets.Listed(t.branches.Keys);
    for i := 0 to |names|
      invariant forall j | 0 <= j < i :: names[j] in t.branches && CheckedBranch(model, ranks, tree, t.branches[names[j]])
    {
      var n := names[i];
      assert n in names;
      assert n in t.branches.Keys;
      ok := CheckBranch(model, tree, t.branches[n], ranks);
      if !ok {
        return;
      }
    }
    assert forall n <- t.branches :: n in names;
    ok := CheckBranch(model, tree, t.initial, ranks);
  }

  /** The connector of a link: the links in the sequences of its tree. */
  method FindLinks(model: Model, tree: int, target: Target, ghost ranks: Ranks, ghost depth: nat) returns (c: Connector)
    requires Resolved(model) && tree in model.trees && RankedTree(model, ranks, tree)
    requires ResolvedTarget(model, tree, target) && forall n <- Nodes(TargetNames(target)) :: ranks.Lower(tree, n, depth)
    ensures c == SequenceLinks(model, ranks, tree, target, depth) && Nodes(c) <= model.links.Keys
    decreases depth, target
  {
    assert ResolvedTree(model, tree);
    match target
    case Sequence(id) => c := AllLinks(model.trees[tree].sequences[id]);
    case NamedBranch(n) =>
      NameParts(model, ranks, tree, n, depth);
      c := FindLinks(model, tree, model.trees[tree].branches[n].target, ranks, ranks.branches[tree][n]);
    case Fork(event, paths) =>
      var parts := [];
      for k := 0 to |paths|
        invariant |parts| == k
        invariant forall i | 0 <= i < k ::
                    && parts[i] == SequenceLinks(model, ranks, tree, paths[i].branch.target, depth)
                    && Nodes(parts[i]) <= model.links.Keys
      {
        PathParts(model, ranks, tree, event, paths, depth, k);
        var part := FindLinks(model, tree, paths[k].branch.target, ranks, depth);
        parts := parts + [part];
      }
      c := Group(parts);
      assert parts == seq(|paths|, k requires 0 <= k < |paths| => SequenceLinks(model, ranks, tree, paths[k].branch.target, depth));
  }

  /** Looks for cycles among the named branches of every tree. */
  method CheckAllBranches(model: Model, trees: seq<int>) returns (ok: bool, ghost branches: map<int, map<int, nat>>, ghost depths: map<int, nat>)
    requires Resolved(model) && forall tree :: tree in trees <==> tree in model.trees.Keys
    ensures ok <==> forall tree <- model.trees :: !Cyclic(BranchGraph(model.trees[tree]))
    ensures ok ==> forall links: map<int, nat>, tree <- model.trees :: RankedTree(model, Ranks(branches, depths, links), tree)
  {
    branches, depths := map[], map[];
    for i := 0 to |trees|
      invariant AllRanked(model, branches, depths, trees[..i])
      invariant forall j | 0 <= j < i :: trees[j] in model.trees && !Cyclic(BranchGraph(model.trees[trees[j]]))
    {
      var tree := trees[i];
      assert tree in trees;
      assert tree in model.trees.Keys;
      ghost var rank, depth;
      ok, rank, depth := CheckBranches(model, tree);
      if !ok {
        return;
      }
      RankedKept(model, branches, depths, trees[..i], tree, rank, depth);
      assert trees[..i + 1] == trees[..i] + [tree];
      branches := branches[tree := rank];
      depths := depths[tree := depth];
    }
    ok := true;
    assert trees[..|trees|] == trees;
    assert forall tree <- model.trees :: tree in trees;
  }

  ghost predicate AllRanked(model: Model, branches: map<int, map<int, nat>>, depths: map<int, nat>, trees: seq<int>) {
    forall tree <- trees :: tree in model.trees && forall links: map<int, nat> :: RankedTree(model, Ranks(branches, depths, links), tree)
  }

  lemma RankedKept(model: Model, branches: map<int, map<int, nat>>, depths: map<int, nat>, trees: seq<int>,
                   tree: int, rank: map<int, nat>, depth: nat)
    requires AllRanked(model, branches, depths, trees) && tree in model.trees
    requires forall n <- model.trees[tree].branches ::
               && n in rank && rank[n] < depth
               && forall m <- Nodes(BranchNames(model.trees[tree].branches[n])) :: m in rank && rank[m] < rank[n]
    ensures AllRanked(model, branches[tree := rank], depths[tree := depth], trees + [tree])
  {
    var branches', depths' := branches[tree := rank], depths[tree := depth];
    forall other <- trees + [tree]
      ensures other in model.trees && forall links: map<int, nat> :: RankedTree(model, Ranks(branches', depths', links), other)
    {
      forall links: map<int, nat>
        ensures RankedTree(model, Ranks(branches', depths', links), other)
      {
        if other != tree {
          assert RankedTree(model, Ranks(branches, depths, links), other);
        }
      }
    }
  }

  method ConnectLink(model: Model, l: int, ghost ranks: Ranks) returns (c: Connector)
    requires Resolved(model) && l in model.links && forall tree <- model.trees :: CheckedTree(model, ranks, tree)
    ensures LinkConnector(model, ranks, l, c)
  {
    hide SequenceLinks, CheckedBranch;
    var tree := model.links[l];
    assert tree in model.trees;
    assert CheckedTree(model, ranks, tree) && ResolvedTree(model, tree);
    var target := model.trees[tree].initial.target;
    NamesResolved(model, tree, target);
    c := FindLinks(model, tree, target, ranks, ranks.depths[tree]);
  }

  /** The connectors of all links. */
  method GatherLinks(model: Model, links: seq<int>, ghost ranks: Ranks) returns (graph: Graph)
    requires Resolved(model) && forall tree <- model.trees :: CheckedTree(model, ranks, tree)
    requires forall l :: l in links <==> l in model.links
    ensures graph.Keys == model.links.Keys && forall l <- graph :: LinkConnector(model, ranks, l, graph[l])
  {
    hide LinkConnector, CheckedTree, Resolved;
    graph := map[];
    for i := 0 to |links|
      invariant forall j | 0 <= j < i :: links[j] in graph.Keys
      invariant forall l <- graph :: l in model.links && LinkConnector(model, ranks, l, graph[l])
    {
      var l := links[i];
      assert l in links;
      var c := ConnectLink(model, l, ranks);
      graph := graph[l := c];
    }
    forall l: int
      ensures l in graph.Keys <==> l in model.links.Keys
    {
      assert l in links <==> l in model.links;
    }
    Sets.SameSet(graph.Keys, model.links.Keys);
  }

  /** Looks for cycles among the links. */
  method CheckLinks(model: Model, ghost ranks: Ranks) returns (ok: bool, ghost rank: map<int, nat>)
    requires Resolved(model) && forall tree <- model.trees :: CheckedTree(model, ranks, tree)
    ensures ok <==> !Cyclic(LinkGraph(model, ranks))
    ensures ok ==> RankedLinks(model, ranks.(links := rank))
  {
    hide LinkConnector, CheckedTree, LinkGraph, SequenceLinks;
    var links := Sets.Listed(model.links.Keys);
    forall l
      ensures l in links <==> l in model.links
    {
      assert l in links <==> l in model.links.Keys;
    }
    var graph := GatherLinks(model, links, ranks);
    LinksClosed(model, ranks, graph);
    forall l
      ensures l in links <==> l in graph
    {
      assert l in graph <==> l in graph.Keys;
    }
    WholeGraph(graph, links);
    SameLinkGraph(model, ranks, graph);
    var cycle, marks;
    cycle, marks, rank := CheckCycle(graph, links);
    ok := cycle.None?;
    if ok {
      LinksRanked(model, ranks, graph, links, rank);
    }
  }

  lemma LinksClosed(model: Model, ranks: Ranks, graph: Graph)
    requires graph.Keys == model.links.Keys && forall l <- graph :: LinkConnector(model, ranks, l, graph[l])
    ensures Closed(graph)
  {
    hide SequenceLinks;
    forall l <- graph
      ensures Nodes(graph[l]) <= graph.Keys
    {
      assert LinkConnector(model, ranks, l, graph[l]);
    }
  }

  /** How links lead to others: through the initial states of their trees. */
  ghost function LinkGraph(model: Model, ranks: Ranks): Graph
    requires Resolved(model) && forall tree <- model.trees :: CheckedTree(model, ranks, tree)
  {
    map l | l in model.links && CheckedTree(model, ranks, model.links[l]) ::
      SequenceLinks(model, ranks, model.links[l], model.trees[model.links[l]].initial.target, ranks.depths[model.links[l]])
  }

  lemma SameLinkGraph(model: Model, ranks: Ranks, graph: Graph)
    requires Resolved(model) && forall tree <- model.trees :: CheckedTree(model, ranks, tree)
    requires graph.Keys == model.links.Keys && forall l <- graph :: LinkConnector(model, ranks, l, graph[l])
    ensures graph == LinkGraph(model, ranks)
  {
    hide SequenceLinks, CheckedBranch, RankedTree, LinkConnector;
    var links := LinkGraph(model, ranks);
    forall l: int
      ensures l in links.Keys <==> l in graph.Keys
      ensures l in graph ==> links[l] == graph[l]
    {
      assert l in graph.Keys <==> l in model.links.Keys;
      if l in model.links {
        SameLink(model, ranks, l, graph[l]);
      }
    }
    hide LinkGraph, LinkConnector, CheckedTree;
    Sets.SameSet(links.Keys, graph.Keys);
  }

  lemma SameLink(model: Model, ranks: Ranks, l: int, c: Connector)
    requires Resolved(model) && forall tree <- model.trees :: CheckedTree(model, ranks, tree)
    requires LinkConnector(model, ranks, l, c)
    ensures l in LinkGraph(model, ranks) && LinkGraph(model, ranks)[l] == c
  {
    hide SequenceLinks, CheckedBranch, RankedTree;
  }

  ghost predicate LinkConnector(model: Model, ranks: Ranks, l: int, c: Connector) {
    && l in model.links && model.links[l] in model.trees && model.links[l] in ranks.depths
    && c == SequenceLinks(model, ranks, model.links[l], model.trees[model.links[l]].initial.target, ranks.depths[model.links[l]])
    && Nodes(c) <= model.links.Keys
  }

  lemma {:induction false} SequenceLinksSame(model: Model, ranks: Ranks, ranks': Ranks, tree: int, target: Target, depth: nat)
    requires tree in model.trees && ranks'.branches == ranks.branches
    ensures SequenceLinks(model, ranks', tree, target, depth) == SequenceLinks(model, ranks, tree, target, depth)
    decreases depth, target
  {
    match target
    case Sequence(_) =>
    case NamedBranch(n) =>
      if ranks.Lower(tree, n, depth) && n in model.trees[tree].branches {
        SequenceLinksSame(model, ranks, ranks', tree, model.trees[tree].branches[n].target, ranks.branches[tree][n]);
      }
    case Fork(_, paths) =>
      forall k | 0 <= k < |paths|
        ensures SequenceLinks(model, ranks', tree, paths[k].branch.target, depth)
             == SequenceLinks(model, ranks, tree, paths[k].branch.target, depth)
      {
        SequenceLinksSame(model, ranks, ranks', tree, paths[k].branch.target, depth);
      }
      assert seq(|paths|, k requires 0 <= k < |paths| => SequenceLinks(model, ranks', tree, paths[k].branch.target, depth))
          == seq(|paths|, k requires 0 <= k < |paths| => SequenceLinks(model, ranks, tree, paths[k].branch.target, depth));
  }

  lemma LinksRanked(model: Model, ranks: Ranks, graph: Graph, links: seq<int>, rank: map<int, nat>)
    requires forall l <- model.links :: l in graph && l in links && LinkConnector(model, ranks, l, graph[l])
    requires Descends(graph, rank, links)
    ensures RankedLinks(model, ranks.(links := rank))
  {
    forall l <- model.links
      ensures model.links[l] in model.trees && model.links[l] in ranks.depths && l in rank
      ensures forall m <- Nodes(SequenceLinks(model, ranks.(links := rank), model.links[l], model.trees[model.links[l]].initial.target,
                                              ranks.depths[model.links[l]])) :: ranks.(links := rank).LowerLink(m, rank[l])
    {
      assert LinkConnector(model, ranks, l, graph[l]);
      var tree := model.links[l];
      SequenceLinksSame(model, ranks, ranks.(links := rank), tree, model.trees[tree].initial.target, ranks.depths[tree]);
    }
  }
}
