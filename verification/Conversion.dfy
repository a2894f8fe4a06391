/** Conversion of a graph into a BDD, bottom-up, with use-counted memoisation of shared gates. */
module Conversion {
  import opened Vertices
  import opened Indices
  import opened Options
  import opened Tables
  import opened Graphs
  import opened BddEngine

  /** What the traversal of a graph has done so far: the parents that have used each gate,
      the gates it is converting and has converted, and the log of conversions. */
  datatype Traversal = Traversal(uses: map<int, set<int>>, active: set<int>, complete: set<int>, log: seq<int>)

  type Memo = map<int, (Function, nat)>

  ghost function Begun(t: Traversal, g: int): Traversal {
    t.(active := t.active + {g}, log := t.log + [g])
  }

  ghost function Used(t: Traversal, g: int, parent: set<int>): Traversal
    requires g in t.uses
  {
    t.(uses := t.uses[g := t.uses[g] + parent])
  }

  ghost function Finished(t: Traversal, g: int, parent: set<int>): Traversal
    requires g in t.uses
  {
    Used(t, g, parent).(active := t.active - {g}, complete := t.complete + {g})
  }

  /** The memo after a further use of a gate that is in it. */
  function MemoUsed(graph: RawPdag, memo: Memo, g: int): Memo
    requires g in memo
  {
    var count := memo[g].1 + 1;
    if count == |graph.Parents(g)| then memo - {g} else memo[g := (memo[g].0, count)]
  }

  /** The memo after the conversion of a gate: only gates with several parents enter it. */
  function MemoFinished(graph: RawPdag, memo: Memo, g: int, f: Function): Memo {
    if |graph.Parents(g)| > 1 then memo[g := (f, 1)] else memo
  }

  /** The use counts of the memo are exactly the numbers of uses so far: a converted gate
      is in the memo while some but not all of its parents have used it. */
  ghost predicate Tracked(graph: RawPdag, t: Traversal, memo: Memo) {
    && Logged(graph, t)
    && Followed(graph, t)
    && Counted(graph, t, memo)
  }

  ghost predicate Logged(graph: RawPdag, t: Traversal) {
    && t.active !! t.complete
    && t.active + t.complete <= graph.gates.Keys
    && (forall g <- graph.gates :: multiset(t.log)[g] == if g in t.active || g in t.complete then 1 else 0)
    && (forall g <- t.log :: g in graph.gates)
  }

  ghost predicate Followed(graph: RawPdag, t: Traversal) {
    && t.uses.Keys == graph.gates.Keys
    && (forall g <- graph.gates :: t.uses[g] <= graph.Parents(g) && t.uses[g] <= t.active + t.complete)
    && (forall g <- graph.gates :: g != graph.root ==> (g in t.complete <==> t.uses[g] != {}))
    && (forall h, g | h in t.complete && g in graph.gates && h in graph.Parents(g) :: h in t.uses[g])
  }

  ghost predicate Counted(graph: RawPdag, t: Traversal, memo: Memo)
    requires t.uses.Keys == graph.gates.Keys
  {
    && memo.Keys <= graph.gates.Keys
    && (forall g <- graph.gates :: MemoCount(graph, t.uses[g], memo, g))
  }

  ghost predicate MemoCount(graph: RawPdag, used: set<int>, memo: Memo, g: int) {
    if 0 < |used| < |graph.Parents(g)| then g in memo && memo[g].1 == |used| else g !in memo
  }

  lemma SubsetSize(a: set<int>, b: set<int>)
    requires a <= b
    ensures |a| <= |b|
  {
    assert b == a + (b - a);
  }

  /** While a parent has not used a gate, the gate's use count is below its number of parents. */
  lemma UsesRemain(graph: RawPdag, t: Traversal, h: int, g: int)
    requires Followed(graph, t)
    requires g in graph.gates && h in graph.Parents(g) && h !in t.uses[g]
    ensures |t.uses[g]| < |graph.Parents(g)|
    ensures |t.uses[g] + {h}| == |t.uses[g]| + 1
  {
    hide RawPdag.Parents;
    SubsetSize(t.uses[g], graph.Parents(g) - {h});
  }

  /** A gate is reached from an active parent that has not used it, or it is the root at the
      start. */
  ghost predicate Reached(graph: RawPdag, t: Traversal, g: int, parent: set<int>)
    requires t.uses.Keys == graph.gates.Keys
  {
    && g in graph.gates && g !in t.active
    && if g == graph.root then parent == graph.Parents(g) == {} && t.active == t.complete == {}
       else exists h :: parent == {h} && h in t.active && h in graph.Parents(g) && h !in t.uses[g]
  }

  /** A gate that is not in the memo when it is reached has never been converted. */
  lemma Enter(graph: RawPdag, t: Traversal, memo: Memo, g: int, parent: set<int>)
    requires Tracked(graph, t, memo) && Reached(graph, t, g, parent) && g !in memo
    ensures g !in t.complete && (g != graph.root ==> t.uses[g] == {})
    ensures Tracked(graph, Begun(t, g), memo)
  {
    hide RawPdag.Parents;
    if h :| h in parent {
      UsesRemain(graph, t, h, g);
      assert MemoCount(graph, t.uses[g], memo, g);
    }
    hide MemoCount, Counted;
    EnterTracked(graph, t, g);
  }

  lemma EnterTracked(graph: RawPdag, t: Traversal, g: int)
    requires Logged(graph, t) && Followed(graph, t) && g in graph.gates && g !in t.active && g !in t.complete
    ensures Logged(graph, Begun(t, g)) && Followed(graph, Begun(t, g))
  {
    hide RawPdag.Parents;
  }

  /** A further use of a converted gate. */
  lemma Reuse(graph: RawPdag, t: Traversal, memo: Memo, g: int, parent: set<int>)
    requires Tracked(graph, t, memo) && Reached(graph, t, g, parent) && g in memo
    ensures memo[g].1 < |graph.Parents(g)|
    ensures Tracked(graph, Used(t, g, parent), MemoUsed(graph, memo, g))
  {
    hide RawPdag.Parents;
    assert MemoCount(graph, t.uses[g], memo, g);
    NotRoot(graph, t, memo, g, parent);
    var h :| parent == {h} && h in t.active && h in graph.Parents(g) && h !in t.uses[g];
    UsesRemain(graph, t, h, g);
    UsedFollowed(graph, t, g, h);
    UsedCounted(graph, t, memo, g, h);
  }

  /** The root is not in the memo at the start. */
  lemma NotRoot(graph: RawPdag, t: Traversal, memo: Memo, g: int, parent: set<int>)
    requires Tracked(graph, t, memo) && Reached(graph, t, g, parent) && g in memo
    ensures g != graph.root && t.uses[g] != {}
  {
    hide RawPdag.Parents, Logged;
    NoUses(graph, t, g);
    assert MemoCount(graph, t.uses[g], memo, g);
  }

  lemma NoUses(graph: RawPdag, t: Traversal, g: int)
    requires Followed(graph, t) && g in graph.gates
    ensures graph.Parents(g) == {} ==> |t.uses[g]| == 0
  {
    hide RawPdag.Parents;
  }

  lemma UsedFollowed(graph: RawPdag, t: Traversal, g: int, h: int)
    requires Logged(graph, t) && Followed(graph, t) && g in graph.gates && h in graph.Parents(g) && h in t.active
    requires g != graph.root && t.uses[g] != {}
    ensures Logged(graph, Used(t, g, {h})) && Followed(graph, Used(t, g, {h}))
  {
    hide RawPdag.Parents;
  }

  lemma UsedCounted(graph: RawPdag, t: Traversal, memo: Memo, g: int, h: int)
    requires t.uses.Keys == graph.gates.Keys && Counted(graph, t, memo) && g in graph.gates && g in memo
    requires |t.uses[g]| < |graph.Parents(g)| && |t.uses[g] + {h}| == |t.uses[g]| + 1
    ensures memo[g].1 == |t.uses[g]| && Counted(graph, Used(t, g, {h}), MemoUsed(graph, memo, g))
  {
    hide RawPdag.Parents;
    assert MemoCount(graph, t.uses[g], memo, g);
    var memo' := MemoUsed(graph, memo, g);
    forall k <- graph.gates
      ensures MemoCount(graph, Used(t, g, {h}).uses[k], memo', k)
    {
      assert MemoCount(graph, t.uses[k], memo, k);
    }
  }

  /** The end of a conversion: all arguments are done, and the gate enters the memo with one
      use if it has further parents. */
  lemma Leave(graph: RawPdag, t: Traversal, memo: Memo, g: int, parent: set<int>, f: Function)
    requires Tracked(graph, t, memo)
    requires g in t.active && g !in memo
    requires forall c <- graph.gates :: g in graph.Parents(c) ==> g in t.uses[c]
    requires if g == graph.root then parent == graph.Parents(g) == {}
             else t.uses[g] == {} && exists h :: parent == {h} && h in t.active && h in graph.Parents(g)
    ensures Tracked(graph, Finished(t, g, parent), MemoFinished(graph, memo, g, f))
  {
    hide RawPdag.Parents;
    LeaveFollowed(graph, t, g, parent);
    if g != graph.root {
      SubsetSize(parent, graph.Parents(g));
    }
    LeaveCounted(graph, t, memo, g, parent, f);
  }

  lemma LeaveCounted(graph: RawPdag, t: Traversal, memo: Memo, g: int, parent: set<int>, f: Function)
    requires t.uses.Keys == graph.gates.Keys && Counted(graph, t, memo) && g in graph.gates && g !in memo
    requires t.uses[g] == {} && |parent| <= 1 && |parent| <= |graph.Parents(g)| && (parent == {} ==> graph.Parents(g) == {})
    ensures Counted(graph, Finished(t, g, parent), MemoFinished(graph, memo, g, f))
  {
    hide RawPdag.Parents;
    assert MemoCount(graph, t.uses[g], memo, g);
    assert t.uses[g] + parent == parent;
  }

  lemma LeaveFollowed(graph: RawPdag, t: Traversal, g: int, parent: set<int>)
    requires Logged(graph, t) && Followed(graph, t) && g in t.active
    requires forall c <- graph.gates :: g in graph.Parents(c) ==> g in t.uses[c]
    requires if g == graph.root then parent == graph.Parents(g) == {}
             else exists h :: parent == {h} && h in t.active && h in graph.Parents(g)
    ensures Logged(graph, Finished(t, g, parent)) && Followed(graph, Finished(t, g, parent))
  {
    hide RawPdag.Parents;
  }

  lemma {:induction false} AncestorsComplete(graph: Pdag, t: Traversal, g: int, bound: nat)
    requires Followed(graph, t)
    requires t.active == {} && graph.root in t.complete
    requires g in graph.gates && forall h <- graph.gates :: graph.rank[h] <= bound
    ensures g in t.complete
    decreases bound - graph.rank[g]
  {
    if g != graph.root {
      assert graph.Parents(g) != {};
      var h :| h in graph.Parents(g);
      assert graph.IsArgument(h, g);
      AncestorsComplete(graph, t, h, bound);
    }
  }

  lemma {:induction false} RankBound(graph: Pdag, gates: set<int>) returns (bound: nat)
    requires gates <= graph.rank.Keys
    ensures forall h <- gates :: graph.rank[h] <= bound
  {
    bound := 0;
    if g :| g in gates {
      bound := RankBound(graph, gates - {g});
      bound := if graph.rank[g] > bound then graph.rank[g] else bound;
    }
  }

  /** When the root is done, every gate has been converted exactly once and the memo is empty. */
  lemma AllConverted(graph: Pdag, t: Traversal, memo: Memo)
    requires Tracked(graph, t, memo)
    requires t.active == {} && graph.root in t.complete
    ensures t.complete == graph.gates.Keys && memo == map[]
    ensures multiset(t.log) == multiset(graph.gates.Keys)
  {
    hide RawPdag.WellBuilt, Logged, Followed, Counted;
    EveryGateComplete(graph, t);
    NothingRemembered(graph, t, memo);
    LoggedOnce(graph, t);
  }

  lemma EveryGateComplete(graph: Pdag, t: Traversal)
    requires Logged(graph, t) && Followed(graph, t)
    requires t.active == {} && graph.root in t.complete
    ensures t.complete == graph.gates.Keys
  {
    assert graph.Acyclic();
    hide RawPdag.WellBuilt, RawPdag.Parents;
    forall g <- graph.gates.Keys
      ensures g in graph.rank.Keys
    {
      assert g in graph.gates;
    }
    var bound := RankBound(graph, graph.gates.Keys);
    forall g | g in graph.gates
      ensures g in t.complete
    {
      AncestorsComplete(graph, t, g, bound);
    }
  }

  lemma NothingRemembered(graph: RawPdag, t: Traversal, memo: Memo)
    requires Followed(graph, t) && Counted(graph, t, memo) && t.complete == graph.gates.Keys
    ensures memo == map[]
  {
    forall g | g in graph.gates
      ensures g !in memo
    {
      assert t.uses[g] == graph.Parents(g);
      assert MemoCount(graph, t.uses[g], memo, g);
    }
  }

  lemma LoggedOnce(graph: RawPdag, t: Traversal)
    requires Logged(graph, t) && t.complete == graph.gates.Keys
    ensures multiset(t.log) == multiset(graph.gates.Keys)
  {
    forall g
      ensures multiset(t.log)[g] == multiset(graph.gates.Keys)[g]
    {
      if g !in graph.gates {
        assert g !in t.log;
      }
    }
  }

  /** The function stands for the gate: its proxies stand for module gates, and its
      variables belong to the gate's scope. */
  ghost predicate Represents(graph: Pdag, f: Function, g: int)
    requires g in graph.gates
  {
    && (forall a: Assignment :: EvalF(f, graph.Proxied(a)) == graph.Value(g, a))
    && Below(graph.layout, 0, graph.scope[g], f.vertex)
  }

  /** A signed argument of a gate: a variable, or another gate. */
  datatype Arg = VariableArg(index: int) | GateArg(index: int)

  ghost predicate ArgValue(graph: Pdag, arg: Arg, a: Assignment)
    requires (arg.GateArg? ==> Abs(arg.index) in graph.gates)
  {
    match arg
    case VariableArg(v) => (Abs(v) in a) == (v >= 0)
    case GateArg(h) => graph.Value(Abs(h), a) == (h >= 0)
  }

  ghost predicate RepresentsArg(graph: Pdag, g: int, f: Function, arg: Arg)
    requires g in graph.gates && (arg.GateArg? ==> Abs(arg.index) in graph.gates)
  {
    && (forall a: Assignment :: EvalF(f, graph.Proxied(a)) == ArgValue(graph, arg, a))
    && Below(graph.layout, 0, graph.scope[g], f.vertex)
  }

  /** The arguments of a gate in the order of conversion: variables, then gates. */
  function Args(gate: Gate): seq<Arg> {
    seq(|gate.variables|, i requires 0 <= i < |gate.variables| => VariableArg(gate.variables[i]))
    + seq(|gate.gates|, i requires 0 <= i < |gate.gates| => GateArg(gate.gates[i]))
  }

  ghost predicate Combined(op: Connective, args: seq<Function>, a: Assignment) {
    match op
    case And => forall f <- args :: EvalF(f, a)
    case Or => exists f <- args :: EvalF(f, a)
  }

  ghost function ArgValues(graph: Pdag, args: seq<Arg>, a: Assignment): (r: seq<bool>)
    requires forall arg <- args :: arg.GateArg? ==> Abs(arg.index) in graph.gates
    ensures |r| == |args| && forall i | 0 <= i < |args| :: r[i] == ArgValue(graph, args[i], a)
  {
    seq(|args|, i requires 0 <= i < |args| => ArgValue(graph, args[i], a))
  }

  /** The value of a gate combines the values of its arguments. */
  lemma ValueOfArgs(graph: Pdag, g: int, a: Assignment)
    requires g in graph.gates
    ensures forall arg <- Args(graph.gates[g]) :: arg.GateArg? ==> Abs(arg.index) in graph.gates
    ensures graph.Value(g, a) == Combine(graph.gates[g].op, ArgValues(graph, Args(graph.gates[g]), a))
  {
    hide RawPdag.WellBuilt, Combine, Args, ArgValues, ArgValue, RawPdag.VariableValues, RawPdag.GateValues;
    ArgsKnown(graph, g);
    var values := ArgValues(graph, Args(graph.gates[g]), a);
    var all := graph.VariableValues(g, a) + graph.GateValues(g, a);
    forall i | 0 <= i < |values|
      ensures values[i] == all[i]
    {
      OneArg(graph, g, i, a);
    }
    assert values == all;
  }

  lemma OneArg(graph: Pdag, g: int, i: nat, a: Assignment)
    requires g in graph.gates && i < |Args(graph.gates[g])| == |graph.gates[g].variables| + |graph.gates[g].gates|
    requires forall arg <- Args(graph.gates[g]) :: arg.GateArg? ==> Abs(arg.index) in graph.gates
    requires graph.Acyclic()
    ensures ArgValue(graph, Args(graph.gates[g])[i], a) == (graph.VariableValues(g, a) + graph.GateValues(g, a))[i]
  {
    hide RawPdag.WellBuilt, RawPdag.Acyclic, Args, RawPdag.VariableValues, RawPdag.GateValues, RawPdag.Value;
    ArgsKnown(graph, g);
    var gate := graph.gates[g];
    if i >= |gate.variables| {
      assert Args(gate)[|gate.variables| + (i - |gate.variables|)] == GateArg(gate.gates[i - |gate.variables|]);
    }
  }

  lemma ArgsKnown(graph: Pdag, g: int)
    requires g in graph.gates
    ensures var gate := graph.gates[g];
            && |Args(gate)| == |gate.variables| + |gate.gates|
            && (forall i | 0 <= i < |gate.variables| :: Args(gate)[i] == VariableArg(gate.variables[i]))
            && (forall i | 0 <= i < |gate.gates| :: Args(gate)[|gate.variables| + i] == GateArg(gate.gates[i]))
            && (forall i | 0 <= i < |gate.gates| :: Abs(gate.gates[i]) in graph.gates)
            && forall arg <- Args(gate) :: arg.GateArg? ==> Abs(arg.index) in graph.gates
    ensures graph.Acyclic()
  {
    assert graph.Acyclic();
    hide RawPdag.WellBuilt;
  }

  /** Combining the functions of all arguments gives the function of the gate. */
  lemma CombinedArgs(graph: Pdag, g: int, args: seq<Function>, a: Assignment)
    requires g in graph.gates
    requires |args| == |Args(graph.gates[g])|
    requires forall i | 0 <= i < |args| ::
               var arg := Args(graph.gates[g])[i];
               (arg.GateArg? ==> Abs(arg.index) in graph.gates) && RepresentsArg(graph, g, args[i], arg)
    ensures Combined(graph.gates[g].op, args, graph.Proxied(a)) == graph.Value(g, a)
  {
    hide RawPdag.WellBuilt, Args, RawPdag.Value, RawPdag.Proxied;
    ValueOfArgs(graph, g, a);
    var values := ArgValues(graph, Args(graph.gates[g]), a);
    assert forall i | 0 <= i < |args| :: values[i] == EvalF(args[i], graph.Proxied(a)) by {
      forall i | 0 <= i < |args|
        ensures values[i] == EvalF(args[i], graph.Proxied(a))
      {
        assert RepresentsArg(graph, g, args[i], Args(graph.gates[g])[i]);
      }
    }
    hide RepresentsArg, ArgValues, ArgValue;
    assert forall i | 0 <= i < |args| :: args[i] in args;
  }

  // Terminal functions first, then functions with later roots before those with earlier ones.

  predicate Precedes(left: Function, right: Function) {
    left.vertex.One? || (right.vertex.Ite? && left.vertex.order > right.vertex.order)
  }

  function Insert(f: Function, sorted: seq<Function>): (r: seq<Function>)
    ensures multiset(r) == multiset{f} + multiset(sorted)
  {
    if sorted == [] || Precedes(f, sorted[0]) then [f] + sorted
    else
      assert sorted == [sorted[0]] + sorted[1..];
      [sorted[0]] + Insert(f, sorted[1..])
  }

  function Sorted(args: seq<Function>): (r: seq<Function>)
    ensures multiset(r) == multiset(args)
  {
    if args == [] then []
    else
      assert args == [args[0]] + args[1..];
      Insert(args[0], Sorted(args[1..]))
  }

  /** The functions of the first arguments of a gate. */
  ghost predicate Ready(graph: Pdag, g: int, args: seq<Function>, live: set<Vertex>)
    requires g in graph.gates
  {
    && |args| <= |Args(graph.gates[g])|
    && forall i | 0 <= i < |args| ::
         var arg := Args(graph.gates[g])[i];
         && args[i].vertex in live
         && (arg.GateArg? ==> Abs(arg.index) in graph.gates)
         && RepresentsArg(graph, g, args[i], arg)
  }

  lemma ReadyNone(graph: Pdag, g: int, live: set<Vertex>)
    requires g in graph.gates
    ensures Ready(graph, g, [], live)
  {
  }

  lemma ArgsOf(gate: Gate)
    ensures |Args(gate)| == |gate.variables| + |gate.gates|
    ensures forall i | 0 <= i < |gate.variables| :: Args(gate)[i] == VariableArg(gate.variables[i])
    ensures forall i | 0 <= i < |gate.gates| :: Args(gate)[|gate.variables| + i] == GateArg(gate.gates[i])
  {
  }

  lemma ReadyAppend(graph: Pdag, g: int, args: seq<Function>, live: set<Vertex>, f: Function, after: set<Vertex>)
    requires g in graph.gates && Ready(graph, g, args, live)
    requires |args| < |Args(graph.gates[g])|
    requires f.vertex in after && VerticesOf(args) <= after
    requires var arg := Args(graph.gates[g])[|args|];
             (arg.GateArg? ==> Abs(arg.index) in graph.gates) && RepresentsArg(graph, g, f, arg)
    ensures Ready(graph, g, args + [f], after)
  {
    hide RawPdag.WellBuilt, RepresentsArg, Args;
    assert forall i | 0 <= i < |args| :: args[i] in args;
  }

  /** The vertex with terminal children is true exactly when its variable is. */
  lemma SingleVertex(v: Vertex, a: Assignment)
    requires v.Ite? && v.high == One && v.low == One && v.complementEdge
    ensures Eval(v, a) == (v.index in a)
  {
  }

  ghost predicate Known(graph: Pdag, t: Traversal, memo: Memo, modules: map<int, Function>, indexToOrder: map<int, int>, live: set<Vertex>)
  {
    && t.complete <= graph.gates.Keys
    && (forall g <- memo :: g in graph.gates && memo[g].0.vertex in live && Represents(graph, memo[g].0, g))
    && (forall m <- modules :: m in t.complete && Represents(graph, modules[m], m))
    && (forall g <- t.complete :: graph.gates[g].isModule ==> g in modules)
    && (forall i <- indexToOrder ::
          i in graph.layout && !graph.layout[i].isModule && indexToOrder[i] == graph.layout[i].order)
    && (forall g, v | g in t.complete && v in graph.gates[g].variables :: Abs(v) in indexToOrder)
  }

  lemma CombinedPrefix(op: Connective, args: seq<Function>, i: nat, a: Assignment)
    requires i < |args|
    ensures i == 0 ==> Combined(op, args[..1], a) == EvalF(args[0], a)
    ensures i > 0 ==> Combined(op, args[..i + 1], a) == Connect(op, Combined(op, args[..i], a), EvalF(args[i], a))
  {
    assert args[..i + 1] == args[..i] + [args[i]];
  }

  lemma SortedMembers(args: seq<Function>)
    ensures |Sorted(args)| == |args|
    ensures forall f :: f in Sorted(args) <==> f in args
  {
    assert |multiset(Sorted(args))| == |multiset(args)|;
    forall f
      ensures f in Sorted(args) <==> f in args
    {
      assert f in Sorted(args) <==> f in multiset(Sorted(args));
      assert f in args <==> f in multiset(args);
    }
  }

  ghost predicate InScope(layout: Layout, owner: int, args: seq<Function>) {
    forall f <- args :: Below(layout, 0, owner, f.vertex)
  }

  function VerticesOf(args: seq<Function>): set<Vertex> {
    set f | f in args :: f.vertex
  }

  lemma SameScopeOf(layout: Layout, owner: int, u: Vertex, v: Vertex)
    requires Below(layout, 0, owner, u) && Below(layout, 0, owner, v)
    ensures SameScope(layout, u, v)
  {
  }

  /** Of the gates being converted, exactly `parent` has gained a use, of gate `g`. */
  ghost predicate UseAdded(graph: RawPdag, before: Traversal, after: Traversal, g: int, parent: set<int>) {
    && before.uses.Keys == after.uses.Keys == graph.gates.Keys
    && before.active == after.active
    && forall c, x | c in graph.gates && x in before.active ::
         x in after.uses[c] <==> x in before.uses[c] || (c == g && x in parent)
  }

  lemma UseAddedByConversion(graph: RawPdag, before: Traversal, after: Traversal, g: int, parent: set<int>)
    requires before.uses.Keys == after.uses.Keys == graph.gates.Keys
    requires Reached(graph, before, g, parent) && after.active == before.active + {g}
    requires forall c, x | c in graph.gates && x in after.active && x != g :: x in after.uses[c] <==> x in before.uses[c]
    ensures UseAdded(graph, before, Finished(after, g, parent), g, parent)
  {
    hide RawPdag.Parents;
  }

  /** The uses by gate `g` are those of its first `n` gate arguments. */
  ghost predicate UsedBy(graph: RawPdag, t: Traversal, g: int, n: nat)
    requires g in graph.gates && n <= |graph.gates[g].gates| && t.uses.Keys == graph.gates.Keys
  {
    forall c <- graph.gates :: g in t.uses[c] <==> exists j :: 0 <= j < n && Abs(graph.gates[g].gates[j]) == c
  }

  lemma NonEmpty(graph: Pdag, g: int)
    requires g in graph.gates
    ensures g in graph.scope && |Args(graph.gates[g])| > 0
  {
  }

  lemma ReadyInScope(graph: Pdag, g: int, args: seq<Function>, live: set<Vertex>)
    requires g in graph.gates && Ready(graph, g, args, live)
    ensures InScope(graph.layout, graph.scope[g], args) && VerticesOf(args) <= live
  {
    forall f <- args
      ensures f.vertex in live && Below(graph.layout, 0, graph.scope[g], f.vertex)
    {
      var i :| 0 <= i < |args| && args[i] == f;
      assert RepresentsArg(graph, g, args[i], Args(graph.gates[g])[i]);
    }
  }

  lemma CombinationRepresents(graph: Pdag, g: int, args: seq<Function>, live: set<Vertex>, result: Function)
    requires g in graph.gates && |args| == |Args(graph.gates[g])| && Ready(graph, g, args, live)
    requires Below(graph.layout, 0, graph.scope[g], result.vertex)
    requires forall a: Assignment :: EvalF(result, a) == Combined(graph.gates[g].op, args, a)
    ensures Represents(graph, result, g)
  {
    forall a: Assignment
      ensures EvalF(result, graph.Proxied(a)) == graph.Value(g, a)
    {
      CombinedArgs(graph, g, args, a);
    }
  }

  /** The next gate argument is reached from its parent. */
  lemma ReachArgument(graph: Pdag, t: Traversal, g: int, i: nat)
    requires Logged(graph, t) && Followed(graph, t)
    requires g in t.active && i < |graph.gates[g].gates| && UsedBy(graph, t, g, i)
    requires forall x <- t.active :: graph.rank[g] <= graph.rank[x]
    ensures var h := Abs(graph.gates[g].gates[i]);
            && h in graph.gates && graph.rank[h] < graph.rank[g]
            && Reached(graph, t, h, {g})
  {
    var h := Abs(graph.gates[g].gates[i]);
    assert graph.gates[g].gates[i] in graph.gates[g].gates;
    assert graph.IsArgument(g, h);
    assert g in graph.Parents(h);
    assert graph.DistinctGates(g);
    assert g !in t.uses[h];
  }

  lemma AllUsed(graph: RawPdag, t: Traversal, g: int)
    requires g in graph.gates && t.uses.Keys == graph.gates.Keys
    requires UsedBy(graph, t, g, |graph.gates[g].gates|)
    ensures forall c <- graph.gates :: g in graph.Parents(c) ==> g in t.uses[c]
  {
    forall c <- graph.gates | g in graph.Parents(c)
      ensures g in t.uses[c]
    {
      assert graph.IsArgument(g, c);
    }
  }

  lemma UsedByNext(graph: RawPdag, before: Traversal, after: Traversal, g: int, i: nat)
    requires g in graph.gates && i < |graph.gates[g].gates| && g in before.active
    requires UseAdded(graph, before, after, Abs(graph.gates[g].gates[i]), {g})
    requires UsedBy(graph, before, g, i)
    ensures UsedBy(graph, after, g, i + 1)
  {
  }

  /** The function of a gate argument that is not a module, or the proxy of a module. */
  lemma GateArgument(graph: Pdag, g: int, i: nat, res: Function, f: Function)
    requires g in graph.gates && i < |graph.gates[g].gates|
    requires var h := Abs(graph.gates[g].gates[i]); h in graph.gates && Represents(graph, res, h)
    requires var index := graph.gates[g].gates[i];
             if graph.gates[Abs(index)].isModule
             then f.complement == (index < 0) && f.vertex.Ite? && f.vertex.index == Abs(index)
                  && f.vertex.high == One && f.vertex.low == One && f.vertex.complementEdge && f.vertex.order > 0
             else f == Function((index < 0) != res.complement, res.vertex)
    ensures RepresentsArg(graph, g, f, GateArg(graph.gates[g].gates[i]))
  {
    var index := graph.gates[g].gates[i];
    assert index in graph.gates[g].gates && graph.GatesPlaced(g);
    hide RawPdag.Value, RawPdag.Acyclic;
    if graph.gates[Abs(index)].isModule {
      forall a: Assignment
        ensures EvalF(f, graph.Proxied(a)) == (graph.Value(Abs(index), a) == (index >= 0))
      {
        SingleVertex(f.vertex, graph.Proxied(a));
      }
    }
  }

  lemma KnownSurvives(graph: Pdag, t: Traversal, memo: Memo, modules: map<int, Function>, indexToOrder: map<int, int>,
                      live: set<Vertex>, after: set<Vertex>)
    requires Known(graph, t, memo, modules, indexToOrder, live)
    requires forall g <- memo :: memo[g].0.vertex in after
    ensures Known(graph, t, memo, modules, indexToOrder, after)
  {
    hide Represents, RawPdag.WellBuilt;
  }

  lemma KnownUsed(graph: Pdag, t: Traversal, memo: Memo, modules: map<int, Function>, indexToOrder: map<int, int>,
                  live: set<Vertex>, g: int, parent: set<int>)
    requires Known(graph, t, memo, modules, indexToOrder, live)
    requires g in memo && g in t.uses
    ensures Known(graph, Used(t, g, parent), MemoUsed(graph, memo, g), modules, indexToOrder, live)
    ensures memo[g].0.vertex in live && Represents(graph, memo[g].0, g)
  {
    hide Represents, RawPdag.WellBuilt;
  }

  /** What is known after a gate's function has been registered. */
  lemma KnownFinished(graph: Pdag, t: Traversal, memo: Memo, modules: map<int, Function>, indexToOrder: map<int, int>,
                      live: set<Vertex>, g: int, result: Function, after: Traversal)
    requires Known(graph, t, memo, modules, indexToOrder, live)
    requires g in graph.gates && result.vertex in live && Represents(graph, result, g)
    requires forall v <- graph.gates[g].variables :: Abs(v) in indexToOrder
    requires after.complete == t.complete + {g}
    ensures Known(graph, after, MemoFinished(graph, memo, g, result),
                  if graph.gates[g].isModule then modules[g := result] else modules, indexToOrder, live)
  {
    hide Represents, RawPdag.WellBuilt;
  }

  class Converter {
    const bdd: Bdd
    const graph: Pdag
    var gates: Memo
    ghost var t: Traversal

    ghost predicate Valid()
      reads this, bdd, bdd.uniqueTable, bdd.andTable, bdd.orTable
    {
      && bdd.layout == graph.layout
      && bdd.Valid()
      && Tracked(graph, t, gates)
      && Known(graph, t, gates, bdd.modules, bdd.indexToOrder, bdd.live)
    }

    constructor (bdd: Bdd, graph: Pdag)
      requires bdd.layout == graph.layout && bdd.Valid()
      requires bdd.modules == map[] && bdd.indexToOrder == map[]
      ensures Valid() && this.bdd == bdd && this.graph == graph && gates == map[]
      ensures t == Traversal(map g | g in graph.gates :: {}, {}, {}, [])
    {
      this.bdd, this.graph, gates := bdd, graph, map[];
      t := Traversal(map g | g in graph.gates :: {}, {}, {}, []);
    }

    /** The function of one variable argument. */
    method ConvertVariable(g: int, v: int) returns (f: Function)
      requires Valid() && g in graph.gates && v in graph.gates[g].variables
      modifies bdd`live, bdd`born, bdd`functionId, bdd`indexToOrder, bdd.uniqueTable
      ensures Valid() && old(bdd.live) <= bdd.live && f.vertex in bdd.live
      ensures RepresentsArg(graph, g, f, VariableArg(v))
      ensures old(bdd.indexToOrder.Keys) + {Abs(v) as int} <= bdd.indexToOrder.Keys
    {
      hide Bdd.Valid, Tracked;
      assert graph.VariablesPlaced(g);
      bdd.TerminalIsLive();
      var order := graph.layout[Abs(v)].order;
      var vertex := bdd.FindOrAddVertex(Abs(v), order, false, false, One, One, true);
      bdd.indexToOrder := bdd.indexToOrder[Abs(v) := order];
      f := Function(v < 0, vertex);
      forall a: Assignment
        ensures EvalF(f, graph.Proxied(a)) == ((Abs(v) in a) == (v >= 0))
      {
        SingleVertex(vertex, graph.Proxied(a));
      }
    }

    /** The functions of the variable arguments. */
    method ConvertVariables(g: int) returns (args: seq<Function>)
      requires Valid() && g in graph.gates
      modifies bdd`live, bdd`born, bdd`functionId, bdd`indexToOrder, bdd.uniqueTable
      ensures Valid() && old(bdd.live) <= bdd.live
      ensures |args| == |graph.gates[g].variables| && Ready(graph, g, args, bdd.live)
      ensures old(bdd.indexToOrder.Keys) <= bdd.indexToOrder.Keys
      ensures forall v <- graph.gates[g].variables :: Abs(v) in bdd.indexToOrder
    {
      hide Valid, RepresentsArg, RawPdag.WellBuilt, Ready, Args;
      var gate := graph.gates[g];
      args := [];
      ReadyNone(graph, g, bdd.live);
      ArgsOf(gate);
      for i := 0 to |gate.variables|
        invariant Valid() && old(bdd.live) <= bdd.live
        invariant |args| == i && Ready(graph, g, args, bdd.live)
        invariant old(bdd.indexToOrder.Keys) <= bdd.indexToOrder.Keys
        invariant forall j | 0 <= j < i :: Abs(gate.variables[j]) in bdd.indexToOrder
      {
        ghost var before := bdd.live;
        var f := ConvertVariable(g, gate.variables[i]);
        ReadyInScope(graph, g, args, before);
        ReadyAppend(graph, g, args, before, f, bdd.live);
        args := args + [f];
      }
    }

    /** Applies the connective to all arguments, those with later roots first. */
    method FoldArguments(op: Connective, unsorted: seq<Function>, pinned: set<Vertex>, ghost owner: int)
        returns (result: Function)
      requires bdd.Valid() && |unsorted| > 0
      requires VerticesOf(unsorted) <= pinned <= bdd.live && InScope(bdd.layout, owner, unsorted)
      modifies bdd`live, bdd`born, bdd`functionId, bdd.uniqueTable, bdd.andTable, bdd.orTable
      ensures bdd.Valid() && pinned + {result.vertex} <= bdd.live
      ensures Below(bdd.layout, 0, owner, result.vertex)
      ensures forall a: Assignment :: EvalF(result, a) == Combined(op, unsorted, a)
    {
      var args := Sorted(unsorted);
      SortedMembers(unsorted);
      assert forall f <- args :: f.vertex in VerticesOf(unsorted);
      assert InScope(bdd.layout, owner, args);
      hide Bdd.Valid, SameScope, Below;
      result := args[0];
      bdd.TerminalIsLive();
      for i := 1 to |args|
        invariant bdd.Valid() && pinned + {One, result.vertex} <= bdd.live
        invariant Below(bdd.layout, 0, owner, result.vertex)
        invariant forall a: Assignment :: EvalF(result, a) == Combined(op, args[..i], a)
      {
        ghost var before := result;
        SameScopeOf(bdd.layout, owner, result.vertex, args[i].vertex);
        result := bdd.Apply(op, result.vertex, args[i].vertex, result.complement, args[i].complement,
                            pinned + {One, result.vertex, args[i].vertex});
        forall a: Assignment
          ensures EvalF(result, a) == Combined(op, args[..i + 1], a)
        {
          CombinedPrefix(op, args, i, a);
        }
      }
      forall a: Assignment
        ensures EvalF(result, a) == Combined(op, unsorted, a)
      {
        assert args[..|args|] == args;
        hide Sorted;
      }
    }

    /** Takes the function of a converted gate from the memo and counts the use. */
    method Recall(g: int, ghost parent: set<int>) returns (result: Function)
      requires Valid() && Reached(graph, t, g, parent) && g in gates
      modifies `gates, `t
      ensures Valid() && result.vertex in bdd.live
      ensures Represents(graph, result, g) && g in t.complete
      ensures graph.gates[g].isModule ==> g in bdd.modules
      ensures UseAdded(graph, old(t), t, g, parent)
    {
      hide Bdd.Valid, RawPdag.WellBuilt, Represents, RawPdag.Parents, Tracked, Known, UseAdded, MemoUsed;
      RecallFacts(g, parent);
      result := gates[g].0;
      gates, t := MemoUsed(graph, gates, g), Used(t, g, parent);
    }

    lemma RecallFacts(g: int, parent: set<int>)
      requires Valid() && Reached(graph, t, g, parent) && g in gates
      ensures g in t.uses && g in t.complete
      ensures Tracked(graph, Used(t, g, parent), MemoUsed(graph, gates, g))
      ensures Known(graph, Used(t, g, parent), MemoUsed(graph, gates, g), bdd.modules, bdd.indexToOrder, bdd.live)
      ensures gates[g].0.vertex in bdd.live && Represents(graph, gates[g].0, g)
      ensures graph.gates[g].isModule ==> g in bdd.modules
      ensures UseAdded(graph, t, Used(t, g, parent), g, parent)
    {
      hide Bdd.Valid, RawPdag.Parents, RawPdag.WellBuilt, Represents;
      assert MemoCount(graph, t.uses[g], gates, g);
      Reuse(graph, t, gates, g, parent);
      KnownUsed(graph, t, gates, bdd.modules, bdd.indexToOrder, bdd.live, g, parent);
    }

    /** Starts the conversion of a gate that is not in the memo. */
    ghost method Begin(g: int, parent: set<int>)
      requires Valid() && Reached(graph, t, g, parent) && g !in gates
      modifies `t
      ensures Valid() && t == Begun(old(t), g)
      ensures g !in t.complete && t.uses.Keys == graph.gates.Keys && UsedBy(graph, t, g, 0)
    {
      hide Bdd.Valid, RawPdag.WellBuilt, Represents, RawPdag.Parents;
      Enter(graph, t, gates, g, parent);
      t := Begun(t, g);
    }

    /** The function of a gate from the functions of its arguments. */
    method Combination(g: int, args: seq<Function>, pinned: set<Vertex>) returns (result: Function)
      requires Valid() && g in graph.gates && pinned <= bdd.live
      requires |args| == |Args(graph.gates[g])| && Ready(graph, g, args, bdd.live)
      modifies bdd`live, bdd`born, bdd`functionId, bdd.uniqueTable, bdd.andTable, bdd.orTable
      ensures Valid() && pinned + {result.vertex} <= bdd.live
      ensures Represents(graph, result, g)
    {
      hide Bdd.Valid, RawPdag.WellBuilt, Tracked, Known, Ready, InScope, Represents;
      var memoised := set h | h in gates :: gates[h].0.vertex;
      MemoIsLive();
      NonEmpty(graph, g);
      ReadyInScope(graph, g, args, bdd.live);
      ghost var before := bdd.live;
      result := FoldArguments(graph.gates[g].op, args, pinned + VerticesOf(args) + memoised, graph.scope[g]);
      CombinationRepresents(graph, g, args, before, result);
      bdd.Forget(pinned + {result.vertex} + memoised);
      KnownSurvives(graph, t, gates, bdd.modules, bdd.indexToOrder, before, bdd.live);
    }

    lemma MemoIsLive()
      requires Valid()
      ensures forall h <- gates :: gates[h].0.vertex in bdd.live
    {
      hide Bdd.Valid, RawPdag.WellBuilt, Tracked, Represents;
    }

    /** Registers the function of a converted gate. */
    method Finish(g: int, ghost parent: set<int>, result: Function)
      requires Valid() && g in t.active && result.vertex in bdd.live && Represents(graph, result, g)
      requires UsedBy(graph, t, g, |graph.gates[g].gates|)
      requires forall v <- graph.gates[g].variables :: Abs(v) in bdd.indexToOrder
      requires if g == graph.root then parent == graph.Parents(g) == {}
               else exists h :: parent == {h} && h in t.active && h in graph.Parents(g)
      modifies `gates, `t, bdd`modules
      ensures Valid() && g in t.complete && t == Finished(old(t), g, parent)
      ensures graph.gates[g].isModule ==> g in bdd.modules
    {
      hide Bdd.Valid, RawPdag.WellBuilt, RawPdag.Parents, UsedBy, Tracked, Known, MemoFinished, Represents;
      FinishFacts(g, parent, result);
      if graph.gates[g].isModule {
        bdd.AddModule(g, result);
      }
      gates, t := MemoFinished(graph, gates, g, result), Finished(t, g, parent);
    }

    lemma FinishFacts(g: int, parent: set<int>, result: Function)
      requires Valid() && g in t.active && result.vertex in bdd.live && Represents(graph, result, g)
      requires UsedBy(graph, t, g, |graph.gates[g].gates|)
      requires forall v <- graph.gates[g].variables :: Abs(v) in bdd.indexToOrder
      requires if g == graph.root then parent == graph.Parents(g) == {}
               else exists h :: parent == {h} && h in t.active && h in graph.Parents(g)
      ensures g in t.uses && Tracked(graph, Finished(t, g, parent), MemoFinished(graph, gates, g, result))
      ensures Known(graph, Finished(t, g, parent), MemoFinished(graph, gates, g, result),
                    if graph.gates[g].isModule then bdd.modules[g := result] else bdd.modules, bdd.indexToOrder, bdd.live)
      ensures g !in bdd.modules && g in graph.gates
      ensures graph.gates[g].isModule ==>
                g in graph.layout && graph.layout[g].isModule && Below(graph.layout, 0, g, result.vertex)
    {
      assert graph.gates[g].isModule ==> g in graph.layout && graph.layout[g].isModule && graph.scope[g] == g;
      AllUsed(graph, t, g);
      LeaveNow(g, parent, result);
      KnownFinished(graph, t, gates, bdd.modules, bdd.indexToOrder, bdd.live, g, result, Finished(t, g, parent));
    }

    lemma LeaveNow(g: int, parent: set<int>, result: Function)
      requires Valid() && g in t.active
      requires forall c <- graph.gates :: g in graph.Parents(c) ==> g in t.uses[c]
      requires if g == graph.root then parent == graph.Parents(g) == {}
               else exists h :: parent == {h} && h in t.active && h in graph.Parents(g)
      ensures g in t.uses && Tracked(graph, Finished(t, g, parent), MemoFinished(graph, gates, g, result))
    {
      assert MemoCount(graph, t.uses[g], gates, g);
      hide Bdd.Valid, RawPdag.WellBuilt, RawPdag.Parents, Known;
      Leave(graph, t, gates, g, parent, result);
    }

    /** The functions of the gate arguments, appended to those of the variable arguments. A
        module argument is represented by a proxy vertex. */
    method ConvertArguments(g: int, first: seq<Function>, pinned: set<Vertex>) returns (args: seq<Function>)
      requires Valid() && g in t.active && g in graph.gates && t.uses.Keys == graph.gates.Keys && UsedBy(graph, t, g, 0)
      requires forall x <- t.active :: graph.rank[g] <= graph.rank[x]
      requires |first| == |graph.gates[g].variables| && Ready(graph, g, first, bdd.live)
      requires pinned <= bdd.live
      modifies `gates, `t, bdd`live, bdd`born, bdd`functionId, bdd`indexToOrder, bdd`modules,
               bdd.uniqueTable, bdd.andTable, bdd.orTable
      ensures Valid() && pinned <= bdd.live && old(bdd.indexToOrder.Keys) <= bdd.indexToOrder.Keys
      ensures |args| == |Args(graph.gates[g])| && Ready(graph, g, args, bdd.live)
      ensures t.uses.Keys == graph.gates.Keys && UsedBy(graph, t, g, |graph.gates[g].gates|)
      ensures t.active == old(t.active)
      ensures forall c, x | c in graph.gates && x in t.active && x != g :: x in t.uses[c] <==> x in old(t.uses[c])
      decreases graph.rank[g], 1
    {
      hide Valid, Ready, RawPdag.WellBuilt, RawPdag.Parents, UsedBy;
      ArgsOf(graph.gates[g]);
      args := first;
      for i := 0 to |graph.gates[g].gates|
        invariant Valid() && pinned <= bdd.live && old(bdd.indexToOrder.Keys) <= bdd.indexToOrder.Keys
        invariant |args| == |graph.gates[g].variables| + i && Ready(graph, g, args, bdd.live)
        invariant t.uses.Keys == graph.gates.Keys && UsedBy(graph, t, g, i) && t.active == old(t.active)
        invariant forall c, x | c in graph.gates && x in t.active && x != g :: x in t.uses[c] <==> x in old(t.uses[c])
      {
        args := ConvertArgument(g, i, args, pinned);
      }
    }

    method ConvertArgument(g: int, i: nat, args: seq<Function>, pinned: set<Vertex>) returns (more: seq<Function>)
      requires Valid() && g in t.active && g in graph.gates && i < |graph.gates[g].gates|
      requires t.uses.Keys == graph.gates.Keys && UsedBy(graph, t, g, i)
      requires forall x <- t.active :: graph.rank[g] <= graph.rank[x]
      requires |args| == |graph.gates[g].variables| + i && Ready(graph, g, args, bdd.live)
      requires pinned <= bdd.live
      modifies `gates, `t, bdd`live, bdd`born, bdd`functionId, bdd`indexToOrder, bdd`modules,
               bdd.uniqueTable, bdd.andTable, bdd.orTable
      ensures Valid() && pinned <= bdd.live && old(bdd.indexToOrder.Keys) <= bdd.indexToOrder.Keys
      ensures |more| == |args| + 1 && Ready(graph, g, more, bdd.live)
      ensures t.uses.Keys == graph.gates.Keys && UsedBy(graph, t, g, i + 1)
      ensures t.active == old(t.active)
      ensures forall c, x | c in graph.gates && x in t.active && x != g :: x in t.uses[c] <==> x in old(t.uses[c])
      decreases graph.rank[g], 0
    {
      hide Valid, Ready, Represents, RepresentsArg, RawPdag.WellBuilt, RawPdag.Parents, UsedBy, Reached, Args;
      var index := graph.gates[g].gates[i];
      var h := Abs(index);
      ArgumentFacts(g, i);
      ArgsOf(graph.gates[g]);
      ReadyInScope(graph, g, args, bdd.live);
      ghost var before := t;
      ghost var liveBefore := bdd.live;
      var res := ConvertGraph(h, {g}, pinned + VerticesOf(args));
      UsedByNext(graph, before, t, g, i);
      var f := Function((index < 0) != res.complement, res.vertex);
      if graph.gates[h].isModule {
        f := Proxy(h, index);
      }
      GateArgument(graph, g, i, res, f);
      ReadyAppend(graph, g, args, liveBefore, f, bdd.live);
      more := args + [f];
    }

    lemma ArgumentFacts(g: int, i: nat)
      requires Valid() && g in t.active && g in graph.gates && i < |graph.gates[g].gates|
      requires t.uses.Keys == graph.gates.Keys && UsedBy(graph, t, g, i)
      requires forall x <- t.active :: graph.rank[g] <= graph.rank[x]
      ensures var h := Abs(graph.gates[g].gates[i]);
              && h in graph.gates && g in graph.rank && graph.rank[h] < graph.rank[g]
              && Reached(graph, t, h, {g})
    {
      hide Bdd.Valid, Known, RawPdag.Parents;
      ReachArgument(graph, t, g, i);
    }

    /** The proxy vertex of a converted module. */
    method Proxy(h: int, index: int) returns (f: Function)
      requires Valid() && h in graph.gates && graph.gates[h].isModule && h in bdd.modules
      modifies bdd`live, bdd`born, bdd`functionId, bdd.uniqueTable
      ensures Valid() && old(bdd.live) <= bdd.live && f.vertex in bdd.live
      ensures h in graph.layout
      ensures f == Function(index < 0, Ite(f.vertex.Id(), h, graph.layout[h].order, true, graph.layout[h].coherent, One, One, true))
    {
      assert h in graph.layout && graph.layout[h].isModule;
      bdd.TerminalIsLive();
      hide Bdd.Valid, RawPdag.WellBuilt, Tracked, Known;
      ghost var before := bdd.live;
      var item := graph.layout[h];
      var proxy := bdd.FindOrAddVertex(h, item.order, true, item.coherent, One, One, true);
      KnownSurvives(graph, t, gates, bdd.modules, bdd.indexToOrder, before, bdd.live);
      f := Function(index < 0, proxy);
    }

    /** Converts a gate that is reached from `parent`. */
    method ConvertGraph(g: int, ghost parent: set<int>, pinned: set<Vertex>) returns (result: Function)
      requires Valid() && Reached(graph, t, g, parent) && pinned <= bdd.live
      requires forall x <- t.active :: graph.rank[g] < graph.rank[x]
      modifies `gates, `t, bdd`live, bdd`born, bdd`functionId, bdd`indexToOrder, bdd`modules,
               bdd.uniqueTable, bdd.andTable, bdd.orTable
      ensures Valid() && pinned + {result.vertex} <= bdd.live
      ensures old(bdd.indexToOrder.Keys) <= bdd.indexToOrder.Keys
      ensures Represents(graph, result, g) && g in t.complete
      ensures graph.gates[g].isModule ==> g in bdd.modules
      ensures UseAdded(graph, old(t), t, g, parent)
      decreases graph.rank[g], 2
    {
      hide Valid, Represents, Ready, UsedBy, RawPdag.WellBuilt, RawPdag.Parents;
      if g in gates {
        result := Recall(g, parent);
        return;
      }
      ghost var before := t;
      Begin(g, parent);
      var args := ConvertVariables(g);
      args := ConvertArguments(g, args, pinned);
      UseAddedByConversion(graph, before, t, g, parent);
      result := Combination(g, args, pinned);
      Finish(g, parent, result);
    }
  }
}
