/** The walk over an event tree, one instruction at a time: every route to a sequence, and what
    is collected along it. */
module Routes {
  import opened Options
  import opened Cycles
  import opened EventTrees
  import opened Walks

  datatype Goal = Toward(target: Target) | InSequence(sequence: int)

  /** A point of a route: the tree, the instructions that come next and what comes after them,
      the states of functional events, the instructions that have been done, whether a link has
      been passed, and the choices so far. */
  datatype Point = Point(tree: int, rest: seq<Instruction>, goal: Goal, context: Context, done: seq<Instruction>, linked: bool, choices: seq<nat>)

  ghost predicate Steps(model: Model, holds: Condition, p: Point, q: Point) {
    if p.rest != [] then InstructionStep(model, holds, p, p.rest[0], p.rest[1..], q)
    else p.goal.Toward? && p.tree in model.trees && TargetStep(model, p, p.goal.target, q)
  }

  /** At a link, the route either enters the linked tree or passes on. */
  ghost predicate InstructionStep(model: Model, holds: Condition, p: Point, i: Instruction, tail: seq<Instruction>, q: Point) {
    match i
    case SetHouseEvent(_, _) => q == p.(rest := tail, done := p.done + [i])
    case CollectExpression(_) => q == p.(rest := tail, done := p.done + [i])
    case CollectFormula(_) => q == p.(rest := tail, done := p.done + [i])
    case Block(instructions) => q == p.(rest := instructions + tail)
    case IfThenElse(condition, positive, negative) =>
      q == p.(rest := if holds(condition, p.context) then [positive] + tail
                      else if negative.Some? then [negative.value] + tail
                      else tail)
    case Link(l) =>
      || (l in model.links && model.links[l] in model.trees && q == Entered(model, p, l))
      || q == Passed(p, tail)
  }

  /** A linked tree is walked from its initial state, without functional events. */
  function Entered(model: Model, p: Point, l: int): Point
    requires l in model.links && model.links[l] in model.trees
  {
    var b := model.trees[model.links[l]].initial;
    Point(model.links[l], b.instructions, Toward(b.target), map[], p.done, false, p.choices + [0])
  }

  function Passed(p: Point, tail: seq<Instruction>): Point {
    p.(rest := tail, linked := true, choices := p.choices + [1])
  }

  /** At a fork, the route takes one of the paths. */
  ghost predicate TargetStep(model: Model, p: Point, target: Target, q: Point)
    requires p.tree in model.trees
  {
    var t := model.trees[p.tree];
    match target
    case Sequence(id) => id in t.sequences && q == p.(rest := t.sequences[id], goal := InSequence(id), linked := false)
    case NamedBranch(n) =>
      n in t.branches && q == p.(rest := t.branches[n].instructions, goal := Toward(t.branches[n].target), linked := false)
    case Fork(event, paths) => exists k | 0 <= k < |paths| :: q == Taken(p, event, paths, k)
  }

  function Taken(p: Point, event: string, paths: seq<Path>, k: nat): Point
    requires k < |paths|
  {
    var b := paths[k].branch;
    p.(rest := b.instructions, goal := Toward(b.target), linked := false,
    context := p.context[event := paths[k].state], choices := p.choices + [k])
  }

  /** A sequence ends a route if none of its instructions was a link. */
  predicate Ends(p: Point) {
    p.rest == [] && p.goal.InSequence? && !p.linked
  }

  ghost predicate IsRoute(model: Model, holds: Condition, route: seq<Point>) {
    route != [] && forall i | 0 < i < |route| :: Steps(model, holds, route[i - 1], route[i])
  }

  ghost predicate Leads(model: Model, holds: Condition, p: Point, q: Point) {
    exists route: seq<Point> :: IsRoute(model, holds, route) && route[0] == p && route[|route| - 1] == q
  }

  // What is collected along a route.

  predicate SetsEvent(i: Instruction, name: string) {
    i.SetHouseEvent? && i.name == name
  }

  /** Every house event that has been set has its last state, and no other ones are set. */
  ghost predicate LastStates(done: seq<Instruction>, settings: map<string, bool>) {
    forall name: string ::
      if name in settings
      then exists i | 0 <= i < |done| ::
             done[i] == SetHouseEvent(name, settings[name]) && forall j | i < j < |done| :: !SetsEvent(done[j], name)
      else forall j | 0 <= j < |done| :: !SetsEvent(done[j], name)
  }

  ghost predicate Increasing(positions: seq<nat>, size: nat) {
    && (forall k | 0 <= k < |positions| :: positions[k] < size)
    && forall k, l | 0 <= k < l < |positions| :: positions[k] < positions[l]
  }

  /** The expressions are those of the collect instructions, in order. */
  ghost predicate CollectsExpressions(expressions: seq<int>, done: seq<Instruction>, positions: seq<nat>) {
    && Increasing(positions, |done|) && |expressions| == |positions|
    && (forall i | 0 <= i < |done| :: done[i].CollectExpression? <==> i in positions)
    && forall k | 0 <= k < |positions| :: done[positions[k]] == CollectExpression(expressions[k])
  }

  /** So are the formulas, each with the states that had been set before it. */
  ghost predicate CollectsFormulas(formulas: seq<Cloned>, done: seq<Instruction>, positions: seq<nat>) {
    && Increasing(positions, |done|) && |formulas| == |positions|
    && (forall i | 0 <= i < |done| :: done[i].CollectFormula? <==> i in positions)
    && forall k | 0 <= k < |positions| ::
         done[positions[k]] == CollectFormula(formulas[k].formula) && LastStates(done[..positions[k]], formulas[k].settings)
  }

  ghost predicate Collects(c: PathCollector, done: seq<Instruction>) {
    && (exists positions: seq<nat> :: CollectsExpressions(c.expressions, done, positions))
    && (exists positions: seq<nat> :: CollectsFormulas(c.formulas, done, positions))
    && LastStates(done, c.settings)
  }

  /** A found path records the end of a route. */
  ghost predicate Records(f: Found, q: Point) {
    q.goal.InSequence? && f.tree == q.tree && f.sequence == q.goal.sequence && Collects(f.collector, q.done)
  }

  /** The first choice that differs is the lesser one. */
  ghost predicate Earlier(a: seq<nat>, b: seq<nat>) {
    exists k | 0 <= k < |a| && k < |b| :: a[..k] == b[..k] && a[k] < b[k]
  }

  ghost predicate EndsAt(model: Model, holds: Condition, p: Point, q: Point, choices: seq<nat>, f: Found) {
    Leads(model, holds, p, q) && Ends(q) && q.choices == choices && Records(f, q)
  }

  /** A found path records the end of a route with these choices. */
  ghost predicate IsFound(model: Model, holds: Condition, p: Point, choices: seq<nat>, f: Found) {
    exists q :: EndsAt(model, holds, p, q, choices, f)
  }

  /** The end of a route is recorded in some found path. */
  ghost predicate IsListed(model: Model, holds: Condition, p: Point, q: Point, found: seq<Found>, choices: seq<seq<nat>>)
    requires |choices| == |found|
  {
    exists i | 0 <= i < |choices| :: EndsAt(model, holds, p, q, choices[i], found[i])
  }

  ghost predicate InOrder(choices: seq<seq<nat>>) {
    forall i, j | 0 <= i < j < |choices| :: Earlier(choices[i], choices[j])
  }

  /** The found paths are the routes from a point to sequences, one for each list of choices, in
      their order. */
  ghost predicate Lists(model: Model, holds: Condition, p: Point, found: seq<Found>, choices: seq<seq<nat>>) {
    && |choices| == |found| && InOrder(choices)
    && (forall i | 0 <= i < |choices| :: p.choices <= choices[i] && IsFound(model, holds, p, choices[i], found[i]))
    && forall q | Leads(model, holds, p, q) && Ends(q) :: IsListed(model, holds, p, q, found, choices)
  }

  // Routes, step by step.

  lemma LeadsSelf(model: Model, holds: Condition, p: Point)
    ensures Leads(model, holds, p, p)
  {
    assert IsRoute(model, holds, [p]) && [p][0] == p;
  }

  lemma LeadsNext(model: Model, holds: Condition, p: Point, q: Point, r: Point)
    requires Steps(model, holds, p, q) && Leads(model, holds, q, r)
    ensures Leads(model, holds, p, r)
  {
    hide Steps;
    var route: seq<Point> :| IsRoute(model, holds, route) && route[0] == q && route[|route| - 1] == r;
    var longer := [p] + route;
    forall i | 0 < i < |longer|
      ensures Steps(model, holds, longer[i - 1], longer[i])
    {
      assert i > 1 ==> Steps(model, holds, route[i - 2], route[i - 1]);
    }
    assert IsRoute(model, holds, longer) && longer[0] == p && longer[|longer| - 1] == r;
  }

  /** A route to another point begins with a step. */
  lemma LeadsFirst(model: Model, holds: Condition, p: Point, r: Point) returns (q: Point)
    requires Leads(model, holds, p, r) && p != r
    ensures Steps(model, holds, p, q) && Leads(model, holds, q, r)
  {
    hide Steps;
    var route: seq<Point> :| IsRoute(model, holds, route) && route[0] == p && route[|route| - 1] == r;
    q := route[1];
    var shorter := route[1..];
    assert Steps(model, holds, route[0], route[1]);
    assert IsRoute(model, holds, shorter) && shorter[0] == q && shorter[|shorter| - 1] == r;
  }

  lemma EndsNext(model: Model, holds: Condition, p: Point, q: Point, r: Point, choices: seq<nat>, f: Found)
    requires Steps(model, holds, p, q) && EndsAt(model, holds, q, r, choices, f)
    ensures EndsAt(model, holds, p, r, choices, f)
  {
    hide Steps, Leads, Records, Ends;
    LeadsNext(model, holds, p, q, r);
  }

  lemma FoundNext(model: Model, holds: Condition, p: Point, q: Point, choices: seq<nat>, f: Found)
    requires Steps(model, holds, p, q) && IsFound(model, holds, q, choices, f)
    ensures IsFound(model, holds, p, choices, f)
  {
    hide Steps, EndsAt;
    var r :| EndsAt(model, holds, q, r, choices, f);
    EndsNext(model, holds, p, q, r, choices, f);
  }

  lemma ListedNext(model: Model, holds: Condition, p: Point, q: Point, r: Point, found: seq<Found>, choices: seq<seq<nat>>)
    requires |choices| == |found| && Steps(model, holds, p, q) && IsListed(model, holds, q, r, found, choices)
    ensures IsListed(model, holds, p, r, found, choices)
  {
    hide Steps, EndsAt;
    var i :| 0 <= i < |choices| && EndsAt(model, holds, q, r, choices[i], found[i]);
    EndsNext(model, holds, p, q, r, choices[i], found[i]);
  }

  lemma ListedMore(model: Model, holds: Condition, p: Point, q: Point, found: seq<Found>, choices: seq<seq<nat>>, more: seq<Found>, next: seq<seq<nat>>)
    requires |choices| == |found| && |next| == |more|
    requires IsListed(model, holds, p, q, found, choices) || IsListed(model, holds, p, q, more, next)
    ensures IsListed(model, holds, p, q, found + more, choices + next)
  {
    hide EndsAt;
    var all, both := choices + next, found + more;
    if i :| 0 <= i < |choices| && EndsAt(model, holds, p, q, choices[i], found[i]) {
      assert EndsAt(model, holds, p, q, all[i], both[i]);
    } else {
      var i :| 0 <= i < |next| && EndsAt(model, holds, p, q, next[i], more[i]);
      assert EndsAt(model, holds, p, q, all[|choices| + i], both[|choices| + i]);
    }
  }

  lemma EndLists(model: Model, holds: Condition, p: Point, f: Found)
    requires Ends(p) && Records(f, p)
    ensures Lists(model, holds, p, [f], [p.choices])
  {
    hide Records, Collects;
    LeadsSelf(model, holds, p);
    assert EndsAt(model, holds, p, p, [p.choices][0], [f][0]);
    forall q | Leads(model, holds, p, q) && Ends(q)
      ensures IsListed(model, holds, p, q, [f], [p.choices])
    {
      OnlySelf(model, holds, p, q);
    }
  }

  lemma OnlySelf(model: Model, holds: Condition, p: Point, q: Point)
    requires Leads(model, holds, p, q) && forall r :: !Steps(model, holds, p, r)
    ensures q == p
  {
    if q != p {
      var first := LeadsFirst(model, holds, p, q);
    }
  }

  /** A route that stops before the end. */
  lemma StopLists(model: Model, holds: Condition, p: Point)
    requires !Ends(p) && forall r :: !Steps(model, holds, p, r)
    ensures Lists(model, holds, p, [], [])
  {
    forall q | Leads(model, holds, p, q)
      ensures !Ends(q)
    {
      OnlySelf(model, holds, p, q);
    }
  }

  /** A single way on. */
  lemma StepLists(model: Model, holds: Condition, p: Point, q: Point, found: seq<Found>, choices: seq<seq<nat>>)
    requires !Ends(p) && Steps(model, holds, p, q) && (forall r :: Steps(model, holds, p, r) ==> r == q)
    requires q.choices == p.choices && Lists(model, holds, q, found, choices)
    ensures Lists(model, holds, p, found, choices)
  {
    hide Steps, Leads, Ends, IsFound, IsListed;
    forall i | 0 <= i < |choices|
      ensures IsFound(model, holds, p, choices[i], found[i])
    {
      FoundNext(model, holds, p, q, choices[i], found[i]);
    }
    forall r | Leads(model, holds, p, r) && Ends(r)
      ensures IsListed(model, holds, p, r, found, choices)
    {
      var first := LeadsFirst(model, holds, p, r);
      ListedNext(model, holds, p, q, r, found, choices);
    }
  }

  /** The routes over the first ways on, which differ in the next choice. */
  ghost predicate ListsFirst(model: Model, holds: Condition, p: Point, ways: seq<Point>, m: nat, found: seq<Found>, choices: seq<seq<nat>>)
    requires m <= |ways|
  {
    && |choices| == |found| && InOrder(choices)
    && (forall i | 0 <= i < |choices| :: Chooses(p, choices[i], m) && IsFound(model, holds, p, choices[i], found[i]))
    && forall k, q | 0 <= k < m && Leads(model, holds, ways[k], q) && Ends(q) :: IsListed(model, holds, p, q, found, choices)
  }

  /** The next choice is less than the limit. */
  ghost predicate Chooses(p: Point, choices: seq<nat>, limit: nat) {
    |choices| > |p.choices| && p.choices == choices[..|p.choices|] && choices[|p.choices|] < limit
  }

  lemma NoWay(model: Model, holds: Condition, p: Point, ways: seq<Point>)
    ensures ListsFirst(model, holds, p, ways, 0, [], [])
  {
  }

  lemma ChoosesNext(p: Point, m: nat, choices: seq<nat>)
    requires p.choices + [m] <= choices
    ensures Chooses(p, choices, m + 1) && choices[|p.choices|] == m
  {
    var n := |p.choices|;
    assert choices[..n + 1] == p.choices + [m];
    assert choices[..n] == choices[..n + 1][..n];
    assert choices[n] == choices[..n + 1][n];
  }

  lemma EarlierChoice(p: Point, a: seq<nat>, b: seq<nat>, m: nat)
    requires Chooses(p, a, m) && Chooses(p, b, m + 1) && b[|p.choices|] == m
    ensures Earlier(a, b)
  {
    var k := |p.choices|;
    assert a[..k] == b[..k] && a[k] < b[k];
  }

  lemma OrderNext(p: Point, m: nat, choices: seq<seq<nat>>, next: seq<seq<nat>>)
    requires InOrder(choices) && InOrder(next) && forall i | 0 <= i < |choices| :: Chooses(p, choices[i], m)
    requires forall i | 0 <= i < |next| :: p.choices + [m] <= next[i]
    ensures InOrder(choices + next)
    ensures forall i | 0 <= i < |next| :: Chooses(p, next[i], m + 1)
  {
    hide Earlier, Chooses;
    var all := choices + next;
    forall i | 0 <= i < |next|
      ensures Chooses(p, next[i], m + 1)
    {
      ChoosesNext(p, m, next[i]);
    }
    forall i, j | 0 <= i < j < |all|
      ensures Earlier(all[i], all[j])
    {
      if i < |choices| <= j {
        ChoosesNext(p, m, all[j]);
        EarlierChoice(p, all[i], all[j], m);
      } else if i >= |choices| {
        assert Earlier(next[i - |choices|], next[j - |choices|]);
      }
    }
  }

  /** One more way on. */
  lemma WayNext(model: Model, holds: Condition, p: Point, ways: seq<Point>, m: nat,
                found: seq<Found>, choices: seq<seq<nat>>, more: seq<Found>, next: seq<seq<nat>>)
    requires m < |ways| && ListsFirst(model, holds, p, ways, m, found, choices)
    requires Steps(model, holds, p, ways[m]) && ways[m].choices == p.choices + [m] && Lists(model, holds, ways[m], more, next)
    ensures ListsFirst(model, holds, p, ways, m + 1, found + more, choices + next)
  {
    hide Steps, Leads, Ends, IsFound, IsListed, InOrder;
    var all, both := choices + next, found + more;
    OrderNext(p, m, choices, next);
    forall i | 0 <= i < |all|
      ensures Chooses(p, all[i], m + 1) && IsFound(model, holds, p, all[i], both[i])
    {
      if i >= |choices| {
        FoundNext(model, holds, p, ways[m], next[i - |choices|], more[i - |choices|]);
      }
    }
    forall k, q | 0 <= k < m + 1 && Leads(model, holds, ways[k], q) && Ends(q)
      ensures IsListed(model, holds, p, q, both, all)
    {
      if k == m {
        ListedNext(model, holds, p, ways[m], q, more, next);
      }
      ListedMore(model, holds, p, q, found, choices, more, next);
    }
  }

  lemma AllWays(model: Model, holds: Condition, p: Point, ways: seq<Point>, found: seq<Found>, choices: seq<seq<nat>>)
    requires !Ends(p) && (forall r :: Steps(model, holds, p, r) ==> r in ways)
    requires ListsFirst(model, holds, p, ways, |ways|, found, choices)
    ensures Lists(model, holds, p, found, choices)
  {
    hide Steps, Leads, Ends, IsFound, IsListed, InOrder;
    forall i | 0 <= i < |choices|
      ensures p.choices <= choices[i]
    {
      assert p.choices == choices[i][..|p.choices|];
    }
    forall q | Leads(model, holds, p, q) && Ends(q)
      ensures IsListed(model, holds, p, q, found, choices)
    {
      var first := LeadsFirst(model, holds, p, q);
      var k :| 0 <= k < |ways| && ways[k] == first;
      assert Leads(model, holds, ways[k], q);
    }
  }
}
