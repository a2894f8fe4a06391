/** The gates of a propositional graph and their links: the arguments of a gate, and the
    parents of a node. */
module Links {
  import opened Indices
  import opened Sets
  import opened Connectives

  type Gates = map<int, Gate>
  type Parents = map<int, set<int>>
  type Rank = map<int, nat>

  ghost predicate ArgumentsExist(gate: Gate, known: set<int>, variables: set<int>) {
    && (forall i <- gate.gateArgs :: Abs(i) in known)
    && (forall i <- gate.variableArgs :: Abs(i) in variables)
  }

  /** A gate is in the parent map of a node if and only if the node is its argument. */
  ghost predicate Linked(gates: Gates, parents: Parents, variables: set<int>, nodeIndex: int) {
    && parents.Keys == {1} + variables + gates.Keys
    && 1 !in gates && 1 !in variables && gates.Keys !! variables
    && (forall n <- parents :: 0 < n <= nodeIndex)
    && (forall g <- gates :: gates[g].Tidy() && ArgumentsExist(gates[g], gates.Keys, variables))
    && (forall n <- parents, g :: g in parents[n] <==> g in gates && Occurs(gates[g].args, n))
  }

  ghost predicate Acyclic(gates: Gates, rank: Rank) {
    forall g <- gates ::
      && g in rank
      && forall i <- gates[g].args :: Abs(i) in gates ==> Abs(i) in rank && rank[Abs(i)] < rank[g]
  }

  /** Every pass-through gate but the root is in the list of gates to be removed. */
  predicate Registered(gates: Gates, nullGates: seq<int>, root: int) {
    forall g <- gates :: gates[g].kind.Null? && g != root ==> g in nullGates
  }

  /** One gate gets other arguments, and its parent entries follow. */
  lemma Relink(gates: Gates, parents: Parents, variables: set<int>, nodeIndex: int, g: int, gate: Gate, parents': Parents)
    requires Linked(gates, parents, variables, nodeIndex) && g in gates
    requires gate.Tidy() && ArgumentsExist(gate, gates.Keys, variables)
    requires parents'.Keys == parents.Keys
    requires forall n <- parents :: parents'[n] == if Occurs(gate.args, n) then parents[n] + {g} else parents[n] - {g}
    ensures Linked(gates[g := gate], parents', variables, nodeIndex)
  {
    var gates' := gates[g := gate];
    assert gates'.Keys == gates.Keys;
    forall n <- parents', h
      ensures h in parents'[n] <==> h in gates' && Occurs(gates'[h].args, n)
    {
      assert h in parents[n] <==> h in gates && Occurs(gates[h].args, n);
    }
  }

  /** A new gate without arguments. */
  lemma LinkNew(gates: Gates, parents: Parents, variables: set<int>, nodeIndex: int, gate: Gate)
    requires Linked(gates, parents, variables, nodeIndex) && gate == gate.Bare() && nodeIndex >= 0
    ensures Linked(gates[nodeIndex + 1 := gate], parents[nodeIndex + 1 := {}], variables, nodeIndex + 1)
  {
    var next := nodeIndex + 1;
    var gates' := gates[next := gate];
    var parents' := parents[next := {}];
    assert next !in parents;
    forall n <- parents', h
      ensures h in parents'[n] <==> h in gates' && Occurs(gates'[h].args, n)
    {
      if n == next {
        if h in gates && Occurs(gates[h].args, n) {
          Existing(gates, parents, variables, nodeIndex, h, n);
        }
      } else {
        assert h in parents[n] <==> h in gates && Occurs(gates[h].args, n);
      }
    }
    forall h <- gates'
      ensures gates'[h].Tidy() && ArgumentsExist(gates'[h], gates'.Keys, variables)
    {
    }
  }

  lemma Existing(gates: Gates, parents: Parents, variables: set<int>, nodeIndex: int, g: int, n: int)
    requires Linked(gates, parents, variables, nodeIndex) && g in gates && Occurs(gates[g].args, n)
    ensures Abs(n) in parents && n != 0 && g in parents[Abs(n)]
  {
    var i := if n in gates[g].args then n else -n;
    assert i in gates[g].args && gates[g].Tidy();
    assert Abs(i) in parents;
    assert Occurs(gates[g].args, Abs(i));
  }

  /** The structure that every operation keeps. */
  ghost predicate Sound(gates: Gates, parents: Parents, variables: set<int>, nodeIndex: int, rank: Rank) {
    nodeIndex >= 0 && Linked(gates, parents, variables, nodeIndex) && Acyclic(gates, rank)
  }

  ghost predicate ArgumentsBelow(gate: Gate, gates: Gates, rank: Rank, level: nat) {
    forall i <- gate.args :: Abs(i) in gates ==> Abs(i) in rank && rank[Abs(i)] < level
  }

  lemma SoundRelink(gates: Gates, parents: Parents, variables: set<int>, nodeIndex: int, rank: Rank, g: int, gate: Gate, parents': Parents)
    requires Sound(gates, parents, variables, nodeIndex, rank) && g in gates && g in rank
    requires gate.Tidy() && ArgumentsExist(gate, gates.Keys, variables) && ArgumentsBelow(gate, gates, rank, rank[g])
    requires parents'.Keys == parents.Keys
    requires forall n <- parents :: parents'[n] == if Occurs(gate.args, n) then parents[n] + {g} else parents[n] - {g}
    ensures Sound(gates[g := gate], parents', variables, nodeIndex, rank)
  {
    Relink(gates, parents, variables, nodeIndex, g, gate, parents');
  }

  /** Changing only the type of a gate. */
  lemma SoundRetype(gates: Gates, parents: Parents, variables: set<int>, nodeIndex: int, rank: Rank, g: int, gate: Gate)
    requires Sound(gates, parents, variables, nodeIndex, rank) && g in gates
    requires gate == gates[g].(kind := gate.kind, minNumber := gate.minNumber) && (gate.constant ==> gate.kind.Null?)
    ensures Sound(gates[g := gate], parents, variables, nodeIndex, rank)
  {
    assert gates[g].Tidy();
    forall n <- parents
      ensures parents[n] == if Occurs(gate.args, n) then parents[n] + {g} else parents[n] - {g}
    {
      assert g in parents[n] <==> Occurs(gates[g].args, n);
    }
    SoundRelink(gates, parents, variables, nodeIndex, rank, g, gate, parents);
  }

  lemma SoundErase(gates: Gates, parents: Parents, variables: set<int>, nodeIndex: int, rank: Rank, g: int, index: int)
    requires Sound(gates, parents, variables, nodeIndex, rank) && g in gates && index in gates[g].args
    ensures Abs(index) in parents
    ensures Sound(gates[g := gates[g].Without(index)], parents[Abs(index) := parents[Abs(index)] - {g}], variables, nodeIndex, rank)
  {
    Existing(gates, parents, variables, nodeIndex, g, index);
    var gate := gates[g].Without(index);
    assert gates[g].Tidy() && gate.Tidy();
    var parents' := parents[Abs(index) := parents[Abs(index)] - {g}];
    forall n <- parents
      ensures parents'[n] == if Occurs(gate.args, n) then parents[n] + {g} else parents[n] - {g}
    {
      assert g in parents[n] <==> Occurs(gates[g].args, n);
    }
    SoundRelink(gates, parents, variables, nodeIndex, rank, g, gate, parents');
  }

  /** Adding an argument that the gate has in neither sign. */
  lemma SoundAdd(gates: Gates, parents: Parents, variables: set<int>, nodeIndex: int, rank: Rank, g: int, index: int)
    requires Sound(gates, parents, variables, nodeIndex, rank) && g in gates
    requires !gates[g].constant && index !in gates[g].args && -index !in gates[g].args
    requires index != 0 && Abs(index) in parents && Abs(index) != 1
    requires Abs(index) in gates ==> Abs(index) in rank && g in rank && rank[Abs(index)] < rank[g]
    ensures Abs(index) in gates || Abs(index) in variables
    ensures Sound(gates[g := gates[g].With(index, Abs(index) in gates)], parents[Abs(index) := parents[Abs(index)] + {g}],
                  variables, nodeIndex, rank)
  {
    var gate := gates[g].With(index, Abs(index) in gates);
    assert gates[g].Tidy() && gate.Tidy();
    var parents' := parents[Abs(index) := parents[Abs(index)] + {g}];
    forall n <- parents
      ensures parents'[n] == if Occurs(gate.args, n) then parents[n] + {g} else parents[n] - {g}
    {
      assert g in parents[n] <==> Occurs(gates[g].args, n);
    }
    SoundRelink(gates, parents, variables, nodeIndex, rank, g, gate, parents');
  }

  lemma SoundNew(gates: Gates, parents: Parents, variables: set<int>, nodeIndex: int, rank: Rank, gate: Gate, level: nat)
    requires Sound(gates, parents, variables, nodeIndex, rank) && gate == gate.Bare()
    ensures nodeIndex + 1 !in parents && nodeIndex + 1 !in gates
    ensures Sound(gates[nodeIndex + 1 := gate], parents[nodeIndex + 1 := {}], variables, nodeIndex + 1, rank[nodeIndex + 1 := level])
  {
    LinkNew(gates, parents, variables, nodeIndex, gate);
    RankNew(gates, parents, variables, nodeIndex, rank, gate, level);
  }

  lemma RankNew(gates: Gates, parents: Parents, variables: set<int>, nodeIndex: int, rank: Rank, gate: Gate, level: nat)
    requires Linked(gates, parents, variables, nodeIndex) && nodeIndex >= 0 && Acyclic(gates, rank) && gate.args == {}
    ensures Acyclic(gates[nodeIndex + 1 := gate], rank[nodeIndex + 1 := level])
  {
    forall g <- gates, i <- gates[g].args
      ensures Abs(i) != nodeIndex + 1 && g != nodeIndex + 1
    {
      Existing(gates, parents, variables, nodeIndex, g, i);
    }
  }

  /** The parent map after a gate has left the parents of some of its arguments. */
  ghost predicate Left(parents: Parents, parents': Parents, g: int, args: set<int>) {
    && parents'.Keys == parents.Keys
    && forall n <- parents :: parents'[n] == if n > 0 && Occurs(args, n) then parents[n] - {g} else parents[n]
  }

  /** The parent map after a gate has become a parent of its arguments. */
  ghost predicate Adopted(parents: Parents, parents': Parents, g: int, args: set<int>) {
    && parents'.Keys == parents.Keys
    && forall n <- parents :: parents'[n] == if n > 0 && Occurs(args, n) then parents[n] + {g} else parents[n]
  }

  lemma AdoptOne(before: Parents, parents: Parents, g: int, args: set<int>, i: int)
    requires Adopted(before, parents, g, args) && Abs(i) in parents && i != 0
    ensures Adopted(before, parents[Abs(i) := parents[Abs(i)] + {g}], g, args + {i})
  {
    var parents' := parents[Abs(i) := parents[Abs(i)] + {g}];
    forall n <- before
      ensures parents'[n] == if n > 0 && Occurs(args + {i}, n) then before[n] + {g} else before[n]
    {
      assert before[n] + {g} + {g} == before[n] + {g};
    }
  }

  lemma SoundClone(gates: Gates, parents: Parents, variables: set<int>, nodeIndex: int, rank: Rank, g: int, c: int, parents': Parents)
    requires Sound(gates, parents, variables, nodeIndex, rank) && g in gates && c in gates && g != c
    requires gates[c] == gates[c].Bare() && c in rank && ArgumentsBelow(gates[g], gates, rank, rank[c])
    requires Adopted(parents, parents', c, gates[g].args)
    requires !gates[g].constant
    ensures Sound(gates[c := gates[g]], parents', variables, nodeIndex, rank)
  {
    assert gates[g].Tidy();
    forall n <- parents
      ensures parents'[n] == if Occurs(gates[g].args, n) then parents[n] + {c} else parents[n] - {c}
    {
      assert c in parents[n] <==> Occurs(gates[c].args, n);
      assert parents[n] - {c} == parents[n];
    }
    SoundRelink(gates, parents, variables, nodeIndex, rank, c, gates[g], parents');
  }

  /** Room between a gate and its arguments for two levels of new gates. */
  function Spread(rank: Rank, g: int): Rank {
    map h <- rank :: 3 * rank[h] + if h == g then 2 else 0
  }

  lemma SoundSpread(gates: Gates, parents: Parents, variables: set<int>, nodeIndex: int, rank: Rank, g: int)
    requires Sound(gates, parents, variables, nodeIndex, rank)
    requires g in gates
    ensures Sound(gates, parents, variables, nodeIndex, Spread(rank, g))
    ensures g in rank && Spread(rank, g)[g] == 3 * rank[g] + 2
    ensures ArgumentsBelow(gates[g], gates, Spread(rank, g), 3 * rank[g])
  {
  }

  lemma LeaveOne(before: Parents, parents: Parents, g: int, args: set<int>, i: int)
    requires Left(before, parents, g, args) && Abs(i) in parents && i != 0
    ensures Left(before, parents[Abs(i) := parents[Abs(i)] - {g}], g, args + {i})
  {
    var parents' := parents[Abs(i) := parents[Abs(i)] - {g}];
    forall n <- before
      ensures parents'[n] == if n > 0 && Occurs(args + {i}, n) then before[n] - {g} else before[n]
    {
      assert before[n] - {g} - {g} == before[n] - {g};
    }
  }

  lemma SoundEraseAll(gates: Gates, parents: Parents, variables: set<int>, nodeIndex: int, rank: Rank, g: int, parents': Parents)
    requires Sound(gates, parents, variables, nodeIndex, rank) && g in gates && Left(parents, parents', g, gates[g].args)
    ensures Sound(gates[g := gates[g].Bare()], parents', variables, nodeIndex, rank)
  {
    forall n <- parents
      ensures parents'[n] == parents[n] - {g}
    {
      assert g in parents[n] <==> Occurs(gates[g].args, n);
      assert !Occurs(gates[g].args, n) ==> parents[n] - {g} == parents[n];
    }
    SoundRelink(gates, parents, variables, nodeIndex, rank, g, gates[g].Bare(), parents');
  }

  /** The gate with the constant as its one argument. */
  function Constant(gate: Gate, state: bool): Gate {
    Gate(Null, gate.minNumber, {if state then 1 else -1}, {}, {}, true)
  }

  /** The effect of a constant argument on a gate. */
  function WithConstant(gate: Gate, state: bool): Gate {
    if state then
      match gate.kind
      case Null | Or => Constant(gate, true)
      case Nand => if |gate.args| == 1 then gate.(kind := Not) else gate
      case And => if |gate.args| == 1 then gate.(kind := Null) else gate
      case Nor | Not => Constant(gate, false)
      case Xor => gate.(kind := Not)
      case Atleast =>
        gate.(minNumber := gate.minNumber - 1, kind := if gate.minNumber == 2 then Or else Atleast)
    else
      match gate.kind
      case Null | And => Constant(gate, false)
      case Nand | Not => Constant(gate, true)
      case Nor => if |gate.args| == 1 then gate.(kind := Not) else gate
      case Or => if |gate.args| == 1 then gate.(kind := Null) else gate
      case Xor => gate.(kind := Null)
      case Atleast => if |gate.args| == gate.minNumber then gate.(kind := And) else gate
  }

  /** The effect of an argument that the gate already has, when no new gate is needed. */
  function WithDuplicate(gate: Gate, index: int, rule: PairRule): Gate {
    if gate.kind.Atleast? then (if rule.AsWritten? then gate.Without(index) else gate.Only(index)).(kind := Null)
    else if |gate.args| != 1 then gate
    else
      match gate.kind
      case And | Or => gate.(kind := Null)
      case Nand | Nor => gate.(kind := Not)
      case _ => Constant(gate, false)
  }

  /** The effect of the complement of an argument that the gate already has. */
  function WithComplement(gate: Gate, index: int): Gate {
    match gate.kind
    case Nor | And => Constant(gate, false)
    case Nand | Xor | Or => Constant(gate, true)
    case _ =>
      var rest := gate.Without(-index).(minNumber := gate.minNumber - 1);
      if |rest.args| == 1 then rest.(kind := Null)
      else if rest.minNumber == 1 then rest.(kind := Or)
      else if rest.minNumber == |rest.args| then rest.(kind := And)
      else rest
  }

  /** A gate after one more argument, when no new gate is needed. */
  function Insert(gate: Gate, index: int, toGate: bool, rule: PairRule): Gate {
    if Abs(index) == 1 then WithConstant(gate, index > 0)
    else if index in gate.args then WithDuplicate(gate, index, rule)
    else if -index in gate.args then WithComplement(gate, index)
    else gate.With(index, toGate)
  }

  /** A gate with two arguments that loses one of them has the other one left. */
  lemma OnlyOther(gate: Gate, index: int, other: int)
    requires gate.Tidy() && |gate.args| == 2 && index in gate.args && other in gate.args && other != index && !gate.constant
    ensures gate.Without(other) == gate.Only(index)
  {
    Subset({index, other}, gate.args);
    assert gate.args == {index, other};
  }

  /** The duplicate argument of a K/N gate with more than two arguments. */
  predicate Splits(gate: Gate, index: int) {
    gate.kind.Atleast? && index in gate.args && |gate.args| > 2
  }

  /** The votes of the arguments other than the duplicate. */
  function Rest(gate: Gate, index: int, minNumber: int): Gate {
    gate.Without(index).(
    minNumber := minNumber,
    kind := if minNumber == 1 then Or else if |gate.args| - 1 == minNumber then And else Atleast)
  }

  /** @(k, [x, x, y]) = x & @(k - 2, [y]) | @(k, [y]) with new gates after index `last`. */
  ghost predicate IsSplit(before: Gates, after: Gates, g: int, index: int, toGate: bool, last: int) {
    && g in before && g in after && last + 1 in after
    && (forall h <- before :: h in after && (h != g ==> after[h] == before[h]))
    && (forall h <- after :: h in before || last < h <= last + 3)
    && Parts(before[g], after, g, index, toGate, last)
  }

  ghost predicate Parts(gate: Gate, after: Gates, g: int, index: int, toGate: bool, last: int)
    requires g in after && last + 1 in after
  {
    if |gate.args| == gate.minNumber then
      && last + 2 !in after && last + 3 !in after
      && after[g] == gate.Bare().(kind := And).With(index, toGate).With(last + 1, true)
      && after[last + 1] == Rest(gate, index, gate.minNumber - 2)
    else if gate.minNumber == 2 then
      && last + 2 !in after && last + 3 !in after
      && after[g] == gate.Bare().(kind := Or).With(last + 1, true).With(index, toGate)
      && after[last + 1] == Rest(gate, index, gate.minNumber)
    else
      && last + 2 in after && last + 3 in after
      && after[g] == gate.Bare().(kind := Or).With(last + 1, true).With(last + 2, true)
      && after[last + 1] == Rest(gate, index, gate.minNumber)
      && after[last + 2] == Gate(And, 0, {}, {}, {}, false).With(index, toGate).With(last + 3, true)
      && after[last + 3] == Rest(gate, index, gate.minNumber - 2)
  }

  /** The gates after an argument has been added to one of them. */
  ghost predicate Added(before: Gates, after: Gates, g: int, index: int, last: int, rule: PairRule) {
    && g in before
    && if Splits(before[g], index)
       then IsSplit(before, after, g, index, Abs(index) in before, last)
       else after == before[g := Insert(before[g], index, Abs(index) in before, rule)]
  }

  lemma SoundConstant(gates: Gates, parents: Parents, variables: set<int>, nodeIndex: int, rank: Rank, g: int, state: bool)
    requires Sound(gates, parents, variables, nodeIndex, rank) && g in gates && gates[g] == gates[g].Bare()
    ensures 1 in parents
    ensures Sound(gates[g := Constant(gates[g], state)], parents[1 := parents[1] + {g}], variables, nodeIndex, rank)
  {
    var gate := Constant(gates[g], state);
    var parents' := parents[1 := parents[1] + {g}];
    forall n <- parents
      ensures parents'[n] == if Occurs(gate.args, n) then parents[n] + {g} else parents[n] - {g}
    {
      assert g in parents[n] <==> Occurs(gates[g].args, n);
    }
    SoundRelink(gates, parents, variables, nodeIndex, rank, g, gate, parents');
  }

  lemma NoConstant(gates: Gates, parents: Parents, variables: set<int>, nodeIndex: int, rank: Rank, g: int)
    requires Sound(gates, parents, variables, nodeIndex, rank) && g in gates && !gates[g].constant
    ensures 1 !in gates[g].args && -1 !in gates[g].args
  {
    assert gates[g].Tidy();
  }

  /** A new argument of an AND or OR gate. */
  lemma InsertFresh(gate: Gate, index: int, toGate: bool, rule: PairRule)
    requires gate.kind in {And, Or} && !gate.constant && Abs(index) > 1 && !Occurs(gate.args, index)
    ensures gate.Accepts(index) && !Splits(gate, index) && Insert(gate, index, toGate, rule) == gate.With(index, toGate)
  {
  }

  lemma SplitOfUnanimous(before: Gates, after: Gates, g: int, index: int, toGate: bool, two: int)
    requires g in before && two !in before && two + 1 !in before && two + 2 !in before && before[g].kind.Atleast? && |before[g].args| == before[g].minNumber && index in before[g].args
    requires after == before[two := Rest(before[g], index, before[g].minNumber - 2)]
                      [g := before[g].Bare().(kind := And).With(index, toGate).With(two, true)]
    ensures IsSplit(before, after, g, index, toGate, two - 1)
  {
  }

  lemma RestOfMajority(gate: Gate, index: int)
    requires gate.kind.Atleast? && gate.minNumber > 1 && index in gate.args
    ensures var rest := gate.Without(index);
            Rest(gate, index, gate.minNumber) == if |rest.args| == rest.minNumber then rest.(kind := And) else rest
  {
    assert |gate.args - {index}| == |gate.args| - 1;
  }

  /** The gates that replace a K/N gate with N > K, before the first part is turned into AND. */
  ghost predicate Divided(before: Gates, parts: Gates, g: int, index: int, toGate: bool, one: int) {
    && g in before && g in parts && one in parts && one !in before
    && (forall h <- before :: h in parts && (h != g ==> parts[h] == before[h]))
    && (forall h <- parts :: h in before || one <= h <= one + 2)
    && DividedParts(before[g], parts, g, index, toGate, one)
  }

  ghost predicate DividedParts(gate: Gate, parts: Gates, g: int, index: int, toGate: bool, one: int)
    requires g in parts && one in parts
  {
    var root := gate.Bare().(kind := Or).With(one, true);
    && parts[one] == gate.Without(index)
    && if gate.minNumber == 2 then
         && one + 1 !in parts && one + 2 !in parts
         && parts[g] == root.With(index, toGate)
       else
         && one + 1 in parts && one + 2 in parts
         && parts[g] == root.With(one + 1, true)
         && parts[one + 1] == Gate(And, 0, {}, {}, {}, false).With(index, toGate).With(one + 2, true)
         && parts[one + 2] == Rest(gate, index, gate.minNumber - 2)
  }

  lemma DividedTwo(before: Gates, g: int, index: int, toGate: bool, one: int)
    requires g in before && one !in before && one + 1 !in before && one + 2 !in before && before[g].minNumber == 2
    ensures var root := before[g].Bare().(kind := Or).With(one, true);
            var parts := before[one := before[g]][g := root][one := before[g].Without(index)][g := root.With(index, toGate)];
            Divided(before, parts, g, index, toGate, one)
  {
    hide Gate.Without, Gate.With, Gate.Bare;
  }

  lemma DividedVotes(before: Gates, moved: Gates, parts: Gates, g: int, index: int, toGate: bool, one: int)
    requires g in before && one !in before && before[g].kind.Atleast? && before[g].minNumber != 2
    requires moved == before[one := before[g]][g := before[g].Bare().(kind := Or).With(one, true)]
    requires g in parts && one in parts && one + 1 in parts && one + 2 in parts
    requires forall h <- moved :: h in parts && (h != g && h != one ==> parts[h] == moved[h])
    requires forall h <- parts :: h in moved || h == one + 1 || h == one + 2
    requires parts[g] == moved[g].With(one + 1, true) && parts[one] == moved[one].Without(index)
    requires parts[one + 1] == Gate(And, 0, {}, {}, {}, false).With(index, toGate).With(one + 2, true)
    requires parts[one + 2] == Rest(before[g], index, before[g].minNumber - 2)
    ensures Divided(before, parts, g, index, toGate, one)
  {
    hide Gate.Without, Gate.With, Gate.Bare, Rest;
  }

  lemma DividedFirst(before: Gates, parts: Gates, g: int, index: int, toGate: bool, one: int)
    requires Divided(before, parts, g, index, toGate, one)
    ensures g in before && one in parts && parts[one] == before[g].Without(index)
  {
  }

  lemma SplitOfMajority(before: Gates, parts: Gates, g: int, index: int, toGate: bool, one: int)
    requires Divided(before, parts, g, index, toGate, one)
    requires before[g].kind.Atleast? && 2 <= before[g].minNumber < |before[g].args| && index in before[g].args
    ensures one in parts
    ensures IsSplit(before, if |parts[one].args| == before[g].minNumber then parts[one := parts[one].(kind := And)] else parts,
                    g, index, toGate, one - 1)
  {
    hide Parts, DividedParts, Rest, Gate.Without, Gate.With, Gate.Bare;
    PartsOfMajority(before[g], parts, g, index, toGate, one);
  }

  lemma PartsOfMajority(gate: Gate, parts: Gates, g: int, index: int, toGate: bool, one: int)
    requires gate.kind.Atleast? && 2 <= gate.minNumber < |gate.args| && index in gate.args
    requires g in parts && one in parts && g != one && DividedParts(gate, parts, g, index, toGate, one)
    ensures Parts(gate, if |parts[one].args| == gate.minNumber then parts[one := parts[one].(kind := And)] else parts,
                  g, index, toGate, one - 1)
  {
    RestOfMajority(gate, index);
    hide Rest, Gate.With, Gate.Bare;
  }

  lemma UpdateSwap(gates: Gates, g: int, gate: Gate, h: int, other: Gate)
    requires g != h
    ensures gates[g := gate][h := other] == gates[h := other][g := gate]
  {
  }

  lemma UpdateTwice(gates: Gates, g: int, gate: Gate, gate': Gate)
    ensures gates[g := gate][g := gate'] == gates[g := gate']
  {
  }

  lemma UpdateFirst(gates: Gates, g: int, gate: Gate, h: int, other: Gate, gate': Gate)
    requires g != h
    ensures gates[g := gate][h := other][g := gate'] == gates[g := gate'][h := other]
  {
  }

  lemma BelowNew(before: Gates, gates: Gates, rank: Rank, g: int, c: int, level: nat)
    requires g in before && ArgumentsBelow(before[g], before, rank, level)
    requires forall i <- before[g].args :: Abs(i) != c
    requires gates.Keys == before.Keys + {c}
    ensures ArgumentsBelow(before[g], gates, rank[c := level], level)
  {
  }

  lemma AdoptNone(parents: Parents, g: int)
    ensures Adopted(parents, parents, g, {})
  {
  }

  lemma KindOfConstant(gates: Gates, parents: Parents, variables: set<int>, nodeIndex: int, rank: Rank, g: int)
    requires Sound(gates, parents, variables, nodeIndex, rank) && g in gates
    ensures gates[g].constant ==> gates[g].kind.Null? && (gates[g].args == {1} || gates[g].args == {-1})
  {
    assert gates[g].Tidy();
  }

  lemma ArgumentNodes(gates: Gates, parents: Parents, variables: set<int>, nodeIndex: int, rank: Rank, g: int)
    requires Sound(gates, parents, variables, nodeIndex, rank) && g in gates
    ensures forall i <- gates[g].args :: Abs(i) in parents && i != 0 && !Conflicts(gates[g].args, i) && g in parents[Abs(i)]
    ensures forall i <- gates[g].args :: Abs(i) <= nodeIndex
    ensures forall h <- gates :: h <= nodeIndex
    ensures gates[g].Tidy() && g in parents && g in rank && 0 < g <= nodeIndex && 1 < nodeIndex + 1 && ArgumentsBelow(gates[g], gates, rank, rank[g])
  {
    forall i <- gates[g].args
      ensures Abs(i) in parents && i != 0 && !Conflicts(gates[g].args, i) && g in parents[Abs(i)]
    {
      assert gates[g].Tidy();
      Existing(gates, parents, variables, nodeIndex, g, i);
    }
  }
}
