/** The propositional graph of a fault tree while it is simplified: gates whose type and
    arguments change in place, with links in both directions between a gate and its
    arguments. */
module Rewriting {
  import opened Indices
  import opened Sets
  import opened Connectives
  import opened Links
  import opened Laws
  import opened Values
  import opened Measures
  import opened Joining
  import opened Separation
  import opened Progress
  import opened Coalescing

  /** The indices of the variables follow that of the constant. */
  function VariableIndices(numVariables: nat): (r: set<int>)
    ensures forall n :: n in r <==> 2 <= n < 2 + numVariables
  {
    if numVariables == 0 then {} else VariableIndices(numVariables - 1) + {1 + numVariables}
  }

  class Pdag {
    const variables: set<int>
    const rule: PairRule
    var gates: Gates
    var parents: Parents
    var nodeIndex: int
    var nullGates: seq<int>
    var registerNullGates: bool
    var root: int
    var complement: bool
    /** A gate has a greater rank than its argument gates. */
    ghost var rank: Rank

    ghost function Now(): Snapshot
      reads this
    {
      Snapshot(gates, parents, nodeIndex, rank)
    }

    ghost predicate Valid()
      reads this
    {
      && Sound(gates, parents, variables, nodeIndex, rank)
      && (registerNullGates ==> Registered(gates, nullGates, root))
    }

    /** A graph with the constant, with as many variables, and without gates. */
    constructor (numVariables: nat, rule: PairRule)
      ensures Valid() && gates == map[] && rank == map[] && nullGates == [] && registerNullGates && !complement && root == 0
      ensures forall n :: n in variables <==> 2 <= n < 2 + numVariables
      ensures nodeIndex == 1 + numVariables && this.rule == rule
    {
      variables, this.rule := VariableIndices(numVariables), rule;
      gates := map[];
      parents := map n | n in {1} + VariableIndices(numVariables) :: {};
      nodeIndex := 1 + numVariables;
      nullGates, registerNullGates, root, complement := [], true, 0, false;
      rank := map[];
    }

    /** The first root of the graph. */
    method SetRoot(g: int)
      requires Valid() && root == 0 && g in gates
      modifies this`root
      ensures Valid() && root == g
    {
      root := g;
    }

    /** A new pass-through gate is registered at once. */
    method NewNullGate(ghost level: nat) returns (g: int)
      requires Valid() && registerNullGates
      modifies this`gates, this`parents, this`nodeIndex, this`rank, this`nullGates
      ensures Valid() && g == nodeIndex == old(nodeIndex) + 1
      ensures gates == old(gates)[g := Gate(Null, 0, {}, {}, {}, false)]
      ensures rank == old(rank)[g := level]
      ensures g !in old(parents) && g !in old(gates) && parents == old(parents)[g := {}]
      ensures nullGates == old(nullGates) + [g]
    {
      hide Sound;
      SoundNew(gates, parents, variables, nodeIndex, rank, Gate(Null, 0, {}, {}, {}, false), level);
      nodeIndex := nodeIndex + 1;
      g := nodeIndex;
      gates := gates[g := Gate(Null, 0, {}, {}, {}, false)];
      parents := parents[g := {}];
      rank := rank[g := level];
      nullGates := nullGates + [g];
    }

    method SetType(g: int, kind: Connective)
      requires Valid() && g in gates && (gates[g].constant ==> kind.Null?)
      modifies this`gates, this`nullGates
      ensures Valid() && gates == old(gates)[g := old(gates)[g].(kind := kind)]
      ensures nullGates == if kind.Null? && registerNullGates then old(nullGates) + [g] else old(nullGates)
    {
      hide Sound;
      SoundRetype(gates, parents, variables, nodeIndex, rank, g, gates[g].(kind := kind));
      gates := gates[g := gates[g].(kind := kind)];
      if kind.Null? && registerNullGates {
        nullGates := nullGates + [g];
      }
    }

    method NewGate(kind: Connective, minNumber: int, ghost level: nat) returns (g: int)
      requires Valid() && !kind.Null?
      modifies this`gates, this`parents, this`nodeIndex, this`rank
      ensures Valid() && g == nodeIndex == old(nodeIndex) + 1
      ensures gates == old(gates)[g := Gate(kind, minNumber, {}, {}, {}, false)]
      ensures rank == old(rank)[g := level]
      ensures g !in old(parents) && g !in old(gates) && parents == old(parents)[g := {}]
    {
      hide Sound;
      SoundNew(gates, parents, variables, nodeIndex, rank, Gate(kind, minNumber, {}, {}, {}, false), level);
      nodeIndex := nodeIndex + 1;
      g := nodeIndex;
      gates := gates[g := Gate(kind, minNumber, {}, {}, {}, false)];
      parents := parents[g := {}];
      rank := rank[g := level];
    }

    method EraseArg(g: int, index: int)
      requires Valid() && g in gates && index in gates[g].args
      modifies this`gates, this`parents
      ensures Valid() && gates == old(gates)[g := old(gates)[g].Without(index)]
      ensures Abs(index) in old(parents) && parents == old(parents)[Abs(index) := old(parents)[Abs(index)] - {g}]
    {
      hide Sound;
      SoundErase(gates, parents, variables, nodeIndex, rank, g, index);
      gates := gates[g := gates[g].Without(index)];
      parents := parents[Abs(index) := parents[Abs(index)] - {g}];
    }

    method EraseArgs(g: int)
      requires Valid() && g in gates
      modifies this`gates, this`parents
      ensures Valid() && gates == old(gates)[g := old(gates)[g].Bare()]
      ensures Left(old(parents), parents, g, old(gates)[g].args)
    {
      hide Sound;
      var rest := gates[g].args;
      ghost var args := gates[g].args;
      ArgumentNodes(gates, parents, variables, nodeIndex, rank, g);
      while rest != {}
        modifies this`parents
        invariant rest <= args
        invariant Left(old(parents), parents, g, args - rest)
      {
        ghost var some := Some(rest);
        var i :| i in rest;
        assert i in args;
        LeaveOne(old(parents), parents, g, args - rest, i);
        parents := parents[Abs(i) := parents[Abs(i)] - {g}];
        assert args - (rest - {i}) == args - rest + {i};
        rest := rest - {i};
      }
      assert args - {} == args;
      SoundEraseAll(gates, old(parents), variables, nodeIndex, rank, g, parents);
      gates := gates[g := gates[g].Bare()];
    }

    method MakeConstant(g: int, state: bool)
      requires Valid() && g in gates && !gates[g].constant
      modifies this`gates, this`parents, this`nullGates
      ensures Valid() && gates == old(gates)[g := Constant(old(gates)[g], state)]
      ensures nullGates == if registerNullGates then old(nullGates) + [g] else old(nullGates)
    {
      hide Sound;
      hide Left;
      EraseArgs(g);
      SetType(g, Null);
      SoundConstant(gates, parents, variables, nodeIndex, rank, g, state);
      gates := gates[g := Constant(gates[g], state)];
      parents := parents[1 := parents[1] + {g}];
    }

    method AddConstantArg(g: int, state: bool)
      requires Valid() && g in gates && gates[g].Accepts(if state then 1 else -1)
      modifies this`gates, this`parents, this`nullGates
      ensures Valid() && gates == old(gates)[g := WithConstant(old(gates)[g], state)]
      ensures ListedOnce(old(nullGates), registerNullGates, gates, g, nullGates)
    {
      hide Sound;
      hide Registered;
      if state {
        match gates[g].kind
        case Null | Or => MakeConstant(g, true);
        case Nand => ReduceLogic(g, Not, 1);
        case And => ReduceLogic(g, Null, 1);
        case Nor | Not => MakeConstant(g, false);
        case Xor => SetType(g, Not);
        case Atleast =>
          SetMinNumber(g, gates[g].minNumber - 1);
          if gates[g].minNumber == 1 {
            SetType(g, Or);
          }
      } else {
        match gates[g].kind
        case Null | And => MakeConstant(g, false);
        case Nand | Not => MakeConstant(g, true);
        case Nor => ReduceLogic(g, Not, 1);
        case Or => ReduceLogic(g, Null, 1);
        case Xor => SetType(g, Null);
        case Atleast => ReduceLogic(g, And, gates[g].minNumber);
      }
    }

    method AddArg(g: int, index: int)
      requires Valid() && g in gates && Abs(index) in parents && gates[g].Accepts(index)
      requires Abs(index) in gates ==> Abs(index) in rank && g in rank && rank[Abs(index)] < rank[g]
      modifies this`gates, this`parents, this`nodeIndex, this`nullGates, this`rank
      ensures Valid()
      ensures Added(old(gates), gates, g, index, old(nodeIndex), rule)
      ensures !Splits(old(gates)[g], index) ==> rank == old(rank) && nodeIndex == old(nodeIndex)
      ensures nodeIndex >= old(nodeIndex)
      ensures ListedOnce(old(nullGates), registerNullGates, gates, g, nullGates)
      decreases if gates[g].kind.Atleast? then 1 else 0, 2
    {
      hide Sound;
      hide Registered;
      hide IsSplit;
      hide WithConstant;
      hide WithDuplicate;
      hide WithComplement;
      if Abs(index) == 1 {
        NoConstant(gates, parents, variables, nodeIndex, rank, g);
        AddConstantArg(g, index > 0);
      } else if index in gates[g].args {
        ProcessDuplicateArg(g, index);
      } else if -index in gates[g].args {
        ProcessComplementArg(g, index);
      } else {
        AttachArg(g, index);
      }
    }

    method AttachArg(g: int, index: int)
      requires Valid() && g in gates && !gates[g].constant
      requires index !in gates[g].args && -index !in gates[g].args
      requires index != 0 && Abs(index) in parents && Abs(index) != 1
      requires Abs(index) in gates ==> Abs(index) in rank && g in rank && rank[Abs(index)] < rank[g]
      modifies this`gates, this`parents
      ensures Valid() && gates == old(gates)[g := old(gates)[g].With(index, Abs(index) in old(gates))]
    {
      hide Sound;
      SoundAdd(gates, parents, variables, nodeIndex, rank, g, index);
      gates := gates[g := gates[g].With(index, Abs(index) in gates)];
      parents := parents[Abs(index) := parents[Abs(index)] + {g}];
    }

    method ProcessDuplicateArg(g: int, index: int)
      requires Valid() && g in gates && Abs(index) != 1 && index in gates[g].args && gates[g].Accepts(index)
      modifies this`gates, this`parents, this`nodeIndex, this`nullGates, this`rank
      ensures Valid()
      ensures if Splits(old(gates)[g], index)
              then IsSplit(old(gates), gates, g, index, Abs(index) in old(gates), old(nodeIndex))
              else gates == old(gates)[g := WithDuplicate(old(gates)[g], index, rule)]
      ensures !Splits(old(gates)[g], index) ==> rank == old(rank) && nodeIndex == old(nodeIndex)
      ensures nodeIndex >= old(nodeIndex)
      ensures ListedOnce(old(nullGates), registerNullGates, gates, g, nullGates)
      decreases if gates[g].kind.Atleast? then 1 else 0, 1
    {
      hide Sound;
      hide Registered;
      if gates[g].kind.Atleast? {
        ProcessAtleastGateDuplicateArg(g, index);
      } else if |gates[g].args| == 1 {
        match gates[g].kind
        case And | Or => SetType(g, Null);
        case Nand | Nor => SetType(g, Not);
        case Xor => MakeConstant(g, false);
      }
    }

    method ProcessComplementArg(g: int, index: int)
      requires Valid() && g in gates && Abs(index) != 1 && -index in gates[g].args && gates[g].Accepts(index)
      modifies this`gates, this`parents, this`nullGates
      ensures Valid() && gates == old(gates)[g := WithComplement(old(gates)[g], index)]
      ensures ListedOnce(old(nullGates), registerNullGates, gates, g, nullGates)
    {
      hide Sound;
      hide Registered;
      match gates[g].kind
      case Nor | And => MakeConstant(g, false);
      case Nand | Xor | Or => MakeConstant(g, true);
      case Atleast =>
        EraseArg(g, -index);
        SetMinNumber(g, gates[g].minNumber - 1);
        if |gates[g].args| == 1 {
          SetType(g, Null);
        } else if gates[g].minNumber == 1 {
          SetType(g, Or);
        } else if gates[g].minNumber == |gates[g].args| {
          SetType(g, And);
        }
    }

    /** Moves an argument to another gate. */
    method TransferArg(g: int, index: int, recipient: int)
      requires Valid() && g in gates && recipient in gates && g != recipient
      requires Abs(index) != 1 && index in gates[g].args && gates[recipient].Accepts(index)
      requires Abs(index) in gates ==> Abs(index) in rank && recipient in rank && rank[Abs(index)] < rank[recipient]
      modifies this`gates, this`parents, this`nodeIndex, this`nullGates, this`rank
      ensures Valid()
      ensures var erased := old(gates)[g := old(gates)[g].Without(index)];
              if Splits(erased[recipient], index)
              then IsSplit(erased, gates, recipient, index, Abs(index) in erased, old(nodeIndex))
              else gates == erased[recipient := Insert(erased[recipient], index, Abs(index) in erased, rule)]
      ensures !Splits(old(gates)[recipient], index) ==> rank == old(rank) && nodeIndex == old(nodeIndex)
      ensures nodeIndex >= old(nodeIndex)
      ensures ListedOnce(old(nullGates), registerNullGates, gates, recipient, nullGates)
      decreases if gates[recipient].kind.Atleast? then 1 else 0, 3
    {
      hide Sound;
      hide Registered;
      EraseArg(g, index);
      AddArg(recipient, index);
    }

    method ProcessAtleastGateDuplicateArg(g: int, index: int)
      requires Valid() && g in gates && gates[g].kind.Atleast?
      requires Abs(index) != 1 && index in gates[g].args && gates[g].Accepts(index)
      modifies this`gates, this`parents, this`nodeIndex, this`nullGates, this`rank
      ensures Valid()
      ensures if |old(gates)[g].args| > 2
              then IsSplit(old(gates), gates, g, index, Abs(index) in old(gates), old(nodeIndex))
              else gates == old(gates)[g := WithDuplicate(old(gates)[g], index, rule)]
      ensures |old(gates)[g].args| == 2 ==> rank == old(rank) && nodeIndex == old(nodeIndex)
      ensures nodeIndex >= old(nodeIndex)
      ensures ListedOnce(old(nullGates), registerNullGates, gates, g, nullGates)
      decreases 1, 0
    {
      hide Sound;
      hide Registered;
      if |gates[g].args| == 2 {
        ArgumentNodes(gates, parents, variables, nodeIndex, rank, g);
        if rule.AsWritten? {
          EraseArg(g, index);
        } else {
          var other := OtherArgument(g, index);
          OnlyOther(gates[g], index, other);
          EraseArg(g, other);
        }
        SetType(g, Null);
        return;
      }
      if gates[g].minNumber == |gates[g].args| {
        SplitUnanimous(g, index);
      } else {
        SplitMajority(g, index);
      }
    }

    method OtherArgument(g: int, index: int) returns (other: int)
      requires Valid() && g in gates && |gates[g].args| == 2 && index in gates[g].args
      ensures other in gates[g].args && other != index
    {
      ghost var some := Some(gates[g].args - {index});
      other :| other in gates[g].args && other != index;
    }

    /** @(n, [x, x, y]) = x & @(n - 2, [y]) */
    method SplitUnanimous(g: int, index: int)
      requires Valid() && g in gates && gates[g].kind.Atleast? && Abs(index) > 1
      requires index in gates[g].args && gates[g].Accepts(index) && !gates[g].constant
      requires |gates[g].args| == gates[g].minNumber > 2
      modifies this`gates, this`parents, this`nodeIndex, this`nullGates, this`rank
      ensures Valid()
      ensures IsSplit(old(gates), gates, g, index, Abs(index) in old(gates), old(nodeIndex))
      ensures nodeIndex >= old(nodeIndex)
      ensures nullGates == old(nullGates)
      decreases 0, 5
    {
      hide Sound, Registered, IsSplit, Splits, Insert, Gate.Accepts, Left;
      var k, toGate := gates[g].minNumber, Abs(index) in gates;
      ghost var gate, base := gates[g], gates;
      ghost var rest, root := gate.(minNumber := k - 2), gate.Bare().(kind := And);
      ghost var level;
      var two;
      two, level := MoveToClone(g, And, k - 2);
      assert gates[g] == root && gates[two] == rest && index in rest.args;
      InsertFresh(root, index, toGate, rule);
      assert ArgumentsBelow(rest, gates, rank, level);
      assert Abs(index) in gates ==> Abs(index) in rank && rank[Abs(index)] < rank[g];
      TransferArg(two, index, g);
      UpdateFirst(base, two, rest, g, root, rest.Without(index));
      UpdateTwice(base[two := rest.Without(index)], g, root, root.With(index, toGate));
      ReduceToOr(two);
      UpdateFirst(base, two, rest.Without(index), g, root.With(index, toGate), Rest(gate, index, k - 2));
      assert gates == base[two := Rest(gate, index, k - 2)][g := root.With(index, toGate)];
      InsertFresh(root.With(index, toGate), two, true, rule);
      ArgumentNodes(gates, parents, variables, nodeIndex, rank, two);
      AddArg(g, two);
      UpdateTwice(base[two := Rest(gate, index, k - 2)], g, root.With(index, toGate), root.With(index, toGate).With(two, true));
      SplitOfUnanimous(old(gates), gates, g, index, toGate, two);
    }

    /** @(k, [x, x, y]) = x & @(k - 2, [y]) | @(k, [y]) */
    method SplitMajority(g: int, index: int)
      requires Valid() && g in gates && gates[g].kind.Atleast? && Abs(index) > 1
      requires index in gates[g].args && gates[g].Accepts(index) && |gates[g].args| > gates[g].minNumber > 1
      requires |gates[g].args| > 2 && !gates[g].constant
      modifies this`gates, this`parents, this`nodeIndex, this`nullGates, this`rank
      ensures Valid()
      ensures IsSplit(old(gates), gates, g, index, Abs(index) in old(gates), old(nodeIndex))
      ensures nodeIndex >= old(nodeIndex)
      ensures nullGates == old(nullGates)
      decreases 0, 7
    {
      hide Sound, Registered, IsSplit, Splits, Insert, Gate.Accepts, Left, Divided;
      var k, toGate := gates[g].minNumber, Abs(index) in gates;
      var one := DivideMajority(g, index);
      SplitOfMajority(old(gates), gates, g, index, toGate, one);
      DividedFirst(old(gates), gates, g, index, toGate, one);
      ReduceLogic(one, And, k);
    }

    method DivideMajority(g: int, index: int) returns (one: int)
      requires Valid() && g in gates && gates[g].kind.Atleast? && Abs(index) > 1
      requires index in gates[g].args && |gates[g].args| > gates[g].minNumber > 1
      requires |gates[g].args| > 2 && !gates[g].constant
      modifies this`gates, this`parents, this`nodeIndex, this`nullGates, this`rank
      ensures Valid() && one == old(nodeIndex) + 1
      ensures Divided(old(gates), gates, g, index, Abs(index) in old(gates), one)
      ensures nodeIndex >= old(nodeIndex)
      ensures nullGates == old(nullGates)
      decreases 0, 6
    {
      hide Sound, Registered, IsSplit, Splits, Insert, Gate.Accepts, Left, Divided;
      var k, toGate := gates[g].minNumber, Abs(index) in gates;
      ghost var gate, base := gates[g], gates;
      ghost var level := 0;
      one, level := MoveUnderOr(g);
      ghost var root, moved := gates[g], gates;
      if k == 2 {
        InsertFresh(root, index, toGate, rule);
        TransferArg(one, index, g);
        DividedTwo(base, g, index, toGate, one);
      } else {
        var and, two := SplitVotes(g, index, one, level);
        DividedVotes(base, moved, gates, g, index, toGate, one);
      }
    }

    /** Turns a K/N gate into OR with one argument: a clone of what it was. */
    method MoveUnderOr(g: int) returns (one: int, ghost level: nat)
      requires Valid() && g in gates && !gates[g].constant && gates[g].kind.Atleast?
      modifies this`gates, this`parents, this`nodeIndex, this`nullGates, this`rank
      ensures Valid() && one == nodeIndex == old(nodeIndex) + 1 > 1
      ensures one !in old(gates) && forall h <- old(gates) :: h < one
      ensures gates == old(gates)[one := old(gates)[g]][g := old(gates)[g].Bare().(kind := Or).With(one, true)]
      ensures g in rank && one in rank && rank[g] == level + 2 && rank[one] == level
      ensures ArgumentsBelow(gates[one], gates, rank, level)
      ensures forall i <- old(gates)[g].args :: Abs(i) in parents && (Abs(i) in gates <==> Abs(i) in old(gates)) && Abs(i) < one
      ensures nullGates == old(nullGates)
      decreases 0, 4
    {
      hide Sound, Registered, Splits, Insert, Gate.Accepts, Left;
      ghost var gate, base := gates[g], gates;
      ghost var root := gate.Bare().(kind := Or);
      ArgumentNodes(gates, parents, variables, nodeIndex, rank, g);
      one, level := MoveToClone(g, Or, gates[g].minNumber);
      InsertFresh(root, one, true, rule);
      ArgumentNodes(gates, parents, variables, nodeIndex, rank, one);
      AddArg(g, one);
      UpdateTwice(base[one := gate], g, root, root.With(one, true));
      ArgumentNodes(gates, parents, variables, nodeIndex, rank, one);
    }

    /** Moves what a K/N gate was to a clone, and gives the gate another type. */
    method MoveToClone(g: int, kind: Connective, minNumber: int) returns (c: int, ghost level: nat)
      requires Valid() && g in gates && !gates[g].constant && gates[g].kind.Atleast? && !kind.Null?
      modifies this`gates, this`parents, this`nodeIndex, this`nullGates, this`rank
      ensures Valid() && c == nodeIndex == old(nodeIndex) + 1 > 1
      ensures c !in old(gates) && !Occurs(old(gates)[g].args, c) && forall h <- old(gates) :: h < c
      ensures gates == old(gates)[c := old(gates)[g].(minNumber := minNumber)][g := old(gates)[g].Bare().(kind := kind)]
      ensures g in rank && c in rank && rank[g] == level + 2 && rank[c] == level && nullGates == old(nullGates)
      ensures ArgumentsBelow(gates[c], gates, rank, level)
      ensures forall i <- old(gates)[g].args :: Abs(i) in parents && (Abs(i) in gates <==> Abs(i) in old(gates))
    {
      hide Sound, Registered, Splits, Insert, Gate.Accepts, Left;
      SoundSpread(gates, parents, variables, nodeIndex, rank, g);
      ArgumentNodes(gates, parents, variables, nodeIndex, rank, g);
      level := 3 * rank[g];
      rank := Spread(rank, g);
      ghost var gate, base := gates[g], gates;
      c := Clone(g, level);
      SetMinNumber(c, minNumber);
      EraseArgs(g);
      SetType(g, kind);
      UpdateTwice(base, c, gate, gate.(minNumber := minNumber));
      UpdateTwice(base[c := gate.(minNumber := minNumber)], g, gate.Bare(), gate.Bare().(kind := kind));
      ArgumentNodes(gates, parents, variables, nodeIndex, rank, c);
    }

    /** Moves an argument to a new AND gate, which becomes an argument of `g`. */
    method TransferToAnd(g: int, index: int, one: int, ghost level: nat) returns (and: int)
      requires Valid() && g in gates && one in gates && g != one && gates[g].kind.Or? && !gates[g].constant
      requires index in gates[one].args && Abs(index) > 1 && !Occurs(gates[g].args, nodeIndex + 1)
      requires ArgumentsBelow(gates[one], gates, rank, level) && g in rank && rank[g] > level + 1
      modifies this`gates, this`parents, this`nodeIndex, this`nullGates, this`rank
      ensures Valid() && old(nodeIndex) + 1 == and == nodeIndex && and !in old(gates) && Abs(index) <= old(nodeIndex)
      ensures gates == old(gates)[and := Gate(And, 0, {}, {}, {}, false).With(index, Abs(index) in old(gates))]
                                 [g := old(gates)[g].With(and, true)][one := old(gates)[one].Without(index)]
      ensures rank == old(rank)[and := level + 1] && ArgumentsBelow(gates[one], gates, rank, level)
      ensures nullGates == old(nullGates)
      decreases 0, 4
    {
      hide Sound, Registered, IsSplit, Splits, Insert, Gate.Accepts, Left;
      ArgumentNodes(gates, parents, variables, nodeIndex, rank, one);
      and := NewGate(And, 0, level + 1);
      ghost var first := gates[and];
      InsertFresh(gates[g], and, true, rule);
      AddArg(g, and);
      InsertFresh(gates[and], index, Abs(index) in gates, rule);
      TransferArg(one, index, and);
      ArgumentNodes(gates, parents, variables, nodeIndex, rank, one);
      ghost var base := old(gates);
      ghost var rest, root, last := base[one].Without(index), base[g].With(and, true), gates[and];
      assert gates == base[and := first][g := root][one := rest][and := last];
      UpdateSwap(base[and := first][g := root], one, rest, and, last);
      UpdateFirst(base, and, first, g, root, last);
    }

    /** x & @(k - 2, [y]) as a new argument of a gate, with x taken from `one`. */
    method SplitVotes(g: int, index: int, one: int, ghost level: nat) returns (and: int, two: int)
      requires Valid() && g in gates && one in gates && g != one && gates[g].kind.Or? && !gates[g].constant
      requires gates[one].kind.Atleast? && !gates[one].constant && |gates[one].args| > gates[one].minNumber > 2
      requires index in gates[one].args && Abs(index) > 1 && !Occurs(gates[g].args, nodeIndex + 1)
      requires ArgumentsBelow(gates[one], gates, rank, level) && g in rank && rank[g] > level + 1
      modifies this`gates, this`parents, this`nodeIndex, this`nullGates, this`rank
      ensures Valid() && old(nodeIndex) + 1 == and && and + 1 == two == nodeIndex
      ensures and !in old(gates) && two !in old(gates) && and in gates && two in gates && g in gates && one in gates
      ensures forall h <- old(gates) :: h in gates && (h != g && h != one ==> gates[h] == old(gates)[h])
      ensures forall h <- gates :: h in old(gates) || h == and || h == two
      ensures gates[g] == old(gates)[g].With(and, true)
      ensures gates[one] == old(gates)[one].Without(index)
      ensures gates[and] == Gate(And, 0, {}, {}, {}, false).With(index, Abs(index) in old(gates)).With(two, true)
      ensures gates[two] == Rest(old(gates)[one], index, gates[two].minNumber)
      ensures gates[two].minNumber == old(gates)[one].minNumber - 2
      ensures nullGates == old(nullGates)
      decreases 0, 5
    {
      hide Sound, Registered, IsSplit, Splits, Insert, Gate.Accepts, Left;
      and := TransferToAnd(g, index, one, level);
      two := Clone(one, level);
      SetMinNumber(two, gates[one].minNumber - 2);
      ReduceToOr(two);
      InsertFresh(gates[and], two, true, rule);
      AddArg(and, two);
    }

    /** K/N with K equal to 1 is OR. */
    method ReduceToOr(g: int)
      requires Valid() && g in gates && !gates[g].constant && !gates[g].kind.Null?
      modifies this`gates, this`nullGates
      ensures Valid() && nullGates == old(nullGates)
      ensures var gate := old(gates)[g];
              gates == old(gates)[g := gate.(kind := if gate.minNumber == 1 then Or else gate.kind)]
    {
      if gates[g].minNumber == 1 {
        SetType(g, Or);
      }
    }

    method ReduceLogic(g: int, kind: Connective, size: int)
      requires Valid() && g in gates && !gates[g].constant
      modifies this`gates, this`nullGates
      ensures Valid()
      ensures gates == if |old(gates)[g].args| == size then old(gates)[g := old(gates)[g].(kind := kind)] else old(gates)
      ensures ListedOnce(old(nullGates), registerNullGates, gates, g, nullGates)
    {
      if |gates[g].args| == size {
        SetType(g, kind);
      }
    }

    method SetMinNumber(g: int, minNumber: int)
      requires Valid() && g in gates
      modifies this`gates
      ensures Valid() && gates == old(gates)[g := old(gates)[g].(minNumber := minNumber)]
    {
      hide Sound;
      KindOfConstant(gates, parents, variables, nodeIndex, rank, g);
      SoundRetype(gates, parents, variables, nodeIndex, rank, g, gates[g].(minNumber := minNumber));
      gates := gates[g := gates[g].(minNumber := minNumber)];
    }

    /** A gate with the same type and arguments, and no parents yet. */
    method Clone(g: int, ghost level: nat) returns (c: int)
      requires Valid() && g in gates && !gates[g].constant && !gates[g].kind.Null?
      requires ArgumentsBelow(gates[g], gates, rank, level)
      modifies this`gates, this`parents, this`nodeIndex, this`rank
      ensures Valid() && c == nodeIndex == old(nodeIndex) + 1 && c !in old(gates) && c !in old(parents) && c in parents
      ensures gates == old(gates)[c := old(gates)[g]]
      ensures rank == old(rank)[c := level]
    {
      hide Sound;
      hide Adopted;
      ArgumentNodes(gates, parents, variables, nodeIndex, rank, g);
      c := NewGate(gates[g].kind, gates[g].minNumber, level);
      ghost var before := parents;
      var rest := gates[g].args;
      ghost var args := gates[g].args;
      AdoptNone(parents, c);
      assert args - args == {};
      while rest != {}
        modifies this`parents
        invariant rest <= args && Adopted(before, parents, c, args - rest)
        invariant parents.Keys == before.Keys
      {
        ghost var some := Some(rest);
        var i :| i in rest;
        assert i in args;
        AdoptOne(before, parents, c, args - rest, i);
        parents := parents[Abs(i) := parents[Abs(i)] + {c}];
        assert args - (rest - {i}) == args - rest + {i};
        rest := rest - {i};
      }
      assert args - {} == args;
      BelowNew(old(gates), gates, old(rank), g, c, level);
      SoundClone(gates, before, variables, nodeIndex, rank, g, c, parents);
      gates := gates[c := gates[g]];
    }

    /** The gate takes over the argument of a pass-through argument. */
    method JoinNullGate(p: int, index: int) returns (ghost c: int)
      requires Valid() && AllComplete(gates) && p in gates && index in gates[p].args
      requires IsNull(gates, Abs(index))
      modifies this`gates, this`parents, this`nodeIndex, this`nullGates, this`rank
      ensures Valid() && AllComplete(gates) && nodeIndex >= old(nodeIndex)
      ensures Joined(old(gates), gates, p, index, c, old(nodeIndex), rule)
      ensures Run(old(Now()), Now(), p, [Join(old(Now()), p, index, c, Now())], rule) && p in gates
      ensures Less(gates, rank, old(gates), old(rank))
      ensures !registerNullGates ==> nullGates == old(nullGates)
    {
      hide Sound, Registered, Gate.Complete, Gate.Accepts, Added, Joinable, Insert, Splits;
      var argument := SingleArgument(Abs(index));
      c := argument;
      CanJoin(gates, parents, variables, nodeIndex, rank, p, index, c);
      JoinPrepares(gates, p, index, c, nodeIndex);
      EraseArg(p, index);
      ParentsKept(old(parents), parents, Abs(index), p);
      AddArg(p, if index > 0 then argument else -argument);
      JoinSteps(old(Now()), Now(), variables, p, index, c, rule);
    }

    /** The one argument of a pass-through gate. */
    method SingleArgument(g: int) returns (c: int)
      requires Valid() && IsNull(gates, g) && AllComplete(gates)
      ensures c in gates[g].args
    {
      assert gates[g].Complete();
      ghost var some := Some(gates[g].args);
      c :| c in gates[g].args;
    }

    /** Gates to which nothing refers any more disappear with their links. */
    method Reclaim(held: set<int>)
      requires Valid()
      modifies this`gates, this`parents
      ensures Valid() && Trimmed(old(gates), old(parents), gates, parents)
      ensures forall h <- held :: h in old(gates) ==> h in gates
      ensures forall h <- gates :: h in held || !Orphan(parents, h)
      ensures Run(old(Now()), Now(), 0, [Removal(old(Now()), Now())], rule)
      ensures AllComplete(old(gates)) ==> AllComplete(gates)
    {
      hide Sound, Registered;
      while exists h <- gates :: h !in held && Orphan(parents, h)
        invariant Valid() && Trimmed(old(gates), old(parents), gates, parents)
        invariant forall h <- held :: h in old(gates) ==> h in gates
        decreases |gates|
      {
        var g :| g in gates && g !in held && Orphan(parents, g);
        RemoveGate(g);
      }
      TrimSteps(old(Now()), Now(), variables, rule);
    }

    method RemoveGate(g: int)
      requires Valid() && g in gates && Orphan(parents, g)
      modifies this`gates, this`parents
      ensures Valid() && gates == old(gates) - {g}
      ensures Trimmed(old(gates), old(parents), gates, parents)
    {
      hide Sound;
      EraseArgs(g);
      SoundRemove(gates, parents, variables, nodeIndex, rank, g);
      gates := gates - {g};
      parents := parents - {g};
    }

    /** Removes a pass-through gate from one of its parents, and that parent from its own
        parents if it has become a pass-through gate. */
    method JoinParent(g: int, held: set<int>) returns (ghost steps: seq<Step>)
      requires Valid() && AllComplete(gates) && IsNull(gates, g) && !Orphan(parents, g)
      requires !registerNullGates && g in held && forall h <- held :: h in gates
      modifies this`gates, this`parents, this`nodeIndex, this`nullGates, this`rank
      ensures Valid() && AllComplete(gates) && IsNull(gates, g) && forall h <- held :: h in gates
      ensures Run(old(Now()), Now(), 0, steps, rule)
      ensures Less(gates, rank, old(gates), old(rank))
      ensures nullGates == old(nullGates)
      decreases TotalVotes(gates), TotalHeights(gates, rank), 0
    {
      hide Sound, Registered, Run, AllComplete, Trimmed, TotalVotes, TotalHeights;
      var p, index := SomeParent(g);
      steps := JoinAndReclaim(p, index, held + {p});
      ghost var joined := Now();
      if gates[p].kind.Null? {
        ghost var later := PropagateNullGate(p, held + {p});
        SoundFacts(gates, parents, variables, nodeIndex, rank);
        RunTwice(old(Now()), joined, Now(), p, steps, later, rule);
        StillLess(old(Now()), joined, Now(), 0, later, rule);
        steps := steps + later;
      }
      RunSettled(old(Now()), Now(), p, steps, rule);
      ghost var propagated := Now();
      Reclaim(held);
      SoundFacts(gates, parents, variables, nodeIndex, rank);
      ghost var removal := [Removal(propagated, Now())];
      RunTwice(old(Now()), propagated, Now(), 0, steps, removal, rule);
      StillLess(old(Now()), propagated, Now(), 0, removal, rule);
      steps := steps + removal;
      StaysNull(old(Now()), Now(), 0, steps, rule, g);
    }

    method JoinAndReclaim(p: int, index: int, held: set<int>) returns (ghost steps: seq<Step>)
      requires Valid() && AllComplete(gates) && p in gates && index in gates[p].args && IsNull(gates, Abs(index))
      requires !registerNullGates && forall h <- held :: h in gates
      modifies this`gates, this`parents, this`nodeIndex, this`nullGates, this`rank
      ensures Valid() && AllComplete(gates) && forall h <- held :: h in gates
      ensures Run(old(Now()), Now(), p, steps, rule)
      ensures Less(gates, rank, old(gates), old(rank))
      ensures nullGates == old(nullGates)
    {
      hide Sound, Registered, Run, Joined, Deviation, AllComplete, Trimmed, TotalVotes, TotalHeights;
      SoundFacts(gates, parents, variables, nodeIndex, rank);
      ghost var c := JoinNullGate(p, index);
      JoinKeepsGates(old(gates), gates, p, index, c, old(nodeIndex), rule);
      ghost var joined := Now();
      ghost var join := [Join(old(Now()), p, index, c, joined)];
      Reclaim(held);
      SoundFacts(gates, parents, variables, nodeIndex, rank);
      ghost var removal := [Removal(joined, Now())];
      RunTwice(old(Now()), joined, Now(), p, join, removal, rule);
      StillLess(old(Now()), joined, Now(), 0, removal, rule);
      steps := join + removal;
    }

    /** A parent and the signed index of the gate among its arguments. */
    method SomeParent(g: int) returns (p: int, index: int)
      requires Valid() && g in gates && !Orphan(parents, g)
      ensures p in gates && index in gates[p].args && Abs(index) == g
    {
      SoundFacts(gates, parents, variables, nodeIndex, rank);
      ghost var some := Some(parents[g]);
      p :| p in parents[g];
      index := if g in gates[p].args then g else -g;
    }

    /** Removes a pass-through gate from all its parents. */
    method PropagateNullGate(g: int, held: set<int>) returns (ghost steps: seq<Step>)
      requires Valid() && AllComplete(gates) && IsNull(gates, g)
      requires !registerNullGates && g in held && forall h <- held :: h in gates
      modifies this`gates, this`parents, this`nodeIndex, this`nullGates, this`rank
      ensures Valid() && AllComplete(gates) && forall h <- held :: h in gates
      ensures Run(old(Now()), Now(), 0, steps, rule) && Orphan(parents, g)
      ensures nullGates == old(nullGates)
      decreases TotalVotes(gates), TotalHeights(gates, rank), 1
    {
      hide Sound, Registered, Run, AllComplete, TotalVotes, TotalHeights;
      SoundFacts(gates, parents, variables, nodeIndex, rank);
      steps := [];
      RunNone(Now(), rule);
      while !Orphan(parents, g)
        invariant Valid() && AllComplete(gates) && IsNull(gates, g) && forall h <- held :: h in gates
        invariant Run(old(Now()), Now(), 0, steps, rule)
        invariant nullGates == old(nullGates)
        decreases TotalVotes(gates), TotalHeights(gates, rank)
      {
        ghost var before := Now();
        ghost var next := JoinParent(g, held);
        SoundFacts(gates, parents, variables, nodeIndex, rank);
        RunTwice(old(Now()), before, Now(), 0, steps, next, rule);
        steps := steps + next;
      }
    }

    /** Removes all pass-through gates but the root. The functions of all gates stay the same
        unless one of the steps drops the wrong argument of a K/N gate. No step does so with the
        rule of the comments, or if each K/N gate of the graph has no pass-through gates below it
        or arguments that reach no nodes in common. */
    method RemoveNullGates() returns (ghost steps: seq<Step>)
      requires Valid() && AllComplete(gates) && root in gates
      requires registerNullGates && AreNull(gates, nullGates, nodeIndex)
      requires forall g <- gates :: g == root <==> Orphan(parents, g)
      modifies this`gates, this`parents, this`nodeIndex, this`nullGates, this`rank, this`registerNullGates
      ensures Valid() && AllComplete(gates) && root in gates && nullGates == [] && registerNullGates
      ensures forall g <- gates :: g == root <==> Orphan(parents, g)
      ensures forall g <- gates :: gates[g].kind.Null? || gates[g].constant ==> g == root
      ensures old(gates)[root].kind.Null? ==> gates[root].kind.Null?
      ensures Leads(old(Now()), steps, Now(), rule)
      ensures !Deviated(steps, rule) ==> SameValues(old(gates), old(rank), gates, rank)
      ensures rule.AsDocumented? ==> SameValues(old(gates), old(rank), gates, rank)
      ensures Separate(old(gates), old(rank)) ==> SameValues(old(gates), old(rank), gates, rank) && !Deviated(steps, rule)
      ensures Separate(old(gates), old(rank)) ==> Separate(gates, rank)
    {
      hide Sound, Run, AllComplete, Trimmed, Separate, Certifiable, Deviated, Leads;
      SoundFacts(gates, parents, variables, nodeIndex, rank);
      RegisteredNulls(gates, parents, nullGates, root);
      steps := [];
      RunNone(Now(), rule);
      registerNullGates := false;
      for i := 0 to |nullGates|
        invariant Valid() && AllComplete(gates) && root in gates
        invariant !registerNullGates && nullGates == old(nullGates)
        invariant forall g <- gates :: g == root || !Orphan(parents, g)
        invariant Pending(gates, parents, nullGates[i..])
        invariant Run(old(Now()), Now(), 0, steps, rule)
      {
        var g := nullGates[i];
        if g in gates {
          ghost var before := Now();
          assert g in old(nullGates);
          StaysRegistered(old(Now()), Now(), steps, rule, g);
          ghost var next := PropagateNullGate(g, {root, g});
          SoundFacts(gates, parents, variables, nodeIndex, rank);
          RunTwice(old(Now()), before, Now(), 0, steps, next, rule);
          steps := steps + next;
          ghost var propagated := Now();
          PendingNext(before, propagated, nullGates[i..], next, rule);
          Reclaim({root});
          SoundFacts(gates, parents, variables, nodeIndex, rank);
          ghost var removal := [Removal(propagated, Now())];
          RunTwice(old(Now()), propagated, Now(), 0, steps, removal, rule);
          PendingKept(propagated, Now(), nullGates[i + 1..], removal, rule);
          steps := steps + removal;
        } else {
          PendingGone(gates, parents, nullGates[i..]);
        }
      }
      RunMeans(old(Now()), Now(), steps, rule, root);
      DocumentedSteps(steps);
      SeparateIs(old(gates), old(parents), variables, old(nodeIndex), old(rank));
      SeparateIs(gates, parents, variables, nodeIndex, rank);
      NothingPending(gates, parents, variables, nodeIndex, rank, root);
      nullGates := [];
      registerNullGates := true;
    }

    /** Makes all arguments complements of themselves. */
    method NegateArgs(g: int)
      requires Valid() && g in gates
      modifies this`gates
      ensures Valid() && gates == old(gates)[g := old(gates)[g].Negated()]
    {
      hide Sound;
      SoundNegated(gates, parents, variables, nodeIndex, rank, g);
      gates := gates[g := gates[g].Negated()];
    }

    /** Whether the graph is a single variable or constant; a pass-through root gives way to
        its argument gate. The function of the graph stays the same unless a step of the
        removal drops the wrong argument of a K/N gate. */
    method IsTrivial() returns (trivial: bool, ghost steps: seq<Step>, ghost removed: Snapshot)
      requires Valid() && AllComplete(gates) && root in gates
      requires registerNullGates && AreNull(gates, nullGates, nodeIndex)
      requires forall g <- gates :: g == root <==> Orphan(parents, g)
      modifies this
      ensures Valid() && AllComplete(gates) && root in gates
      ensures forall g <- gates :: g == root <==> Orphan(parents, g)
      ensures trivial ==> !complement && gates[root].kind.Null? && gates[root].gateArgs == {}
      ensures !trivial ==> !gates[root].kind.Null?
      ensures !trivial && IsNull(old(gates), old(root)) ==> forall g <- gates :: !gates[g].kind.Null? && !gates[g].constant
      ensures !old(gates)[old(root)].kind.Null? ==> !trivial && steps == [] && Now() == old(Now()) && root == old(root)
      ensures registerNullGates && nullGates == if old(gates)[old(root)].kind.Null? then [] else old(nullGates)
      ensures Leads(old(Now()), steps, removed, rule)
      ensures gates == if old(gates)[old(root)].kind != Null then old(gates)
                       else if !trivial then removed.gates - {old(root)}
                       else if old(complement) && root in removed.gates then removed.gates[root := removed.gates[root].Negated()]
                       else removed.gates
      ensures !Deviated(steps, rule) || rule.AsDocumented? || Separate(old(gates), old(rank)) ==>
                SameGraph(old(Now()), old(root), old(complement), Now(), root, complement)
      ensures Separate(old(gates), old(rank)) ==> !Deviated(steps, rule)
    {
      hide Sound, AllComplete, Separate, SameValues, SameGraph, Deviated, Leads;
      SoundFacts(gates, parents, variables, nodeIndex, rank);
      SameGraphAgain(Now(), root, complement);
      if gates[root].kind != Null {
        trivial, steps, removed := false, [], Now();
        NoSteps(Now(), rule);
        return;
      }
      steps := RemoveNullGates();
      removed := Now();
      DocumentedSteps(steps);
      if !Deviated(steps, rule) {
        SameValuesSameGraph(old(Now()), Now(), root, complement);
      }
      trivial := gates[root].gateArgs == {};
      if !trivial {
        PullRoot();
      } else if complement {
        NegateRoot();
      } else {
        SoundFacts(gates, parents, variables, nodeIndex, rank);
        SameGraphAgain(Now(), root, complement);
      }
      if !Deviated(steps, rule) {
        SameGraphTwice(old(Now()), old(root), old(complement), removed, old(root), old(complement), Now(), root, complement);
      }
    }

    /** The argument gate of a pass-through root becomes the root. */
    method PullRoot()
      requires Valid() && AllComplete(gates) && IsNull(gates, root) && gates[root].gateArgs != {}
      requires forall g <- gates :: g == root <==> Orphan(parents, g)
      requires forall g <- gates :: gates[g].kind.Null? || gates[g].constant ==> g == root
      modifies this`gates, this`parents, this`root, this`complement
      ensures Valid() && AllComplete(gates) && root in gates
      ensures forall g <- gates :: g == root <==> Orphan(parents, g)
      ensures forall g <- gates :: !gates[g].kind.Null? && !gates[g].constant
      ensures gates == old(gates) - {old(root)}
      ensures SameGraph(old(Now()), old(root), old(complement), Now(), root, complement)
    {
      hide Sound, SameGraph, Gate.Complete;
      ghost var some := Some(gates[root].gateArgs);
      var index :| index in gates[root].gateArgs;
      RootArgument(gates, parents, variables, nodeIndex, rank, root, index);
      RemoveGate(root);
      PulledRoot(old(Now()), Now(), variables, root, complement, index);
      root := Abs(index);
      complement := complement != (index < 0);
    }

    method NegateRoot()
      requires Valid() && AllComplete(gates) && IsNull(gates, root) && gates[root].gateArgs == {}
      requires forall g <- gates :: g == root <==> Orphan(parents, g)
      requires complement
      modifies this`gates, this`complement
      ensures Valid() && AllComplete(gates) && IsNull(gates, root) && gates[root].gateArgs == {} && !complement
      ensures forall g <- gates :: g == root <==> Orphan(parents, g)
      ensures gates == old(gates)[root := old(gates)[root].Negated()]
      ensures SameGraph(old(Now()), root, true, Now(), root, false)
    {
      hide Sound, SameGraph, Gate.Complete;
      NegateArgs(root);
      NegatedRoot(old(Now()), Now(), variables, root);
      complement := false;
    }

    /** Gives another gate an argument of this gate. */
    method ShareArg(g: int, index: int, recipient: int)
      requires Valid() && g in gates && recipient in gates && g != recipient
      requires Abs(index) != 1 && index in gates[g].args && gates[recipient].Accepts(index)
      requires Abs(index) in gates ==> Abs(index) in rank && recipient in rank && rank[Abs(index)] < rank[recipient]
      modifies this`gates, this`parents, this`nodeIndex, this`nullGates, this`rank
      ensures Valid() && Added(old(gates), gates, recipient, index, old(nodeIndex), rule)
    {
      hide Sound, Added;
      ArgumentNodes(gates, parents, variables, nodeIndex, rank, g);
      AddArg(recipient, index);
    }

    /** Replaces one argument with its complement. */
    method NegateArg(g: int, index: int)
      requires Valid() && g in gates && index in gates[g].args && Abs(index) != 1
      modifies this`gates, this`parents
      ensures Valid()
      ensures gates == old(gates)[g := old(gates)[g].Without(index).With(-index, Abs(index) in old(gates))]
    {
      hide Sound;
      ArgumentNodes(gates, parents, variables, nodeIndex, rank, g);
      NoConstantBeside(gates, parents, variables, nodeIndex, rank, g, index);
      EraseArg(g, index);
      AttachArg(g, -index);
    }

    /** Removes an argument that is known to be true or false. */
    method ProcessConstantArg(g: int, n: int, state: bool)
      requires Valid() && g in gates && n > 1 && Occurs(gates[g].args, n)
      requires var index := if n in gates[g].args then n else -n;
               gates[g].Without(index).Accepts(if state == (index > 0) then 1 else -1)
      modifies this`gates, this`parents, this`nullGates
      ensures Valid()
      ensures var index := if n in old(gates)[g].args then n else -n;
              gates == old(gates)[g := WithConstant(old(gates)[g].Without(index), state == (index > 0))]
      ensures forall w: Valuation | 1 in w && (n in w <==> state) :: Holds(gates[g], w) <==> Holds(old(gates)[g], w)
    {
      hide Sound, Gate.Accepts, WithConstant, Holds;
      var index := if n in gates[g].args then n else -n;
      forall w: Valuation | 1 in w && (n in w <==> state)
        ensures Holds(WithConstant(gates[g].Without(index), state == (index > 0)), w) <==> Holds(gates[g], w)
      {
        ConstantArgumentLaw(gates[g], index, state == (index > 0), w);
      }
      EraseArg(g, index);
      AddConstantArg(g, state == (index > 0));
    }

    /** Takes over the arguments of an argument gate of the same logic. */
    method CoalesceGate(g: int, h: int)
      requires Valid() && g in gates && h in gates && h in gates[g].args
      requires gates[g].Complete() && gates[h].Complete() && Coalesces(gates[g].kind, gates[h].kind)
      modifies this`gates, this`parents, this`nodeIndex, this`nullGates, this`rank
      ensures Valid() && gates.Keys == old(gates).Keys && g in gates && gates[g].Complete()
      ensures forall f <- old(gates) :: f in gates && (f != g ==> gates[f] == old(gates)[f])
      ensures forall w: Valuation | 1 in w && (h in w <==> Holds(old(gates)[h], w)) :: Holds(gates[g], w) <==> Holds(old(gates)[g], w)
    {
      hide Sound, Registered, Holds, Gate.Accepts, Insert, WithConstant, Splits, IsSplit, Gate.Complete;
      ghost var gate, other := gates[g], gates[h];
      CoalesceReady(gates, parents, variables, nodeIndex, rank, g, h);
      var rest := gates[h].args;
      ghost var nodes := parents.Keys;
      while rest != {}
        invariant Valid() && rest <= other.args && rank == old(rank) && parents.Keys == nodes
        invariant g in gates && gates == old(gates)[g := gates[g]] && CoalescedTo(gate, other.args - rest, gates[g])
        decreases rest
      {
        ghost var some := Some(rest);
        var i :| i in rest;
        ghost var done, current := other.args - rest, gates[g];
        assert i in other.args;
        ArgumentNodes(gates, parents, variables, nodeIndex, rank, g);
        CoalesceAdd(current, gate, other, done, i, Abs(i) in gates, rule);
        AddArg(g, i);
        SameNodes(old(gates), old(parents), gates, parents, variables, old(nodeIndex), nodeIndex, rank);
        if gates[g].constant {
          CoalescedConstant(gate, other, h, i, gates[g]);
          return;
        }
        rest := rest - {i};
        assert other.args - rest == done + {i};
      }
      assert other.args - {} == other.args;
      CoalescedAll(gate, other, gates[g], h);
      EraseArg(g, h);
    }

    /** Complements the arguments that are NOT, NAND or NOR gates. The gate keeps its value
        if these gates are then turned into their complements. */
    method NegateNonCoherentGateArgs(g: int)
      requires Valid() && g in gates && !gates[g].constant
      modifies this`gates, this`parents
      ensures Valid()
      ensures gates == old(gates)[g := old(gates)[g].Flipped(NonCoherentNodes(old(gates), old(gates)[g].gateArgs))]
      ensures forall i <- old(gates)[g].gateArgs :: SignFollows(old(gates), gates[g].args, i)
      ensures forall w: Valuation, w': Valuation | Exchanged(old(gates)[g].args, NonCoherentNodes(old(gates), old(gates)[g].gateArgs), w, w') ::
                Holds(gates[g], w') <==> Holds(old(gates)[g], w)
    {
      hide Sound, Gate.Flipped, Gate.With, Gate.Without, NonCoherentNodes, Gate.Tidy, Holds, Exchanged, SignFollows;
      ghost var gate := gates[g];
      GateArguments(gates, parents, variables, nodeIndex, rank, g);
      FlippedNone(gate);
      var rest := gates[g].gateArgs;
      ghost var flip: set<int> := {};
      NoNodes(gates, gate, rest);
      while rest != {}
        invariant Valid() && rest <= gate.gateArgs && gates == old(gates)[g := gate.Flipped(flip)]
        invariant flip == NonCoherentNodes(old(gates), gate.gateArgs - rest)
        decreases rest
      {
        ghost var some := Some(rest);
        var i :| i in rest;
        assert i in gate.gateArgs;
        NodesNext(old(gates), gate, rest, i);
        if NonCoherent(gates[Abs(i)].kind) {
          assert !Conflicts(gate.args, i) && !Conflicts(gate.gateArgs, i);
          FlippedNext(gate, flip, i);
          NegateArg(g, i);
          UpdateTwice(old(gates), g, gate.Flipped(flip), gate.Flipped(flip + {Abs(i)}));
          flip := flip + {Abs(i)};
        }
        rest := rest - {i};
      }
      assert gate.gateArgs - {} == gate.gateArgs;
      ArgumentNodes(old(gates), old(parents), variables, nodeIndex, rank, g);
      forall i <- gate.gateArgs
        ensures SignFollows(old(gates), gates[g].args, i)
      {
        assert !Conflicts(gate.args, i);
        FlippedSigns(old(gates), gate, i);
      }
      forall w: Valuation, w': Valuation | Exchanged(gate.args, flip, w, w')
        ensures Holds(gates[g], w') <==> Holds(gate, w)
      {
        FlippedLaw(gate, flip, w, w');
      }
    }
  }
}
