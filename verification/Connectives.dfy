/** Gates of a propositional graph before normalisation: eight connectives over signed
    arguments. A connective is symmetric, so its value depends only on how many of its
    arguments are true. */
module Connectives {
  import opened Indices
  import opened Sets

  /** The indices of the nodes that are true. Index 1 is the constant TRUE. */
  type Valuation = iset<int>

  datatype Connective = And | Or | Atleast | Xor | Not | Nand | Nor | Null

  /** Which argument is left of a K/N gate with two arguments that gets one of them again: the
      other one, as the code has it, or the same one, as its comments say. */
  datatype PairRule = AsWritten | AsDocumented

  predicate Connect(kind: Connective, minNumber: int, trues: nat, size: nat) {
    match kind
    case And => trues == size
    case Or => trues >= 1
    case Atleast => trues >= minNumber
    case Xor => trues == 1
    case Not => trues == 0
    case Nand => trues < size
    case Nor => trues == 0
    case Null => trues == 1
  }

  /** The signed arguments of a gate, and the containers that hold the argument nodes. */
  datatype Gate = Gate(kind: Connective, minNumber: int, args: set<int>, gateArgs: set<int>, variableArgs: set<int>, constant: bool)
  {
    /** Every argument is in exactly one container, and never beside its complement. */
    ghost predicate Tidy() {
      && gateArgs !! variableArgs
      && (if constant
          then gateArgs == {} && variableArgs == {} && (args == {1} || args == {-1}) && kind.Null?
          else args == gateArgs + variableArgs && 1 !in args && -1 !in args)
      && 0 !in args
      && NoConflicts(args)
    }

    /** The number of arguments that the connective demands. */
    predicate Complete() {
      match kind
      case And | Or | Nand | Nor => |args| >= 2
      case Xor => |args| == 2
      case Atleast => |args| > minNumber >= 2
      case Not | Null => |args| == 1
    }

    /** A complete gate that has lost one argument. */
    predicate Partial() {
      && !constant
      && match kind
         case And | Or | Nand | Nor => |args| >= 1
         case Xor => |args| == 1
         case Atleast => |args| >= minNumber >= 2
         case Not | Null => |args| == 0
    }

    /** What the gate demands before one more argument is added to it. */
    predicate Accepts(index: int) {
      && !constant
      && index != 0
      && (kind.Not? || kind.Null? ==> args == {})
      && (kind.Xor? ==> |args| <= 1)
      && (kind.Atleast? && (index in args || -index in args) ==> |args| >= minNumber > 1)
      && (Abs(index) == 1 ==>
            match kind
            case And | Or | Nand | Nor => args != {}
            case Xor => |args| == 1
            case Atleast => |args| >= 2 && |args| >= minNumber > 0
            case Not | Null => true)
    }

    function Without(i: int): Gate {
      Gate(kind, minNumber, args - {i}, gateArgs - {i}, variableArgs - {i}, constant && i !in args)
    }

    function With(i: int, toGate: bool): Gate {
      if toGate
      then Gate(kind, minNumber, args + {i}, gateArgs + {i}, variableArgs, constant)
      else Gate(kind, minNumber, args + {i}, gateArgs, variableArgs + {i}, constant)
    }

    /** Every argument replaced with its complement. */
    function Negated(): Gate {
      Gate(kind, minNumber, Complements(args), Complements(gateArgs), Complements(variableArgs), constant)
    }

    /** The arguments of some nodes replaced with their complements. */
    function Flipped(flip: set<int>): Gate {
      Gate(kind, minNumber, FlipAll(args, flip), FlipAll(gateArgs, flip), FlipAll(variableArgs, flip), constant)
    }

    /** The gate with one of its arguments alone. */
    function Only(i: int): Gate {
      Gate(kind, minNumber, {i}, gateArgs * {i}, variableArgs * {i}, false)
    }

    /** The gate without any arguments. */
    function Bare(): Gate {
      Gate(kind, minNumber, {}, {}, {}, false)
    }

    /** The duplicate argument of a K/N gate with two arguments: the one case in which the
        code keeps the wrong argument. */
    predicate Deviates(index: int, rule: PairRule) {
      rule.AsWritten? && kind.Atleast? && index in args && |args| == 2
    }
  }

  ghost predicate Literal(i: int, w: Valuation) {
    (Abs(i) in w) == (i > 0)
  }

  ghost function Trues(args: set<int>, w: Valuation): set<int> {
    set i <- args | Literal(i, w)
  }

  ghost predicate Holds(gate: Gate, w: Valuation) {
    Connect(gate.kind, gate.minNumber, |Trues(gate.args, w)|, |gate.args|)
  }

  /** The connective over the arguments of a gate and one more argument. */
  ghost predicate HoldsWith(gate: Gate, index: int, w: Valuation) {
    Connect(gate.kind, gate.minNumber, |Trues(gate.args, w)| + (if Literal(index, w) then 1 else 0), |gate.args| + 1)
  }

  lemma TruesGrow(args: set<int>, index: int, w: Valuation)
    requires index !in args
    ensures |Trues(args + {index}, w)| == |Trues(args, w)| + (if Literal(index, w) then 1 else 0)
    ensures |args + {index}| == |args| + 1
  {
    if Literal(index, w) {
      assert Trues(args + {index}, w) == Trues(args, w) + {index};
    } else {
      assert Trues(args + {index}, w) == Trues(args, w);
    }
  }

  lemma TruesShrink(args: set<int>, index: int, w: Valuation)
    requires index in args
    ensures |Trues(args, w)| == |Trues(args - {index}, w)| + (if Literal(index, w) then 1 else 0)
    ensures |args| == |args - {index}| + 1
  {
    TruesGrow(args - {index}, index, w);
    assert args - {index} + {index} == args;
  }

  lemma TruesBound(args: set<int>, w: Valuation)
    ensures |Trues(args, w)| <= |args|
    ensures |Trues(args, w)| == |args| <==> forall i <- args :: Literal(i, w)
    ensures |Trues(args, w)| == 0 <==> forall i <- args :: !Literal(i, w)
  {
    var trues := Trues(args, w);
    Subset(trues, args);
    if forall i <- args :: Literal(i, w) {
      SameSet(trues, args);
    }
    if |trues| > 0 {
      var i := Some(trues);
    }
    forall i <- args
      ensures Literal(i, w) ==> |trues| > 0
    {
      if Literal(i, w) {
        HasElement(trues, i);
      }
    }
  }

  lemma TruesOfOne(i: int, w: Valuation)
    ensures |Trues({i}, w)| == if Literal(i, w) then 1 else 0
  {
    assert Trues({i}, w) == if Literal(i, w) then {i} else {};
  }

  /** Two distinct arguments. */
  lemma TruesOfTwo(i: int, j: int, w: Valuation)
    requires i != j
    ensures |Trues({i, j}, w)| == (if Literal(i, w) then 1 else 0) + if Literal(j, w) then 1 else 0
    ensures |{i, j}| == 2
  {
    TruesOfOne(i, w);
    TruesGrow({i}, j, w);
    assert {i} + {j} == {i, j};
  }

  /** Adding a new argument. */
  lemma FreshArgument(gate: Gate, grown: Gate, index: int, w: Valuation)
    requires grown.kind == gate.kind && grown.minNumber == gate.minNumber && grown.args == gate.args + {index}
    requires index !in gate.args
    ensures Holds(grown, w) <==> HoldsWith(gate, index, w)
  {
    TruesGrow(gate.args, index, w);
  }

  /** Adding an argument that a gate other than K/N already has. */
  lemma DuplicateArgument(gate: Gate, index: int, w: Valuation)
    requires gate.Accepts(index) && index in gate.args && !gate.kind.Atleast?
    ensures gate.kind.Xor? ==> gate.args == {index} && !HoldsWith(gate, index, w)
    ensures gate.kind in {And, Or} && |gate.args| == 1 ==> (HoldsWith(gate, index, w) <==> Holds(gate.(kind := Null), w))
    ensures gate.kind in {Nand, Nor} && |gate.args| == 1 ==> (HoldsWith(gate, index, w) <==> Holds(gate.(kind := Not), w))
    ensures !gate.kind.Xor? && |gate.args| > 1 ==> (HoldsWith(gate, index, w) <==> Holds(gate, w))
  {
    TruesShrink(gate.args, index, w);
    TruesBound(gate.args - {index}, w);
    TruesBound(gate.args, w);
    if |gate.args| == 1 {
      Subset({index}, gate.args);
    }
  }

  /** Adding the complement of an argument. */
  lemma ComplementArgument(gate: Gate, index: int, w: Valuation)
    requires gate.Accepts(index) && -index in gate.args && index !in gate.args
    ensures gate.kind in {And, Nor} ==> !HoldsWith(gate, index, w)
    ensures gate.kind in {Nand, Xor, Or} ==> HoldsWith(gate, index, w)
    ensures gate.kind.Atleast? ==>
              (HoldsWith(gate, index, w) <==> Connect(Atleast, gate.minNumber - 1, |Trues(gate.args - {-index}, w)|, |gate.args| - 1))
  {
    TruesShrink(gate.args, -index, w);
    TruesBound(gate.args - {-index}, w);
    assert Literal(index, w) != Literal(-index, w);
  }

  /** A duplicate of an argument x of a K/N gate: @(k, [x, x, y]) = x & @(k - 2, [y]) | @(k, [y]). */
  lemma DuplicateVote(gate: Gate, index: int, w: Valuation)
    requires gate.kind.Atleast? && index in gate.args
    ensures HoldsWith(gate, index, w) <==>
            || (Literal(index, w) && |Trues(gate.args - {index}, w)| >= gate.minNumber - 2)
            || |Trues(gate.args - {index}, w)| >= gate.minNumber
    ensures |Trues(gate.args - {index}, w)| <= |gate.args| - 1 == |gate.args - {index}|
  {
    TruesShrink(gate.args, index, w);
    TruesBound(gate.args - {index}, w);
  }

  /** The two-argument case as the code has it: the kept argument is the other one, so the
      new gate is not the old connective with the duplicate added. */
  lemma DuplicateOfPair(gate: Gate, index: int, other: int)
    requires gate.kind.Atleast? && gate.minNumber == 2
    requires index > 1 && other > 1 && index != other && gate.args == {index, other}
    ensures gate.Deviates(index, AsWritten)
    ensures !Holds(gate.(kind := Null, args := gate.args - {index}), iset{1, index}) && HoldsWith(gate, index, iset{1, index})
  {
    var w := iset{1, index};
    TruesOfTwo(index, other, w);
    assert gate.args - {index} == {other};
    TruesOfOne(other, w);
  }

  /** The two-argument case as the comments have it: @(2, [x, x, y]) = x. */
  lemma DuplicateAlone(gate: Gate, index: int, w: Valuation)
    requires gate.kind.Atleast? && gate.minNumber == 2 && index in gate.args && |gate.args| == 2
    ensures Holds(gate.Only(index).(kind := Null), w) <==> HoldsWith(gate, index, w)
  {
    DuplicateVote(gate, index, w);
    TruesOfOne(index, w);
  }

  /** De Morgan: negated arguments exchange the true ones and the false ones. */
  lemma {:induction false} NegatedTrues(args: set<int>, negated: set<int>, w: Valuation)
    requires 0 !in args
    requires forall i :: i in args <==> Conflicts(negated, i)
    ensures |negated| == |args| && |Trues(negated, w)| == |args| - |Trues(args, w)|
  {
    if args == {} {
      assert forall i <- negated :: Conflicts(negated, -i);
      assert negated == {};
    } else {
      var i := Some(args);
      assert -(-i) == i;
      TruesShrink(args, i, w);
      TruesShrink(negated, -i, w);
      assert Literal(i, w) != Literal(-i, w);
      NegatedTrues(args - {i}, negated - {-i}, w);
    }
  }

  lemma FlippedSome(args: set<int>, flipped: set<int>, flip: set<int>)
    requires forall i :: i in flipped <==> Flip(i, flip) in args
    ensures flipped != {} ==> args != {}
  {
    if flipped != {} {
      var i := Some(flipped);
      assert Flip(i, flip) in args;
    }
  }

  /** Flipping arguments together with the values of their nodes changes nothing. */
  lemma {:induction false} FlippedTrues(args: set<int>, flipped: set<int>, flip: set<int>, w: Valuation, w': Valuation)
    requires 0 !in args && forall i :: i in flipped <==> Flip(i, flip) in args
    requires forall i <- args :: Abs(i) in w' <==> (Abs(i) in w) != (Abs(i) in flip)
    ensures |flipped| == |args| && |Trues(flipped, w')| == |Trues(args, w)|
  {
    FlippedSome(args, flipped, flip);
    if args != {} {
      var i := Some(args);
      var j := Flip(i, flip);
      assert Flip(j, flip) == i;
      forall k
        ensures k in flipped - {j} <==> Flip(k, flip) in args - {i}
      {
        assert Flip(Flip(k, flip), flip) == k;
      }
      TruesShrink(args, i, w);
      TruesShrink(flipped, j, w');
      assert Literal(i, w) == Literal(j, w');
      FlippedTrues(args - {i}, flipped - {j}, flip, w, w');
    }
  }

  function Dual(kind: Connective): Connective {
    match kind
    case And => Nor
    case Nor => And
    case Or => Nand
    case Nand => Or
    case Not => Null
    case Null => Not
    case Atleast => Atleast
    case Xor => Xor
  }

  /** Negating the arguments of a gate is the same as taking the dual connective; K/N
      becomes (N - K + 1)/N of the complement. */
  lemma DeMorgan(gate: Gate, negated: Gate, w: Valuation)
    requires negated.kind == gate.kind && negated.minNumber == gate.minNumber
    requires 0 !in gate.args && forall i :: i in gate.args <==> Conflicts(negated.args, i)
    requires gate.kind.Xor? ==> |gate.args| == 2
    requires gate.kind in {Not, Null} ==> |gate.args| == 1
    ensures !gate.kind.Atleast? ==> (Holds(negated, w) <==> Holds(gate.(kind := Dual(gate.kind)), w))
    ensures gate.kind.Atleast? ==> (Holds(negated, w) <==> !Holds(gate.(minNumber := |gate.args| - gate.minNumber + 1), w))
  {
    NegatedTrues(gate.args, negated.args, w);
    TruesBound(gate.args, w);
  }
}
