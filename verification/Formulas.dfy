/** Formulas of fault trees, with eleven connectives over basic events, gates and house
    events, and their meaning. */
module Formulas {
  import opened Connectives

  datatype Event = BasicEvent(id: int) | GateEvent(id: int) | HouseEvent(state: bool)

  datatype Arg = Arg(event: Event, complement: bool)

  datatype Kind = Core(connective: Connective) | Iff | Imply | Cardinality

  datatype Formula = Formula(kind: Kind, minNumber: int, maxNumber: int, args: seq<Arg>)

  /** A fault tree; with common causes, some basic events stand for gates. */
  datatype FaultTree = FaultTree(gates: map<int, Formula>, ccf: map<int, int>, rank: map<int, nat>)
  {
    /** A basic event of a common cause group gives way to its gate. */
    function Resolve(e: Event): Event {
      if e.BasicEvent? && e.id in ccf then GateEvent(ccf[e.id]) else e
    }

    /** The gates of a formula have ranks below the limit. */
    ghost predicate Below(f: Formula, level: nat) {
      forall i | 0 <= i < |f.args| :: EventBelow(f.args[i].event, level)
    }

    ghost predicate EventBelow(e: Event, level: nat) {
      var r := Resolve(e);
      r.GateEvent? ==> r.id in gates && r.id in rank && rank[r.id] < level
    }

    /** The arguments of a formula are distinct, and their number suits the connective. */
    ghost predicate WellFormed(f: Formula) {
      && (forall i, j | 0 <= i < j < |f.args| ::
            Resolve(f.args[i].event).HouseEvent? || Resolve(f.args[i].event) != Resolve(f.args[j].event))
      && match f.kind
         case Core(Not) => |f.args| == 1
         case Core(Null) => |f.args| == 1
         case Core(Xor) => |f.args| == 2
         case Core(Atleast) => 2 <= f.minNumber < |f.args|
         case Core(_) => |f.args| >= 2
         case Iff => |f.args| == 2
         case Imply => |f.args| == 2
         case Cardinality => 0 <= f.minNumber <= f.maxNumber <= |f.args| && f.args != []
    }

    ghost predicate Valid() {
      forall g <- gates :: g in rank && Below(gates[g], rank[g]) && WellFormed(gates[g])
    }

    /** The value of a formula under the basic events that are true. */
    ghost predicate Value(f: Formula, level: nat, true_: iset<int>)
      requires Valid() && Below(f, level)
      decreases level, 2
    {
      Meaning(f, ArgValues(f, level, true_))
    }

    ghost function ArgValues(f: Formula, level: nat, true_: iset<int>): (r: seq<bool>)
      requires Valid() && Below(f, level)
      ensures |r| == |f.args|
      decreases level, 1
    {
      seq(|f.args|, i requires 0 <= i < |f.args| =>
            EventValue(f.args[i].event, level, true_) != f.args[i].complement)
    }

    ghost predicate EventValue(e: Event, level: nat, true_: iset<int>)
      requires Valid() && EventBelow(e, level)
      decreases level, 0
    {
      match Resolve(e)
      case BasicEvent(b) => b in true_
      case HouseEvent(state) => state
      case GateEvent(g) => Value(gates[g], rank[g], true_)
    }
  }

  /** A basic event with a common cause has the value of its gate, and any other one its own
      value; gates and house events have theirs. */
  lemma EventMeaning(tree: FaultTree, e: Event, level: nat, true_: iset<int>)
    requires tree.Valid() && tree.EventBelow(e, level)
    ensures e.BasicEvent? && e.id !in tree.ccf ==> (tree.EventValue(e, level, true_) <==> e.id in true_)
    ensures e.BasicEvent? && e.id in tree.ccf ==>
              var g := tree.ccf[e.id];
              && g in tree.gates && g in tree.rank && tree.rank[g] < level
              && (tree.EventValue(e, level, true_) <==> tree.Value(tree.gates[g], tree.rank[g], true_))
    ensures e.GateEvent? ==>
              && e.id in tree.gates && e.id in tree.rank && tree.rank[e.id] < level
              && (tree.EventValue(e, level, true_) <==> tree.Value(tree.gates[e.id], tree.rank[e.id], true_))
    ensures e.HouseEvent? ==> (tree.EventValue(e, level, true_) <==> e.state)
  {
  }

  function Count(values: seq<bool>): nat {
    if values == [] then 0
    else Count(values[..|values| - 1]) + if values[|values| - 1] then 1 else 0
  }

  /** The connective over the values of the arguments. */
  ghost predicate Meaning(f: Formula, values: seq<bool>)
    requires |values| == |f.args|
  {
    Evaluate(f.kind, f.minNumber, f.maxNumber, values)
  }

  ghost predicate Evaluate(kind: Kind, minNumber: int, maxNumber: int, values: seq<bool>) {
    match kind
    case Core(connective) => Connect(connective, minNumber, Count(values), |values|)
    case Iff => |values| == 2 && (values[0] <==> values[1])
    case Imply => |values| == 2 && (values[0] ==> values[1])
    case Cardinality => minNumber <= Count(values) <= maxNumber
  }
}
