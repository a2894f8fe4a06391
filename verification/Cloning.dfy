/** Copies of formulas for the paths of an event tree, in which house events have been set. */
module Cloning {
  import opened Formulas

  /** A formula with its gates, which form a tree after the detection of cycles. */
  datatype Term =
    | Basic(id: string)
    | House(id: string, state: bool)
    | Gate(id: string, kind: Kind, minNumber: int, maxNumber: int, args: seq<Argument>)

  datatype Argument = Argument(term: Term, complement: bool)

  type Settings = map<string, bool>

  /** House events get the states that have been set; gates are copied if any have been. */
  function Clone(t: Term, settings: Settings): Term
    decreases t
  {
    match t
    case Basic(_) => t
    case House(id, state) =>
      if id in settings && settings[id] != state then House("__clone__." + id, settings[id]) else t
    case Gate(id, kind, minNumber, maxNumber, args) =>
      if settings == map[] then t
      else Gate("__clone__." + id, kind, minNumber, maxNumber, CloneArgs(args, settings))
  }

  function CloneArgs(args: seq<Argument>, settings: Settings): (r: seq<Argument>)
    ensures |r| == |args|
    decreases args
  {
    if args == [] then []
    else CloneArgs(args[..|args| - 1], settings)
         + [CloneArg(args[|args| - 1], settings)]
  }

  function CloneArg(arg: Argument, settings: Settings): Argument
    decreases arg
  {
    Argument(Clone(arg.term, settings), arg.complement)
  }

  /** The value of a term when house events have the states that are set, if any. */
  ghost predicate Value(t: Term, settings: Settings, true_: iset<string>)
    decreases t
  {
    match t
    case Basic(id) => id in true_
    case House(id, state) => if id in settings then settings[id] else state
    case Gate(_, kind, minNumber, maxNumber, args) => Evaluate(kind, minNumber, maxNumber, Values(args, settings, true_))
  }

  ghost function Values(args: seq<Argument>, settings: Settings, true_: iset<string>): (r: seq<bool>)
    ensures |r| == |args|
    decreases args
  {
    if args == [] then []
    else Values(args[..|args| - 1], settings, true_)
         + [ArgValue(args[|args| - 1], settings, true_)]
  }

  ghost predicate ArgValue(arg: Argument, settings: Settings, true_: iset<string>)
    decreases arg
  {
    Value(arg.term, settings, true_) != arg.complement
  }

  /** The copy has the value that the original has under the settings. */
  lemma {:induction false} CloneValue(t: Term, settings: Settings, true_: iset<string>)
    ensures Value(Clone(t, settings), map[], true_) == Value(t, settings, true_)
    decreases t
  {
    if t.Gate? {
      CloneArgsValues(t.args, settings, true_);
    }
  }

  lemma {:induction false} CloneArgsValues(args: seq<Argument>, settings: Settings, true_: iset<string>)
    ensures Values(CloneArgs(args, settings), map[], true_) == Values(args, settings, true_)
    ensures settings == map[] ==> Values(args, map[], true_) == Values(args, settings, true_)
    decreases args
  {
    if args != [] {
      CloneArgsValues(args[..|args| - 1], settings, true_);
      CloneArgValue(args[|args| - 1], settings, true_);
    }
  }

  lemma {:induction false} CloneArgValue(arg: Argument, settings: Settings, true_: iset<string>)
    ensures ArgValue(CloneArg(arg, settings), map[], true_) == ArgValue(arg, settings, true_)
    decreases arg
  {
    CloneValue(arg.term, settings, true_);
  }
}
