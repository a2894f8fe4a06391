/** Signed indices: the sign of an argument tells whether it is complemented. */
module Indices {
  function Abs(i: int): nat {
    if i < 0 then -i else i
  }

  /** A node occurs among signed arguments, as itself or as its complement. */
  predicate Occurs(args: set<int>, n: int) {
    n in args || -n in args
  }

  /** The arguments without the node and its complement beside each other. */
  predicate NoConflicts(args: set<int>) {
    forall i <- args :: !Conflicts(args, i)
  }

  predicate Conflicts(args: set<int>, i: int) {
    -i in args
  }

  function Complements(args: set<int>): (r: set<int>)
    ensures forall i :: i in r <==> Conflicts(args, i)
    ensures args == {} ==> r == {}
  {
    var r := set i <- args :: -i;
    assert forall i :: Conflicts(args, i) ==> -(-i) in r;
    r
  }

  /** The argument with the other sign if its node is one of those to flip. */
  function Flip(i: int, flip: set<int>): int {
    if Abs(i) in flip then -i else i
  }

  function FlipAll(args: set<int>, flip: set<int>): (r: set<int>)
    ensures forall i :: i in r <==> Flip(i, flip) in args
  {
    var r := set i <- args :: Flip(i, flip);
    assert forall i :: Flip(Flip(i, flip), flip) == i;
    r
  }
}
