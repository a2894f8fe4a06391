/** Finite sets. */
module Sets {
  lemma Some<T>(s: set<T>) returns (x: T)
    requires s != {}
    ensures x in s
  {
    x :| x in s;
  }

  lemma HasElement<T>(s: set<T>, x: T)
    requires x in s
    ensures |s| > 0
  {
  }

  lemma SameSet<T>(s: set<T>, t: set<T>)
    requires forall x: T :: x in s <==> x in t
    ensures s == t
  {
  }

  lemma {:induction false} Subset(s: set<int>, t: set<int>)
    requires s <= t
    ensures |s| <= |t|
    ensures |s| == |t| ==> s == t
  {
    if s != {} {
      var x := Some(s);
      Subset(s - {x}, t - {x});
      assert s - {x} + {x} == s && t - {x} + {x} == t;
    }
  }

  /** The elements of a set in some order. */
  method Listed(s: set<int>) returns (list: seq<int>)
    ensures forall x :: x in list <==> x in s
  {
    list := [];
    var rest := s;
    while rest != {}
      invariant rest <= s && forall x :: x in list <==> x in s && x !in rest
    {
      ghost var some := Some(rest);
      var x :| x in rest;
      list := list + [x];
      rest := rest - {x};
    }
  }

  function Elements(s: seq<int>): set<int> {
    if s == [] then {} else Elements(s[..|s| - 1]) + {s[|s| - 1]}
  }

  lemma {:induction false} ElementsAre(s: seq<int>, x: int)
    ensures x in Elements(s) <==> x in s
  {
    if s != [] {
      ElementsAre(s[..|s| - 1], x);
      assert s == s[..|s| - 1] + [s[|s| - 1]];
    }
  }
}
