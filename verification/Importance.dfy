/** Birnbaum importance: how the probability of a diagram changes with one variable. */
module Importance {
  import opened Vertices
  import opened Expectation
  import opened Diagrams

  /** The probabilities conditioned on a state of variable `x`. */
  function Given(p: Probabilities, x: int, state: bool): (q: Probabilities)
    requires x in p
    ensures q.Keys == p.Keys
  {
    p[x := if state then 1.0 else 0.0]
  }

  /** The marginal importance factor by conditioning: P(v | x) - P(v | not x). */
  ghost function Mif(modules: Modules, p: Probabilities, v: Vertex, x: int): real
    requires Grounded(modules, p.Keys, v) && x in p
  {
    Prob(modules, Given(p, x, true), v) - Prob(modules, Given(p, x, false), v)
  }

  ghost function MifF(modules: Modules, p: Probabilities, f: Function, x: int): real
    requires Grounded(modules, p.Keys, f.vertex) && x in p
  {
    ProbF(modules, Given(p, x, true), f) - ProbF(modules, Given(p, x, false), f)
  }

  function Negated(c: bool, r: real): real {
    if c then -r else r
  }

  lemma Unfold(modules: Modules, p: Probabilities, v: Vertex)
    requires Grounded(modules, p.Keys, v) && v.Ite?
    ensures Prob(modules, p, v)
         == Mix(ChoiceProb(modules, p, v), Prob(modules, p, v.high), Complement(v.complementEdge, Prob(modules, p, v.low)))
    ensures ChoiceProb(modules, p, v)
         == if v.isModule
            then Complement(modules[v.index].complement, Prob(modules, p, modules[v.index].vertex))
            else p[v.index]
  {
  }

  lemma UnfoldGiven(modules: Modules, p: Probabilities, v: Vertex, x: int)
    requires Grounded(modules, p.Keys, v) && v.Ite? && x in p
    ensures forall state ::
              var q := Given(p, x, state);
              && Prob(modules, q, v)
                 == Mix(ChoiceProb(modules, q, v), Prob(modules, q, v.high), Complement(v.complementEdge, Prob(modules, q, v.low)))
              && ChoiceProb(modules, q, v)
                 == if v.isModule
                    then Complement(modules[v.index].complement, Prob(modules, q, modules[v.index].vertex))
                    else q[v.index]
  {
    forall state {
      Unfold(modules, Given(p, x, state), v);
    }
  }

  /** A variable outside the block of a diagram does not matter to its probability. */
  lemma {:induction false} OutsideBlock(layout: Layout, modules: Modules, p: Probabilities, v: Vertex, lo: int, hi: int,
                                        x: int, state: bool)
    requires Grounded(modules, p.Keys, v) && Laid(layout, modules, p.Keys, v, lo, hi)
    requires x in p && x in layout && !layout[x].isModule
    requires layout[x].order < lo || hi < layout[x].order
    ensures Prob(modules, Given(p, x, state), v) == Prob(modules, p, v)
    decreases v.Id()
  {
    if v.Ite? {
      var item := layout[v.index];
      assert 0 < item.lo <= item.order;
      Unfold(modules, p, v);
      UnfoldGiven(modules, p, v, x);
      hide Mix, Complement, Prob, ChoiceProb, ProbF;
      OutsideBlock(layout, modules, p, v.high, v.order + 1, hi, x, state);
      OutsideBlock(layout, modules, p, v.low, v.order + 1, hi, x, state);
      if v.isModule {
        OutsideBlock(layout, modules, p, modules[v.index].vertex, item.lo, v.order - 1, x, state);
      }
    }
  }

  /** A variable at or before the root does not matter to the branches. */
  lemma BranchesIndependent(layout: Layout, modules: Modules, p: Probabilities, v: Vertex, lo: int, hi: int, x: int, state: bool)
    requires Grounded(modules, p.Keys, v) && v.Ite? && Laid(layout, modules, p.Keys, v, lo, hi)
    requires x in p && x in layout && !layout[x].isModule && layout[x].order <= v.order
    ensures Prob(modules, Given(p, x, state), v.high) == Prob(modules, p, v.high)
    ensures Prob(modules, Given(p, x, state), v.low) == Prob(modules, p, v.low)
  {
    hide WellLaid, Mix, Prob, ChoiceProb, ProbF, Complement;
    assert Prob(modules, Given(p, x, state), v.high) == Prob(modules, p, v.high) by {
      OutsideBlock(layout, modules, p, v.high, v.order + 1, hi, x, state);
    }
    assert Prob(modules, Given(p, x, state), v.low) == Prob(modules, p, v.low) by {
      OutsideBlock(layout, modules, p, v.low, v.order + 1, hi, x, state);
    }
  }

  /** A variable after the root does not matter to the choice at the root. */
  lemma ChoiceIndependent(layout: Layout, modules: Modules, p: Probabilities, v: Vertex, lo: int, hi: int, x: int, state: bool)
    requires Grounded(modules, p.Keys, v) && v.Ite? && Laid(layout, modules, p.Keys, v, lo, hi)
    requires x in p && x in layout && !layout[x].isModule && v.order < layout[x].order
    ensures ChoiceProb(modules, Given(p, x, state), v) == ChoiceProb(modules, p, v)
  {
    hide Mix, Prob, Complement;
    if v.isModule {
      OutsideBlock(layout, modules, p, modules[v.index].vertex, layout[v.index].lo, v.order - 1, x, state);
    }
  }

  lemma MixDifferences(c1: real, c0: real, h1: real, h0: real, l1: real, l0: real)
    ensures h1 == h0 && l1 == l0 ==> Mix(c1, h1, l1) - Mix(c0, h0, l0) == Times(h1 - l1, c1 - c0)
    ensures c1 == c0 ==> Mix(c1, h1, l1) - Mix(c0, h0, l0) == Mix(c1, h1 - h0, l1 - l0)
  {
  }

  lemma MifOfChoice(layout: Layout, modules: Modules, p: Probabilities, v: Vertex, lo: int, hi: int, x: int)
    requires Grounded(modules, p.Keys, v) && v.Ite? && Laid(layout, modules, p.Keys, v, lo, hi)
    requires x in p && x in layout && !layout[x].isModule && layout[x].order <= v.order
    ensures Mif(modules, p, v, x)
         == Times(Prob(modules, p, v.high) - Complement(v.complementEdge, Prob(modules, p, v.low)),
                  ChoiceProb(modules, Given(p, x, true), v) - ChoiceProb(modules, Given(p, x, false), v))
  {
    hide WellLaid, Prob, ProbF, Laid, ChoiceProb, Complement, Times, Mix;
    UnfoldGiven(modules, p, v, x);
    BranchesIndependent(layout, modules, p, v, lo, hi, x, true);
    BranchesIndependent(layout, modules, p, v, lo, hi, x, false);
    var high, low := Prob(modules, p, v.high), Complement(v.complementEdge, Prob(modules, p, v.low));
    hide Grounded;
    MixDifference(Prob(modules, Given(p, x, true), v), Prob(modules, Given(p, x, false), v),
                  ChoiceProb(modules, Given(p, x, true), v), ChoiceProb(modules, Given(p, x, false), v), high, low);
  }

  lemma MixDifference(p1: real, p0: real, c1: real, c0: real, high: real, low: real)
    requires p1 == Mix(c1, high, low) && p0 == Mix(c0, high, low)
    ensures p1 - p0 == Times(high - low, c1 - c0)
  {
    MixDifferences(c1, c0, high, high, low, low);
  }

  /** The importance at a vertex that comes after the given variable. */
  lemma MifAfterVariable(layout: Layout, modules: Modules, p: Probabilities, v: Vertex, lo: int, hi: int, x: int)
    requires Grounded(modules, p.Keys, v) && v.Ite? && Laid(layout, modules, p.Keys, v, lo, hi)
    requires x in p && x in layout && !layout[x].isModule && layout[x].order < v.order
    ensures !v.isModule ==> Mif(modules, p, v, x) == 0.0
    ensures v.isModule ==>
      Mif(modules, p, v, x)
      == Times(Prob(modules, p, v.high) - Complement(v.complementEdge, Prob(modules, p, v.low)),
               Negated(modules[v.index].complement, Mif(modules, p, modules[v.index].vertex, x)))
  {
    hide WellLaid, Times, Prob, Mif, Complement, ChoiceProb;
    assert v.index != x;
    TimesZero(Prob(modules, p, v.high) - Complement(v.complementEdge, Prob(modules, p, v.low)));
    MifOfChoice(layout, modules, p, v, lo, hi, x);
    ChoiceDifference(modules, p, v, x);
  }

  lemma TimesZero(r: real)
    ensures Times(r, 0.0) == 0.0 && Times(r, 1.0) == r
  {
  }

  lemma ChoiceDifference(modules: Modules, p: Probabilities, v: Vertex, x: int)
    requires Grounded(modules, p.Keys, v) && v.Ite? && x in p
    ensures ChoiceProb(modules, Given(p, x, true), v) - ChoiceProb(modules, Given(p, x, false), v)
         == if v.isModule then Negated(modules[v.index].complement, Mif(modules, p, modules[v.index].vertex, x))
            else if v.index == x then 1.0 else 0.0
  {
    hide Prob, ProbF, ChoiceProb, Mix;
    UnfoldGiven(modules, p, v, x);
  }

  /** The importance at a vertex whose root variable is the given one. */
  lemma MifAtVariable(layout: Layout, modules: Modules, p: Probabilities, v: Vertex, lo: int, hi: int, x: int)
    requires Grounded(modules, p.Keys, v) && v.Ite? && Laid(layout, modules, p.Keys, v, lo, hi)
    requires x in p && x in layout && !layout[x].isModule && layout[x].order == v.order
    ensures Mif(modules, p, v, x) == Prob(modules, p, v.high) - Complement(v.complementEdge, Prob(modules, p, v.low))
  {
    assert v.index == x && !v.isModule;
    hide WellLaid, Times, Prob, Mif, Complement;
    TimesZero(Prob(modules, p, v.high) - Complement(v.complementEdge, Prob(modules, p, v.low)));
    MifOfChoice(layout, modules, p, v, lo, hi, x);
    ChoiceDifference(modules, p, v, x);
  }

  lemma ModuleMif(modules: Modules, p: Probabilities, f: Function, x: int)
    requires Grounded(modules, p.Keys, f.vertex) && x in p
    ensures MifF(modules, p, f, x) == Negated(f.complement, Mif(modules, p, f.vertex, x))
  {
  }

  /** Conditioning leaves the choice at an earlier vertex as it is. */
  lemma UnfoldBefore(layout: Layout, modules: Modules, p: Probabilities, v: Vertex, lo: int, hi: int, x: int, state: bool)
    requires Grounded(modules, p.Keys, v) && v.Ite? && Laid(layout, modules, p.Keys, v, lo, hi)
    requires x in p && x in layout && !layout[x].isModule && v.order < layout[x].order
    ensures var q := Given(p, x, state);
            Prob(modules, q, v) == Mix(ChoiceProb(modules, p, v), Prob(modules, q, v.high), Complement(v.complementEdge, Prob(modules, q, v.low)))
  {
    hide WellLaid, Prob, ChoiceProb, ProbF, Laid, Mix, Complement;
    ChoiceIndependent(layout, modules, p, v, lo, hi, x, state);
    Unfold(modules, Given(p, x, state), v);
  }

  /** The importance at a vertex that comes before the given variable. */
  lemma MifBeforeVariable(layout: Layout, modules: Modules, p: Probabilities, v: Vertex, lo: int, hi: int, x: int)
    requires Grounded(modules, p.Keys, v) && v.Ite? && Laid(layout, modules, p.Keys, v, lo, hi)
    requires x in p && x in layout && !layout[x].isModule && v.order < layout[x].order
    ensures Mif(modules, p, v, x)
         == Mix(ChoiceProb(modules, p, v), Mif(modules, p, v.high, x), Negated(v.complementEdge, Mif(modules, p, v.low, x)))
  {
    hide WellLaid, Prob, ChoiceProb, ProbF, Laid, Mix, Times, Negated, Complement, Given, Mif;
    MifIs(modules, p, v, x);
    MifIs(modules, p, v.high, x);
    MifIs(modules, p, v.low, x);
    UnfoldBefore(layout, modules, p, v, lo, hi, x, true);
    UnfoldBefore(layout, modules, p, v, lo, hi, x, false);
    DifferenceOfMixes(ChoiceProb(modules, p, v), v.complementEdge,
                      Prob(modules, Given(p, x, true), v.high), Prob(modules, Given(p, x, false), v.high),
                      Prob(modules, Given(p, x, true), v.low), Prob(modules, Given(p, x, false), v.low));
  }

  lemma MifIs(modules: Modules, p: Probabilities, v: Vertex, x: int)
    requires Grounded(modules, p.Keys, v) && x in p
    ensures Mif(modules, p, v, x) == Prob(modules, Given(p, x, true), v) - Prob(modules, Given(p, x, false), v)
  {
  }

  lemma DifferenceOfMixes(c: real, e: bool, h1: real, h0: real, l1: real, l0: real)
    ensures Mix(c, h1, Complement(e, l1)) - Mix(c, h0, Complement(e, l0)) == Mix(c, h1 - h0, Negated(e, l1 - l0))
  {
    MixDifferences(c, c, h1, h0, Complement(e, l1), Complement(e, l0));
    assert Complement(e, l1) - Complement(e, l0) == Negated(e, l1 - l0);
  }

  /** The probability is the average of those under both values of a variable. */
  ghost predicate Total(modules: Modules, p: Probabilities, v: Vertex, x: int)
    requires Grounded(modules, p.Keys, v) && x in p
  {
    Prob(modules, p, v) == Mix(p[x], Prob(modules, Given(p, x, true), v), Prob(modules, Given(p, x, false), v))
  }

  /** Total probability: conditioning on one variable. */
  lemma {:induction false} TotalProbability(layout: Layout, modules: Modules, p: Probabilities, v: Vertex, lo: int, hi: int, x: int)
    requires Grounded(modules, p.Keys, v) && Laid(layout, modules, p.Keys, v, lo, hi)
    requires x in p && x in layout && !layout[x].isModule
    ensures Prob(modules, p, v) == Mix(p[x], Prob(modules, Given(p, x, true), v), Prob(modules, Given(p, x, false), v))
    decreases v.Id()
  {
    if v.One? {
    } else if layout[x].order <= v.order {
      TotalAtOrAfter(layout, modules, p, v, lo, hi, x) by {
        if v.isModule {
          TotalProbability(layout, modules, p, modules[v.index].vertex, layout[v.index].lo, v.order - 1, x);
        }
      }
    } else {
      TotalProbability(layout, modules, p, v.high, v.order + 1, hi, x);
      TotalProbability(layout, modules, p, v.low, v.order + 1, hi, x);
      TotalBefore(layout, modules, p, v, lo, hi, x);
    }
  }

  lemma TotalAtOrAfter(layout: Layout, modules: Modules, p: Probabilities, v: Vertex, lo: int, hi: int, x: int)
    requires Grounded(modules, p.Keys, v) && v.Ite? && Laid(layout, modules, p.Keys, v, lo, hi)
    requires x in p && x in layout && !layout[x].isModule && layout[x].order <= v.order
    requires v.isModule ==>
               var u := modules[v.index].vertex;
               Prob(modules, p, u) == Mix(p[x], Prob(modules, Given(p, x, true), u), Prob(modules, Given(p, x, false), u))
    ensures Prob(modules, p, v) == Mix(p[x], Prob(modules, Given(p, x, true), v), Prob(modules, Given(p, x, false), v))
  {
    hide WellLaid, Prob, ProbF, Laid, ChoiceProb, Mix;
    Unfold(modules, p, v);
    UnfoldGiven(modules, p, v, x);
    BranchesIndependent(layout, modules, p, v, lo, hi, x, true);
    BranchesIndependent(layout, modules, p, v, lo, hi, x, false);
    TotalChoice(modules, p, v, x);
    MixOfMixes(p[x], ChoiceProb(modules, Given(p, x, true), v), ChoiceProb(modules, Given(p, x, false), v),
               Prob(modules, p, v.high), Complement(v.complementEdge, Prob(modules, p, v.low)));
  }

  lemma MixOfMixes(p: real, c1: real, c0: real, high: real, low: real)
    ensures Mix(Mix(p, c1, c0), high, low) == Mix(p, Mix(c1, high, low), Mix(c0, high, low))
  {
    ChoiceAlgebra(p, c1, c0, high, high, low, low);
    MixEqual(p, high);
    MixEqual(p, low);
  }

  lemma TotalChoice(modules: Modules, p: Probabilities, v: Vertex, x: int)
    requires Grounded(modules, p.Keys, v) && v.Ite? && x in p
    requires v.isModule ==>
               var u := modules[v.index].vertex;
               Prob(modules, p, u) == Mix(p[x], Prob(modules, Given(p, x, true), u), Prob(modules, Given(p, x, false), u))
    ensures ChoiceProb(modules, p, v)
         == Mix(p[x], ChoiceProb(modules, Given(p, x, true), v), ChoiceProb(modules, Given(p, x, false), v))
  {
    hide Prob, ProbF, ChoiceProb, Mix;
    Unfold(modules, p, v);
    UnfoldGiven(modules, p, v, x);
    if v.isModule {
      var u := modules[v.index].vertex;
      MixComplement(p[x], Prob(modules, Given(p, x, true), u), Prob(modules, Given(p, x, false), u));
    } else if v.index == x {
      MixOneZero(p[x]);
    } else {
      MixEqual(p[x], p[v.index]);
    }
  }

  lemma TotalBefore(layout: Layout, modules: Modules, p: Probabilities, v: Vertex, lo: int, hi: int, x: int)
    requires Grounded(modules, p.Keys, v) && v.Ite? && Laid(layout, modules, p.Keys, v, lo, hi)
    requires x in p && x in layout && !layout[x].isModule && v.order < layout[x].order
    requires Total(modules, p, v.high, x) && Total(modules, p, v.low, x)
    ensures Total(modules, p, v, x)
  {
    hide WellLaid, Mix, Prob, ChoiceProb, ProbF, Laid, Complement, Given;
    Unfold(modules, p, v);
    UnfoldBefore(layout, modules, p, v, lo, hi, x, true);
    UnfoldBefore(layout, modules, p, v, lo, hi, x, false);
    var c := ChoiceProb(modules, p, v);
    var l1, l0 := Prob(modules, Given(p, x, true), v.low), Prob(modules, Given(p, x, false), v.low);
    ComplementMix(v.complementEdge, p[x], l1, l0);
    MixOfBranches(p[x], c, Prob(modules, Given(p, x, true), v.high), Prob(modules, Given(p, x, false), v.high),
                  Complement(v.complementEdge, l1), Complement(v.complementEdge, l0));
  }

  lemma ComplementMix(c: bool, p: real, high: real, low: real)
    ensures Complement(c, Mix(p, high, low)) == Mix(p, Complement(c, high), Complement(c, low))
  {
    MixComplement(p, high, low);
  }

  lemma MixOfBranches(p: real, c: real, h1: real, h0: real, l1: real, l0: real)
    ensures Mix(c, Mix(p, h1, h0), Mix(p, l1, l0)) == Mix(p, Mix(c, h1, l1), Mix(c, h0, l0))
  {
    ChoiceAlgebra(p, c, c, h1, h0, l1, l0);
    MixEqual(p, c);
  }

  // The sign of the importance of a complemented function.

  /** With all probabilities zero or one, the probability is the truth value. */
  lemma {:induction false} PointMass(modules: Modules, p: Probabilities, v: Vertex, a: Assignment)
    requires Grounded(modules, p.Keys, v)
    requires forall i <- p :: p[i] == if i in a then 1.0 else 0.0
    ensures Prob(modules, p, v) == if Expand(modules, p.Keys, v, a) then 1.0 else 0.0
    decreases v.Id()
  {
    if v.Ite? {
      PointMass(modules, p, v.high, a);
      PointMass(modules, p, v.low, a);
      assert ChoiceProb(modules, p, v) == if Choice(modules, p.Keys, v, a) then 1.0 else 0.0 by {
        if v.isModule {
          PointMass(modules, p, modules[v.index].vertex, a);
        }
      }
      MixOneZero(0.0);
    }
  }

  /** The function does not depend on variable `x`. */
  ghost predicate Irrelevant(modules: Modules, vars: set<int>, v: Vertex, x: int)
    requires Grounded(modules, vars, v)
  {
    forall a: Assignment :: Expand(modules, vars, v, a + iset{x}) == Expand(modules, vars, v, a - iset{x})
  }

  lemma {:induction false} ExpectGiven(vars: seq<int>, p: Probabilities, f: Assignment -> real, x: int, a: Assignment)
    requires Covered(vars, p) && x in p && Ignores(f, iset{x})
    ensures Expect(vars, Given(p, x, true), f, a) == Expect(vars, Given(p, x, false), f, a)
  {
    if vars != [] {
      hide Ignores, Mix;
      var y, rest := vars[0], vars[1..];
      ExpectGiven(rest, p, f, x, a + iset{y});
      ExpectGiven(rest, p, f, x, a - iset{y});
      if y == x {
        ExpectIgnores(rest, Given(p, x, true), f, iset{x}, a + iset{x}, a - iset{x});
        MixEqual(1.0, Expect(rest, Given(p, x, true), f, a + iset{x}));
        MixEqual(0.0, Expect(rest, Given(p, x, true), f, a + iset{x}));
      }
    }
  }

  /** An irrelevant variable has no importance. */
  lemma NoImportance(layout: Layout, modules: Modules, p: Probabilities, v: Vertex, lo: int, hi: int, x: int, vars: seq<int>)
    requires Grounded(modules, p.Keys, v) && Laid(layout, modules, p.Keys, v, lo, hi) && x in p
    requires Covered(vars, p) && forall i <- p :: i in vars
    requires Irrelevant(modules, p.Keys, v, x)
    ensures Mif(modules, p, v, x) == 0.0
  {
    var f := Indicator(modules, p.Keys, Function(false, v));
    forall a: Assignment, b: Assignment | a - iset{x} == b - iset{x}
      ensures f(a) == f(b)
    {
      assert Expand(modules, p.Keys, v, a + iset{x}) == Expand(modules, p.Keys, v, a - iset{x});
      assert Expand(modules, p.Keys, v, b + iset{x}) == Expand(modules, p.Keys, v, b - iset{x});
      assert a == a + iset{x} || a == a - iset{x};
      assert b == b + iset{x} || b == b - iset{x};
    }
    ExpectGiven(vars, p, f, x, iset{});
    ExactProbability(layout, modules, Given(p, x, true), Function(false, v), lo, hi, vars, iset{});
    ExactProbability(layout, modules, Given(p, x, false), Function(false, v), lo, hi, vars, iset{});
  }

  ghost function PointProbabilities(vars: set<int>, a: Assignment): (p: Probabilities)
    ensures p.Keys == vars
  {
    map i | i in vars :: if i in a then 1.0 else 0.0
  }

  /** Where a variable matters, some probabilities give it importance. */
  lemma SomeImportance(modules: Modules, vars: set<int>, v: Vertex, x: int) returns (p: Probabilities)
    requires Grounded(modules, vars, v) && x in vars && !Irrelevant(modules, vars, v, x)
    ensures p.Keys == vars && InUnit(p) && Mif(modules, p, v, x) != 0.0
  {
    var a: Assignment :| Expand(modules, vars, v, a + iset{x}) != Expand(modules, vars, v, a - iset{x});
    p := PointProbabilities(vars, a);
    PointMass(modules, Given(p, x, true), v, a + iset{x});
    PointMass(modules, Given(p, x, false), v, a - iset{x});
  }

  lemma ListCovers(list: seq<int>, p: Probabilities)
    requires forall i :: i in list <==> i in p.Keys
    ensures Covered(list, p) && forall i <- p :: i in list
  {
    forall i | 0 <= i < |list|
      ensures list[i] in p
    {
      var x := list[i];
      assert x in list;
      assert x in p.Keys;
    }
  }

  /** The importance of the root vertex is that of the root function for all probabilities
      exactly when the root is not complemented or the variable is irrelevant. */
  lemma SignOfImportance(layout: Layout, modules: Modules, vars: set<int>, f: Function, lo: int, hi: int, x: int, list: seq<int>)
    requires Grounded(modules, vars, f.vertex) && Laid(layout, modules, vars, f.vertex, lo, hi) && x in vars
    requires forall i :: i in list <==> i in vars
    ensures (forall p: Probabilities | p.Keys == vars && InUnit(p) ::
               Mif(modules, p, f.vertex, x) == MifF(modules, p, f, x))
       <==> !f.complement || Irrelevant(modules, vars, f.vertex, x)
  {
    hide WellLaid, Laid, Irrelevant, Mif, MifF, InUnit;
    forall p: Probabilities | p.Keys == vars
      ensures MifF(modules, p, f, x) == Negated(f.complement, Mif(modules, p, f.vertex, x))
    {
      ModuleMif(modules, p, f, x);
    }
    if Irrelevant(modules, vars, f.vertex, x) {
      forall p: Probabilities | p.Keys == vars
        ensures Mif(modules, p, f.vertex, x) == 0.0
      {
        ListCovers(list, p);
        NoImportance(layout, modules, p, f.vertex, lo, hi, x, list);
      }
    } else {
      var p := SomeImportance(modules, vars, f.vertex, x);
      assert f.complement ==> Mif(modules, p, f.vertex, x) != MifF(modules, p, f, x);
    }
  }
}
