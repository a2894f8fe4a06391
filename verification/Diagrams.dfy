/** The meaning of diagrams with module proxies: their Boolean function, exact probability,
    and the layout that makes modules independent of what follows them. */
module Diagrams {
  import opened Vertices
  import opened Expectation

  type Modules = map<int, Function>

  /** Diagrams whose proxies stand for modules with smaller root ids, and whose other
      variables are among `vars`. */
  ghost predicate Grounded(modules: Modules, vars: set<int>, v: Vertex)
    decreases v.Id()
  {
    v.Ite? ==>
      && v.high.Id() < v.id
      && v.low.Id() < v.id
      && Grounded(modules, vars, v.high)
      && Grounded(modules, vars, v.low)
      && if v.isModule
         then
           && v.index in modules
           && modules[v.index].vertex.Id() < v.id
           && Grounded(modules, vars, modules[v.index].vertex)
         else
           v.index in vars
  }

  /** The function of a diagram in which every proxy has the value of its module. */
  ghost predicate Expand(modules: Modules, vars: set<int>, v: Vertex, a: Assignment)
    requires Grounded(modules, vars, v)
    decreases v.Id(), 1
  {
    v.Ite? ==>
      if Choice(modules, vars, v, a)
      then Expand(modules, vars, v.high, a)
      else Expand(modules, vars, v.low, a) != v.complementEdge
  }

  /** The value of the root variable or module. */
  ghost predicate Choice(modules: Modules, vars: set<int>, v: Vertex, a: Assignment)
    requires Grounded(modules, vars, v) && v.Ite?
    decreases v.Id(), 0
  {
    if v.isModule then ExpandF(modules, vars, modules[v.index], a) else v.index in a
  }

  ghost predicate ExpandF(modules: Modules, vars: set<int>, f: Function, a: Assignment)
    requires Grounded(modules, vars, f.vertex)
    decreases f.vertex.Id(), 2
  {
    Expand(modules, vars, f.vertex, a) != f.complement
  }

  /** The exact probability, computed vertex by vertex. */
  ghost function Prob(modules: Modules, p: Probabilities, v: Vertex): real
    requires Grounded(modules, p.Keys, v)
    decreases v.Id(), 1
  {
    if v.One? then
      1.0
    else
      Mix(ChoiceProb(modules, p, v), Prob(modules, p, v.high), Complement(v.complementEdge, Prob(modules, p, v.low)))
  }

  ghost function ChoiceProb(modules: Modules, p: Probabilities, v: Vertex): real
    requires Grounded(modules, p.Keys, v) && v.Ite?
    decreases v.Id(), 0
  {
    if v.isModule then ProbF(modules, p, modules[v.index]) else p[v.index]
  }

  ghost function ProbF(modules: Modules, p: Probabilities, f: Function): real
    requires Grounded(modules, p.Keys, f.vertex)
    decreases f.vertex.Id(), 2
  {
    Complement(f.complement, Prob(modules, p, f.vertex))
  }

  function Complement(c: bool, p: real): real {
    if c then 1.0 - p else p
  }

  /** All orders in the diagram lie in `lo .. hi`, increase along edges by whole blocks, and
      the orders inside a module lie in the block that ends at the module's own order. */
  ghost predicate Laid(layout: Layout, modules: Modules, vars: set<int>, v: Vertex, lo: int, hi: int)
    requires Grounded(modules, vars, v)
    decreases v.Id()
  {
    v.Ite? ==>
      && v.index in layout
      && v.order == layout[v.index].order
      && v.isModule == layout[v.index].isModule
      && lo <= layout[v.index].lo
      && v.order <= hi
      && Laid(layout, modules, vars, v.high, v.order + 1, hi)
      && Laid(layout, modules, vars, v.low, v.order + 1, hi)
      && (v.isModule ==> Laid(layout, modules, vars, modules[v.index].vertex, layout[v.index].lo, v.order - 1))
  }

  /** The variables with orders in a block. */
  ghost function Block(layout: Layout, lo: int, hi: int): iset<int> {
    iset i | i in layout && !layout[i].isModule && lo <= layout[i].order <= hi
  }

  /** A diagram depends only on the variables in its block. */
  lemma {:induction false} ExpandDepends(layout: Layout, modules: Modules, vars: set<int>, v: Vertex, lo: int, hi: int,
                                         a: Assignment, b: Assignment)
    requires Grounded(modules, vars, v) && Laid(layout, modules, vars, v, lo, hi)
    requires forall i <- Block(layout, lo, hi) :: i in a <==> i in b
    ensures Expand(modules, vars, v, a) == Expand(modules, vars, v, b)
    decreases v.Id()
  {
    if v.Ite? {
      var item := layout[v.index];
      assert 0 < item.lo <= v.order;
      ExpandDepends(layout, modules, vars, v.high, v.order + 1, hi, a, b);
      ExpandDepends(layout, modules, vars, v.low, v.order + 1, hi, a, b);
      ChoiceAgrees(modules, vars, v, a, b) by {
        if v.isModule {
          ExpandDepends(layout, modules, vars, modules[v.index].vertex, item.lo, v.order - 1, a, b);
        } else {
          assert v.index in Block(layout, lo, hi);
        }
      }
    }
  }

  lemma ChoiceAgrees(modules: Modules, vars: set<int>, v: Vertex, a: Assignment, b: Assignment)
    requires Grounded(modules, vars, v) && v.Ite?
    requires if v.isModule
             then Expand(modules, vars, modules[v.index].vertex, a) == Expand(modules, vars, modules[v.index].vertex, b)
             else v.index in a <==> v.index in b
    ensures Choice(modules, vars, v, a) == Choice(modules, vars, v, b)
  {
  }

  ghost function Indicator(modules: Modules, vars: set<int>, f: Function): Assignment -> real
    requires Grounded(modules, vars, f.vertex)
  {
    (a: Assignment) => if ExpandF(modules, vars, f, a) then 1.0 else 0.0
  }

  ghost function ChoiceIndicator(modules: Modules, vars: set<int>, v: Vertex): Assignment -> real
    requires Grounded(modules, vars, v) && v.Ite?
  {
    (a: Assignment) => if Choice(modules, vars, v, a) then 1.0 else 0.0
  }

  lemma IndicatorDepends(layout: Layout, modules: Modules, vars: set<int>, f: Function, lo: int, hi: int)
    requires Grounded(modules, vars, f.vertex) && Laid(layout, modules, vars, f.vertex, lo, hi)
    ensures DependsOn(Indicator(modules, vars, f), Block(layout, lo, hi))
  {
    var s := Block(layout, lo, hi);
    forall a: Assignment, b: Assignment | a * s == b * s
      ensures Indicator(modules, vars, f)(a) == Indicator(modules, vars, f)(b)
    {
      assert forall i <- s :: (i in a <==> i in a * s) && (i in b <==> i in b * s);
      ExpandDepends(layout, modules, vars, f.vertex, lo, hi, a, b);
    }
  }

  lemma ChoiceDepends(layout: Layout, modules: Modules, vars: set<int>, v: Vertex, lo: int, hi: int)
    requires Grounded(modules, vars, v) && v.Ite? && Laid(layout, modules, vars, v, lo, hi)
    ensures DependsOn(ChoiceIndicator(modules, vars, v), Block(layout, layout[v.index].lo, v.order))
  {
    var s := Block(layout, layout[v.index].lo, v.order);
    forall a: Assignment, b: Assignment | a * s == b * s
      ensures ChoiceIndicator(modules, vars, v)(a) == ChoiceIndicator(modules, vars, v)(b)
    {
      assert forall i <- s :: (i in a <==> i in a * s) && (i in b <==> i in b * s);
      ChoiceAgrees(modules, vars, v, a, b) by {
        if v.isModule {
          ExpandDepends(layout, modules, vars, modules[v.index].vertex, layout[v.index].lo, v.order - 1, a, b);
        } else {
          assert v.index in s;
        }
      }
    }
  }

  lemma DisjointIgnores(f: Assignment -> real, s: iset<int>, t: iset<int>)
    requires DependsOn(f, t) && s !! t
    ensures Ignores(f, s)
  {
    forall a: Assignment, b: Assignment | a - s == b - s
      ensures f(a) == f(b)
    {
      forall i | i in t
        ensures i in a <==> i in b
      {
        assert i !in s;
        assert i in a - s <==> i in b - s;
      }
      assert a * t == b * t;
    }
  }

  /** Exactness: the probability computed vertex by vertex is the sum over all assignments of
      weight times truth value. */
  lemma {:induction false} ExactProbability(layout: Layout, modules: Modules, p: Probabilities, f: Function,
                                            lo: int, hi: int, vars: seq<int>, a: Assignment)
    requires Grounded(modules, p.Keys, f.vertex) && Laid(layout, modules, p.Keys, f.vertex, lo, hi)
    requires Covered(vars, p) && forall x <- p :: x in vars
    ensures Expect(vars, p, Indicator(modules, p.Keys, f), a) == ProbF(modules, p, f)
    decreases f.vertex.Id(), 2
  {
    hide Mix;
    var keys := p.Keys;
    var v := f.vertex;
    var positive := Function(false, v);
    if v.One? {
      ExpectConstant(vars, p, Indicator(modules, keys, positive), 1.0, a);
    } else {
      ExactVertex(layout, modules, p, v, lo, hi, vars, a);
    }
    if f.complement {
      ExpectComplement(vars, p, Indicator(modules, keys, positive), Indicator(modules, keys, f), a);
    }
  }

  lemma {:induction false} ExactVertex(layout: Layout, modules: Modules, p: Probabilities, v: Vertex,
                                       lo: int, hi: int, vars: seq<int>, a: Assignment)
    requires Grounded(modules, p.Keys, v) && v.Ite? && Laid(layout, modules, p.Keys, v, lo, hi)
    requires Covered(vars, p) && forall x <- p :: x in vars
    ensures Expect(vars, p, Indicator(modules, p.Keys, Function(false, v)), a) == Prob(modules, p, v)
    decreases v.Id(), 1
  {
    hide Mix;
    var keys := p.Keys;
    var high, low := Function(false, v.high), Function(v.complementEdge, v.low);
    var s := Block(layout, layout[v.index].lo, v.order);
    var rest := Block(layout, v.order + 1, hi);
    ChoiceDepends(layout, modules, keys, v, lo, hi);
    IndicatorDepends(layout, modules, keys, high, v.order + 1, hi);
    IndicatorDepends(layout, modules, keys, low, v.order + 1, hi);
    DisjointIgnores(Indicator(modules, keys, high), s, rest);
    DisjointIgnores(Indicator(modules, keys, low), s, rest);
    forall b: Assignment {
      IndicatorChoice(modules, keys, v, b);
    }
    ExpectChoice(vars, p, s, ChoiceIndicator(modules, keys, v), Indicator(modules, keys, high),
                 Indicator(modules, keys, low), Indicator(modules, keys, Function(false, v)), a);
    ExactProbability(layout, modules, p, high, v.order + 1, hi, vars, a);
    ExactProbability(layout, modules, p, low, v.order + 1, hi, vars, a);
    ExactChoice(layout, modules, p, v, lo, hi, vars, a);
  }

  lemma IndicatorChoice(modules: Modules, vars: set<int>, v: Vertex, b: Assignment)
    requires Grounded(modules, vars, v) && v.Ite?
    ensures Indicator(modules, vars, Function(false, v))(b)
         == ChoiceIndicator(modules, vars, v)(b) * Indicator(modules, vars, Function(false, v.high))(b)
          + (1.0 - ChoiceIndicator(modules, vars, v)(b)) * Indicator(modules, vars, Function(v.complementEdge, v.low))(b)
  {
    assert ExpandF(modules, vars, Function(false, v), b) == Expand(modules, vars, v, b);
    if Choice(modules, vars, v, b) {
      assert Indicator(modules, vars, Function(false, v))(b) == Indicator(modules, vars, Function(false, v.high))(b);
    } else {
      assert Indicator(modules, vars, Function(false, v))(b) == Indicator(modules, vars, Function(v.complementEdge, v.low))(b);
    }
  }

  lemma {:induction false} ExactChoice(layout: Layout, modules: Modules, p: Probabilities, v: Vertex,
                                       lo: int, hi: int, vars: seq<int>, a: Assignment)
    requires Grounded(modules, p.Keys, v) && v.Ite? && Laid(layout, modules, p.Keys, v, lo, hi)
    requires Covered(vars, p) && forall x <- p :: x in vars
    ensures Expect(vars, p, ChoiceIndicator(modules, p.Keys, v), a) == ChoiceProb(modules, p, v)
    decreases v.Id(), 0
  {
    if v.isModule {
      ExactProbability(layout, modules, p, modules[v.index], layout[v.index].lo, v.order - 1, vars, a);
      SameExpectation(vars, p, ChoiceIndicator(modules, p.Keys, v), Indicator(modules, p.Keys, modules[v.index]), a);
    } else {
      ExpectVariable(vars, p, ChoiceIndicator(modules, p.Keys, v), v.index, a);
    }
  }

  lemma {:induction false} SameExpectation(vars: seq<int>, p: Probabilities, f: Assignment -> real, g: Assignment -> real, a: Assignment)
    requires Covered(vars, p) && forall b: Assignment :: f(b) == g(b)
    ensures Expect(vars, p, f, a) == Expect(vars, p, g, a)
  {
    hide Mix;
    if vars != [] {
      SameExpectation(vars[1..], p, f, g, a + iset{vars[0]});
      SameExpectation(vars[1..], p, f, g, a - iset{vars[0]});
    }
  }

  /** Probabilities lie between zero and one. */
  lemma {:induction false} ProbBounds(modules: Modules, p: Probabilities, v: Vertex)
    requires Grounded(modules, p.Keys, v) && InUnit(p)
    ensures 0.0 <= Prob(modules, p, v) <= 1.0
    decreases v.Id()
  {
    hide Mix;
    if v.Ite? {
      ProbBounds(modules, p, v.high);
      ProbBounds(modules, p, v.low);
      if v.isModule {
        ProbBounds(modules, p, modules[v.index].vertex);
        assert ChoiceProb(modules, p, v)
            == Complement(modules[v.index].complement, Prob(modules, p, modules[v.index].vertex));
      } else {
        assert v.index in p;
      }
      MixBounds(ChoiceProb(modules, p, v), Prob(modules, p, v.high), Complement(v.complementEdge, Prob(modules, p, v.low)));
    }
  }

  lemma MixBounds(p: real, high: real, low: real)
    requires 0.0 <= p <= 1.0 && 0.0 <= high <= 1.0 && 0.0 <= low <= 1.0
    ensures 0.0 <= Mix(p, high, low) <= 1.0
  {
    assert 0.0 <= p * high <= p;
    assert 0.0 <= (1.0 - p) * low <= 1.0 - p;
  }
}
