/** Reduced ordered decision-diagram vertices with one complement edge.

    A vertex is immutable once created, so it is a value here. Its `id` plays the part
    of the pointer: `Bdd` keeps a set of live vertices in which ids are unique. */
module Vertices {

  /** A truth assignment: the set of indices that are true. */
  type Assignment = iset<int>

  /** What the graph says about one variable or module proxy. The orders used inside a
      module form the block `lo .. order - 1`, which ends right below the module's own
      order; a plain variable's block is just its order. `owner` is the scope in which
      the item appears: the index of the enclosing module, or of the top scope. */
  datatype Item = Item(order: int, lo: int, isModule: bool, coherent: bool, owner: int)

  ghost predicate WellLaid(layout: map<int, Item>) {
    && (forall i <- layout ::
          && i > 0
          && 0 < layout[i].lo <= layout[i].order
          && (!layout[i].isModule ==> layout[i].lo == layout[i].order && !layout[i].coherent))
    && (forall i, j | i in layout && j in layout && layout[i].order == layout[j].order :: i == j)
    && (forall i, j | i in layout && j in layout
                      && layout[i].owner == layout[j].owner && layout[i].order < layout[j].order ::
          layout[i].order < layout[j].lo)
    && (forall i, m | i in layout && m in layout && layout[i].owner == m ::
          layout[m].isModule && layout[m].lo <= layout[i].lo && layout[i].order < layout[m].order)
  }

  type Layout = layout: map<int, Item> | WellLaid(layout) witness map[]

  /** `One` is the single terminal, with id 1. Only the low edge may be complemented. */
  datatype Vertex =
    | One
    | Ite(id: nat, index: int, order: int, isModule: bool, coherent: bool,
          high: Vertex, low: Vertex, complementEdge: bool)
  {
    function Id(): nat {
      if One? then 1 else id
    }

    function LowId(): int
      requires Ite?
    {
      var id: int := low.Id();
      if complementEdge then -id else id
    }

    function Key(): (int, int, int)
      requires Ite?
    {
      (index, high.Id(), LowId())
    }
  }

  datatype Function = Function(complement: bool, vertex: Vertex)

  ghost predicate Eval(v: Vertex, a: Assignment) {
    match v
    case One => true
    case Ite(_, index, _, _, _, high, low, complementEdge) =>
      if index in a then Eval(high, a) else Eval(low, a) != complementEdge
  }

  ghost predicate EvalF(f: Function, a: Assignment) {
    Eval(f.vertex, a) != f.complement
  }

  /** A child lies strictly below its parent in the ordering and in the same scope. */
  ghost predicate Below(layout: Layout, order: int, owner: int, child: Vertex) {
    child.Ite? ==> order < child.order && child.index in layout && layout[child.index].owner == owner
  }

  ghost predicate WellFormed(layout: Layout, v: Vertex) {
    v.Ite? ==>
      && v.index in layout
      && var item := layout[v.index];
      && v.order == item.order
      && v.isModule == item.isModule
      && v.coherent == item.coherent
      && 2 <= v.id
      && v.high.Id() < v.id
      && v.low.Id() < v.id
      && !(v.high == v.low && !v.complementEdge)
      && Below(layout, v.order, item.owner, v.high)
      && Below(layout, v.order, item.owner, v.low)
      && WellFormed(layout, v.high)
      && WellFormed(layout, v.low)
  }

  /** Every vertex is true when all variables are true: high edges are never complemented. */
  lemma {:induction false} AllTrueIsTrue(layout: Layout, v: Vertex, a: Assignment)
    requires WellFormed(layout, v)
    requires forall i <- layout :: i in a
    ensures Eval(v, a)
  {
    if v.Ite? {
      AllTrueIsTrue(layout, v.high, a);
    }
  }

  ghost function AllTrue(layout: Layout): Assignment {
    iset i | i in layout
  }

  /** A diagram does not depend on a variable that precedes its root in the ordering. */
  lemma {:induction false} IgnoresEarlier(layout: Layout, v: Vertex, i: int, a: Assignment, b: Assignment)
    requires WellFormed(layout, v)
    requires i in layout && (v.Ite? ==> layout[i].order < v.order)
    requires a - iset{i} == b - iset{i}
    ensures Eval(v, a) == Eval(v, b)
  {
    if v.Ite? {
      assert v.index in a <==> v.index in a - iset{i};
      assert v.index in b <==> v.index in b - iset{i};
      IgnoresEarlier(layout, v.high, i, a, b);
      IgnoresEarlier(layout, v.low, i, a, b);
    }
  }

  predicate Closed(s: set<Vertex>) {
    && One in s
    && forall v {:trigger v.high} {:trigger v.low} | v in s && v.Ite? :: v.high in s && v.low in s
  }

  ghost predicate UniqueKeys(s: set<Vertex>) {
    forall u, v {:trigger u.Key(), v.Key()} | u in s && v in s && u.Ite? && v.Ite? && u.Key() == v.Key() :: u == v
  }

  ghost predicate UniqueIds(s: set<Vertex>) {
    forall u, v {:trigger u.Id(), v.Id()} | u in s && v in s && u.Id() == v.Id() :: u == v
  }

  /** A store of live vertices: closed under children, reduced, ordered, hash-consed. */
  ghost predicate Reduced(layout: Layout, s: set<Vertex>) {
    && Closed(s)
    && UniqueKeys(s)
    && UniqueIds(s)
    && forall v {:trigger WellFormed(layout, v)} | v in s :: WellFormed(layout, v)
  }

  ghost predicate Equivalent(u: Vertex, cu: bool, v: Vertex, cv: bool) {
    forall a: Assignment :: (Eval(u, a) != cu) == (Eval(v, a) != cv)
  }

  /** The two cofactors of a function at the root variable `i` of `u`. */
  lemma Cofactors(layout: Layout, u: Vertex, a: Assignment)
    requires WellFormed(layout, u) && u.Ite?
    ensures Eval(u, a + iset{u.index}) == Eval(u.high, a)
    ensures Eval(u, a - iset{u.index}) == (Eval(u.low, a) != u.complementEdge)
  {
    IgnoresEarlier(layout, u.high, u.index, a + iset{u.index}, a);
    IgnoresEarlier(layout, u.low, u.index, a - iset{u.index}, a);
  }

  /** If two functions with different roots agree, the cofactors of the earlier one agree too. */
  lemma CofactorsOfEarlier(layout: Layout, u: Vertex, v: Vertex)
    requires WellFormed(layout, u) && WellFormed(layout, v)
    requires u.Ite? && (v.Ite? ==> u.order < v.order)
    requires Equivalent(u, false, v, false)
    ensures Equivalent(u.high, false, u.low, false) && !u.complementEdge
  {
    forall a: Assignment
      ensures Eval(u.high, a) == Eval(v, a)
      ensures (Eval(u.low, a) != u.complementEdge) == Eval(v, a)
    {
      Cofactors(layout, u, a);
      IgnoresEarlier(layout, v, u.index, a + iset{u.index}, a);
      IgnoresEarlier(layout, v, u.index, a - iset{u.index}, a);
      assert Eval(u, a + iset{u.index}) == Eval(v, a + iset{u.index});
      assert Eval(u, a - iset{u.index}) == Eval(v, a - iset{u.index});
    }
    AllTrueIsTrue(layout, u.low, AllTrue(layout));
    AllTrueIsTrue(layout, v, AllTrue(layout));
  }

  /** If two functions with the same root agree, their cofactors and edges agree. */
  lemma CofactorsOfSame(layout: Layout, u: Vertex, v: Vertex)
    requires WellFormed(layout, u) && WellFormed(layout, v)
    requires u.Ite? && v.Ite? && u.index == v.index
    requires Equivalent(u, false, v, false)
    ensures Equivalent(u.high, false, v.high, false)
    ensures Equivalent(u.low, false, v.low, false) && u.complementEdge == v.complementEdge
  {
    forall a: Assignment
      ensures Eval(u.high, a) == Eval(v.high, a)
      ensures (Eval(u.low, a) != u.complementEdge) == (Eval(v.low, a) != v.complementEdge)
    {
      Cofactors(layout, u, a);
      Cofactors(layout, v, a);
      assert Eval(u, a + iset{u.index}) == Eval(v, a + iset{u.index});
      assert Eval(u, a - iset{u.index}) == Eval(v, a - iset{u.index});
    }
    AllTrueIsTrue(layout, u.low, AllTrue(layout));
    AllTrueIsTrue(layout, v.low, AllTrue(layout));
  }

  lemma {:induction false} EqualFunctions(layout: Layout, s: set<Vertex>, u: Vertex, v: Vertex)
    requires Reduced(layout, s) && u in s && v in s
    requires Equivalent(u, false, v, false)
    ensures u == v
    decreases if u.Id() < v.Id() then v.Id() else u.Id(), 1
  {
    if u.Ite? && (v.Ite? ==> u.order < v.order) {
      EqualEarlier(layout, s, u, v);
    } else if v.Ite? && (u.Ite? ==> v.order < u.order) {
      EqualEarlier(layout, s, v, u);
    } else if u.Ite? {
      EqualSame(layout, s, u, v);
    }
  }

  lemma {:induction false} EqualEarlier(layout: Layout, s: set<Vertex>, u: Vertex, v: Vertex)
    requires Reduced(layout, s) && u in s && v in s
    requires u.Ite? && (v.Ite? ==> u.order < v.order)
    ensures !Equivalent(u, false, v, false)
    decreases if u.Id() < v.Id() then v.Id() else u.Id(), 0
  {
    if Equivalent(u, false, v, false) {
      CofactorsOfEarlier(layout, u, v);
      EqualFunctions(layout, s, u.high, u.low);
    }
  }

  lemma {:induction false} EqualSame(layout: Layout, s: set<Vertex>, u: Vertex, v: Vertex)
    requires Reduced(layout, s) && u in s && v in s
    requires u.Ite? && v.Ite? && u.order == v.order
    requires Equivalent(u, false, v, false)
    ensures u == v
    decreases if u.Id() < v.Id() then v.Id() else u.Id(), 0
  {
    CofactorsOfSame(layout, u, v);
    EqualFunctions(layout, s, u.high, v.high);
    EqualFunctions(layout, s, u.low, v.low);
    assert u.Key() == v.Key();
  }

  /** Canonicity: in a store of live vertices two functions agree on every assignment
      exactly when their complement bits and vertices are the same. */
  lemma Canonicity(layout: Layout, s: set<Vertex>, f: Function, g: Function)
    requires Reduced(layout, s) && f.vertex in s && g.vertex in s
    ensures (forall a: Assignment :: EvalF(f, a) == EvalF(g, a)) <==> f == g
  {
    if forall a: Assignment :: EvalF(f, a) == EvalF(g, a) {
      var top := AllTrue(layout);
      AllTrueIsTrue(layout, f.vertex, top);
      AllTrueIsTrue(layout, g.vertex, top);
      assert EvalF(f, top) == EvalF(g, top);
      assert f.complement == g.complement;
      forall a: Assignment
        ensures Eval(f.vertex, a) == Eval(g.vertex, a)
      {
        assert EvalF(f, a) == EvalF(g, a);
      }
      EqualFunctions(layout, s, f.vertex, g.vertex);
    }
  }
}
