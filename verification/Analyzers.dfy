/** The traversals of a frozen BDD that compute probabilities and importance factors on the
    vertices, with marks instead of visited sets. */
module Analyzers {
  import opened Vertices
  import opened Expectation
  import opened Diagrams
  import opened Importance

  /** All vertices of a diagram, those of its modules included. */
  ghost function Reach(modules: Modules, vars: set<int>, v: Vertex): set<Vertex>
    requires Grounded(modules, vars, v)
    decreases v.Id()
  {
    if v.One? then {v}
    else
      {v} + Reach(modules, vars, v.high) + Reach(modules, vars, v.low)
      + if v.isModule then Reach(modules, vars, modules[v.index].vertex) else {}
  }

  /** The vertices to which a traversal continues from `v`. */
  ghost function Next(modules: Modules, v: Vertex): set<Vertex>
    requires v.Ite?
  {
    {v.high, v.low} + if v.isModule && v.index in modules then {modules[v.index].vertex} else {}
  }

  /** A set of vertices that is closed under traversal and identified by ids. */
  ghost predicate Frozen(modules: Modules, vars: set<int>, s: set<Vertex>) {
    && UniqueIds(s)
    && (forall v {:trigger Grounded(modules, vars, v)} | v in s :: Grounded(modules, vars, v))
    && (forall v {:trigger Next(modules, v)} | v in s && v.Ite? :: Next(modules, v) <= s)
  }

  type Marks = map<nat, bool>

  /** The marks of a vertex start out false. */
  predicate Marked(marks: Marks, v: Vertex) {
    v.Id() in marks && marks[v.Id()]
  }

  /** All non-terminal vertices carry the same mark. */
  ghost predicate Uniform(s: set<Vertex>, marks: Marks, mark: bool) {
    forall v | v in s && v.Ite? :: Marked(marks, v) == mark
  }

  /** `v` is terminal or carries the mark. */
  ghost predicate Done(marks: Marks, mark: bool, v: Vertex) {
    v.Ite? ==> Marked(marks, v) == mark
  }

  type Values = map<nat, real>

  function Value(values: Values, v: Vertex): real {
    if v.Id() in values then values[v.Id()] else 0.0
  }

  /** Marked vertices with ids up to `bound` hold the wanted values. */
  ghost predicate Stored(s: set<Vertex>, marks: Marks, values: Values, mark: bool, want: map<Vertex, real>, bound: int) {
    forall v | v in s && v.Ite? && v.id <= bound && Marked(marks, v) == mark :: v in want && Value(values, v) == want[v]
  }

  /** Everything that follows a marked vertex with an id up to `bound` is marked. */
  ghost predicate Swept(modules: Modules, s: set<Vertex>, marks: Marks, mark: bool, bound: int) {
    forall v | v in s && v.Ite? && v.id <= bound && Marked(marks, v) == mark ::
      forall u <- Next(modules, v) :: Done(marks, mark, u)
  }

  /** Only vertices with ids up to `bound` have changed, and marks only to `mark`. */
  ghost predicate Changed(s: set<Vertex>, marks: Marks, values: Values, marks': Marks, values': Values, mark: bool, bound: int) {
    forall v | v in s && v.Ite? ::
      && (Marked(marks, v) == mark ==> Marked(marks', v) == mark)
      && (v.id > bound ==> Marked(marks', v) == Marked(marks, v) && Value(values', v) == Value(values, v))
  }

  /** What holds up to a larger bound survives changes below a smaller one. */
  lemma StoredKept(s: set<Vertex>, marks: Marks, values: Values, marks': Marks, values': Values, mark: bool,
                   want: map<Vertex, real>, small: int, large: int)
    requires Stored(s, marks, values, mark, want, large) && Stored(s, marks', values', mark, want, small)
    requires Changed(s, marks, values, marks', values', mark, small)
    ensures Stored(s, marks', values', mark, want, large)
  {
  }

  lemma SweptKept(modules: Modules, vars: set<int>, s: set<Vertex>, marks: Marks, values: Values, marks': Marks, values': Values,
                  mark: bool, small: int, large: int)
    requires Frozen(modules, vars, s)
    requires Swept(modules, s, marks, mark, large) && Swept(modules, s, marks', mark, small)
    requires Changed(s, marks, values, marks', values', mark, small)
    ensures Swept(modules, s, marks', mark, large)
  {
    hide Grounded;
    forall v, u | v in s && v.Ite? && v.id <= large && Marked(marks', v) == mark && u in Next(modules, v)
      ensures Done(marks', mark, u)
    {
      if v.id > small {
        assert Marked(marks, v) == mark;
        assert Done(marks, mark, u);
        assert u in s;
      }
    }
  }

  /** Marking a vertex affects nothing below it. */
  lemma Marking(modules: Modules, vars: set<int>, s: set<Vertex>, marks: Marks, values: Values, mark: bool,
                want: map<Vertex, real>, v: Vertex)
    requires Frozen(modules, vars, s) && v in s && v.Ite?
    requires Stored(s, marks, values, mark, want, v.id) && Swept(modules, s, marks, mark, v.id)
    ensures var marks' := marks[v.id := mark];
            && Stored(s, marks', values, mark, want, v.id - 1)
            && Swept(modules, s, marks', mark, v.id - 1)
            && Changed(s, marks, values, marks', values, mark, v.id)
  {
    hide Grounded;
    var marks' := marks[v.id := mark];
    forall w | w in s && w.Ite?
      ensures w != v ==> Marked(marks', w) == Marked(marks, w)
    {
      assert w.Id() == v.Id() ==> w == v;
    }
    forall w, u | w in s && w.Ite? && w.id <= v.id - 1 && Marked(marks', w) == mark && u in Next(modules, w)
      ensures Done(marks', mark, u)
    {
      assert Done(marks, mark, u);
      assert u in s;
    }
  }

  /** Storing the wanted value of a vertex whose successors are done completes its bound. */
  lemma Storing(modules: Modules, vars: set<int>, s: set<Vertex>, marks: Marks, values: Values, mark: bool,
                want: map<Vertex, real>, v: Vertex)
    requires Frozen(modules, vars, s) && v in s && v.Ite? && v in want
    requires Stored(s, marks, values, mark, want, v.id - 1)
    ensures var values' := values[v.id := want[v]];
            && Stored(s, marks, values', mark, want, v.id)
            && Changed(s, marks, values, marks, values', mark, v.id)
  {
    hide Grounded;
    forall w | w in s && w.Ite? && w != v
      ensures w.id != v.id
    {
      assert w.Id() == v.Id() ==> w == v;
    }
  }

  lemma ChangedTwice(s: set<Vertex>, marks: Marks, values: Values, marks': Marks, values': Values, marks'': Marks, values'': Values,
                     mark: bool, bound: int, bound': int)
    requires Changed(s, marks, values, marks', values', mark, bound)
    requires Changed(s, marks', values', marks'', values'', mark, bound') && bound' <= bound
    ensures Changed(s, marks, values, marks'', values'', mark, bound)
  {
  }

  /** The successors of a vertex are vertices with smaller ids. */
  lemma Successors(modules: Modules, vars: set<int>, s: set<Vertex>, v: Vertex)
    requires Frozen(modules, vars, s) && v in s && v.Ite?
    ensures Grounded(modules, vars, v) && v.high in s && v.low in s && v.high.Id() < v.id && v.low.Id() < v.id
    ensures v.isModule ==>
              v.index in modules && modules[v.index].vertex in s && modules[v.index].vertex.Id() < v.id
    ensures !v.isModule ==> v.index in vars
  {
    assert Grounded(modules, vars, v) && Next(modules, v) <= s;
  }

  lemma Tighter(modules: Modules, s: set<Vertex>, marks: Marks, values: Values, mark: bool, want: map<Vertex, real>, large: int, small: int)
    requires Stored(s, marks, values, mark, want, large) && Swept(modules, s, marks, mark, large) && small <= large
    ensures Stored(s, marks, values, mark, want, small) && Swept(modules, s, marks, mark, small)
  {
  }

  lemma DoneKept(s: set<Vertex>, marks: Marks, values: Values, marks': Marks, values': Values, mark: bool, bound: int, v: Vertex)
    requires v in s && Done(marks, mark, v) && Changed(s, marks, values, marks', values', mark, bound)
    ensures Done(marks', mark, v)
  {
  }

  lemma AllDone(modules: Modules, s: set<Vertex>, marks: Marks, mark: bool, v: Vertex)
    requires v.Ite? && Done(marks, mark, v.high) && Done(marks, mark, v.low)
    requires v.isModule && v.index in modules ==> Done(marks, mark, modules[v.index].vertex)
    ensures forall u <- Next(modules, v) :: Done(marks, mark, u)
  {
  }

  lemma MixIs(p: real, high: real, low: real)
    ensures Mix(p, high, low) == p * high + (1.0 - p) * low
  {
  }

  /** The probability of a vertex from those of its parts. */
  lemma ProbFromParts(modules: Modules, p: Probabilities, v: Vertex, pVar: real, high: real, low: real)
    requires Grounded(modules, p.Keys, v) && v.Ite?
    requires pVar == if v.isModule
                     then Complement(modules[v.index].complement, Prob(modules, p, modules[v.index].vertex))
                     else p[v.index]
    requires high == Prob(modules, p, v.high) && low == Complement(v.complementEdge, Prob(modules, p, v.low))
    ensures Mix(pVar, high, low) == Prob(modules, p, v)
  {
    hide Prob, Mix;
    Unfold(modules, p, v);
  }

  lemma SweptWith(modules: Modules, vars: set<int>, s: set<Vertex>, marks: Marks, mark: bool, v: Vertex)
    requires Frozen(modules, vars, s) && v in s && v.Ite?
    requires Swept(modules, s, marks, mark, v.id - 1)
    requires forall u <- Next(modules, v) :: Done(marks, mark, u)
    ensures Swept(modules, s, marks, mark, v.id)
  {
    hide Grounded;
    forall w | w in s && w.Ite? && w.id <= v.id && Marked(marks, w) == mark
      ensures forall u <- Next(modules, w) :: Done(marks, mark, u)
    {
      assert w.Id() == v.Id() ==> w == v;
    }
  }

  /** From the root, a sweep leaves no vertex unmarked. */
  lemma {:induction false} SweptAll(modules: Modules, vars: set<int>, s: set<Vertex>, marks: Marks, mark: bool, v: Vertex, bound: int)
    requires Grounded(modules, vars, v) && Reach(modules, vars, v) <= s && v.Id() <= bound
    requires Swept(modules, s, marks, mark, bound) && Done(marks, mark, v)
    ensures Uniform(Reach(modules, vars, v), marks, mark)
    decreases v.Id()
  {
    if v.Ite? {
      assert v in s;
      SweptAll(modules, vars, s, marks, mark, v.high, bound);
      SweptAll(modules, vars, s, marks, mark, v.low, bound);
      if v.isModule {
        SweptAll(modules, vars, s, marks, mark, modules[v.index].vertex, bound);
      }
    }
  }

  lemma {:induction false} ReachIds(modules: Modules, vars: set<int>, v: Vertex)
    requires Grounded(modules, vars, v)
    ensures v in Reach(modules, vars, v)
    ensures forall u <- Reach(modules, vars, v) :: u.Id() <= v.Id() || u.One?
    decreases v.Id()
  {
    if v.Ite? {
      ReachIds(modules, vars, v.high);
      ReachIds(modules, vars, v.low);
      if v.isModule {
        ReachIds(modules, vars, modules[v.index].vertex);
      }
    }
  }

  /** The mutable fields of the vertices, by vertex id. */
  class VertexFields {
    var mark: Marks
    var p: Values
    var factor: Values

    constructor ()
      ensures mark == map[] && p == map[] && factor == map[]
    {
      mark, p, factor := map[], map[], map[];
    }
  }

  /** Exact probabilities of a BDD; the mark of its vertices flips with every calculation. */
  class ProbabilityAnalyzer {
    const modules: Modules
    const root: Function
    const fields: VertexFields
    ghost const vars: set<int>
    ghost const vertices: set<Vertex>
    var currentMark: bool

    ghost predicate Valid()
      reads this, fields
    {
      && Frozen(modules, vars, vertices)
      && root.vertex in vertices && vertices == Reach(modules, vars, root.vertex)
      && Uniform(vertices, fields.mark, currentMark)
    }

    constructor (modules: Modules, root: Function, fields: VertexFields, ghost vars: set<int>, mark: bool)
      requires Grounded(modules, vars, root.vertex)
      requires Frozen(modules, vars, Reach(modules, vars, root.vertex))
      requires Uniform(Reach(modules, vars, root.vertex), fields.mark, mark)
      ensures Valid() && this.modules == modules && this.root == root && this.fields == fields && this.vars == vars
    {
      this.modules, this.root, this.fields, currentMark := modules, root, fields, mark;
      this.vars, vertices := vars, Reach(modules, vars, root.vertex);
      new;
      ReachIds(modules, vars, root.vertex);
    }

    ghost function Wanted(p: Probabilities): map<Vertex, real>
      requires Frozen(modules, p.Keys, vertices)
    {
      map v | v in vertices :: Prob(modules, p, v)
    }

    /** The probability of the whole BDD; every vertex then holds its own probability. */
    method CalculateTotalProbability(p: Probabilities) returns (prob: real)
      requires Valid() && p.Keys == vars
      modifies this`currentMark, fields`mark, fields`p
      ensures Valid() && currentMark != old(currentMark)
      ensures prob == ProbF(modules, p, root)
      ensures forall v | v in vertices && v.Ite? :: Value(fields.p, v) == Prob(modules, p, v)
    {
      currentMark := !currentMark;
      prob := CalculateProbability(root.vertex, currentMark, p, root.vertex.Id());
      SweptAll(modules, vars, vertices, fields.mark, currentMark, root.vertex, root.vertex.Id());
      ReachIds(modules, vars, root.vertex);
      if root.complement {
        prob := 1.0 - prob;
      }
    }

    ghost predicate InProgress(p: Probabilities, mark: bool, bound: int)
      requires Frozen(modules, p.Keys, vertices)
      reads fields
    {
      && Stored(vertices, fields.mark, fields.p, mark, Wanted(p), bound)
      && Swept(modules, vertices, fields.mark, mark, bound)
    }

    lemma Reading(p: Probabilities, mark: bool, v: Vertex, bound: int)
      requires Frozen(modules, vars, vertices) && p.Keys == vars
      requires v in vertices && v.Id() <= bound && InProgress(p, mark, bound)
      ensures Wanted(p).Keys == vertices && Wanted(p)[v] == Prob(modules, p, v)
      ensures v.One? ==> Prob(modules, p, v) == 1.0
      ensures v.Ite? && Marked(fields.mark, v) == mark ==> Value(fields.p, v) == Prob(modules, p, v)
      ensures Changed(vertices, fields.mark, fields.p, fields.mark, fields.p, mark, v.Id())
    {
      hide Mix, Swept, Next;
    }

    method CalculateProbability(v: Vertex, mark: bool, p: Probabilities, ghost bound: int) returns (r: real)
      requires Frozen(modules, vars, vertices) && p.Keys == vars
      requires v in vertices && v.Id() <= bound && InProgress(p, mark, bound)
      modifies fields`mark, fields`p
      ensures r == Prob(modules, p, v)
      ensures InProgress(p, mark, bound) && Done(fields.mark, mark, v)
      ensures Changed(vertices, old(fields.mark), old(fields.p), fields.mark, fields.p, mark, v.Id())
      decreases v.Id()
    {
      hide Prob, ProbF, ChoiceProb, Mix, Swept, Changed, Grounded, Frozen, Next, Wanted, Stored;
      Reading(p, mark, v, bound);
      if v.One? {
        return 1.0;
      }
      if Marked(fields.mark, v) == mark {
        return Value(fields.p, v);
      }
      ghost var want, marks, values := Wanted(p), fields.mark, fields.p;
      Successors(modules, vars, vertices, v);
      Tighter(modules, vertices, marks, values, mark, want, bound, v.id);
      Marking(modules, vars, vertices, marks, values, mark, want, v);
      fields.mark := fields.mark[v.id := mark];
      var pVar: real;
      if v.isModule {
        var res := modules[v.index];
        ghost var marks1, values1 := fields.mark, fields.p;
        pVar := CalculateProbability(res.vertex, mark, p, v.id - 1);
        DoneKept(vertices, marks1, values1, fields.mark, fields.p, mark, res.vertex.Id(), v);
        ChangedTwice(vertices, marks, values, marks1, values1, fields.mark, fields.p, mark, v.id, res.vertex.Id());
        if res.complement {
          pVar := 1.0 - pVar;
        }
      } else {
        pVar := p[v.index];
      }
      ghost var marks2, values2 := fields.mark, fields.p;
      var high := CalculateProbability(v.high, mark, p, v.id - 1);
      DoneKept(vertices, marks2, values2, fields.mark, fields.p, mark, v.high.Id(), v);
      if v.isModule {
        DoneKept(vertices, marks2, values2, fields.mark, fields.p, mark, v.high.Id(), modules[v.index].vertex);
      }
      ChangedTwice(vertices, marks, values, marks2, values2, fields.mark, fields.p, mark, v.id, v.high.Id());
      ghost var marks3, values3 := fields.mark, fields.p;
      var low := CalculateProbability(v.low, mark, p, v.id - 1);
      DoneKept(vertices, marks3, values3, fields.mark, fields.p, mark, v.low.Id(), v);
      DoneKept(vertices, marks3, values3, fields.mark, fields.p, mark, v.low.Id(), v.high);
      if v.isModule {
        DoneKept(vertices, marks3, values3, fields.mark, fields.p, mark, v.low.Id(), modules[v.index].vertex);
      }
      ChangedTwice(vertices, marks, values, marks3, values3, fields.mark, fields.p, mark, v.id, v.low.Id());
      if v.complementEdge {
        low := 1.0 - low;
      }
      r := pVar * high + (1.0 - pVar) * low;
      MixIs(pVar, high, low);
      ProbFromParts(modules, p, v, pVar, high, low);
      AllDone(modules, vertices, fields.mark, mark, v);
      SweptWith(modules, vars, vertices, fields.mark, mark, v);
      Storing(modules, vars, vertices, fields.mark, fields.p, mark, want, v);
      ChangedTwice(vertices, marks, values, fields.mark, fields.p, fields.mark, fields.p[v.id := r], mark, v.id, v.id);
      fields.p := fields.p[v.id := r];
      StoredKept(vertices, marks, values, fields.mark, fields.p, mark, want, v.id, bound);
      SweptKept(modules, vars, vertices, marks, values, fields.mark, fields.p, mark, v.id, bound);
    }
  }

  /** Every marked vertex other than the root follows a marked vertex. */
  ghost predicate Connected(modules: Modules, s: set<Vertex>, root: Vertex, marks: Marks, mark: bool) {
    forall v | v in s && v.Ite? && Marked(marks, v) == mark :: v == root || Reached(modules, s, marks, mark, v)
  }

  ghost predicate Reached(modules: Modules, s: set<Vertex>, marks: Marks, mark: bool, v: Vertex) {
    exists w :: w in s && w.Ite? && Marked(marks, w) == mark && v in Next(modules, w)
  }

  lemma ConnectedMarking(modules: Modules, vars: set<int>, s: set<Vertex>, root: Vertex, marks: Marks, mark: bool, v: Vertex)
    requires Frozen(modules, vars, s) && v in s && v.Ite? && Connected(modules, s, root, marks, mark)
    requires v == root || Reached(modules, s, marks, mark, v)
    ensures Connected(modules, s, root, marks[v.id := mark], mark)
    ensures forall u <- Next(modules, v) :: Reached(modules, s, marks[v.id := mark], mark, u)
  {
    hide Grounded, Next;
    var marks' := marks[v.id := mark];
    forall w | w in s && w.Ite?
      ensures w != v ==> Marked(marks', w) == Marked(marks, w)
    {
      assert w.Id() == v.Id() ==> w == v;
    }
    forall w | w in s && w.Ite? && Reached(modules, s, marks, mark, w)
      ensures Reached(modules, s, marks', mark, w)
    {
      var u :| u in s && u.Ite? && Marked(marks, u) == mark && w in Next(modules, u);
      assert Marked(marks', u) == mark;
    }
  }

  lemma ReachedKept(modules: Modules, s: set<Vertex>, marks: Marks, values: Values, marks': Marks, values': Values, mark: bool, bound: int, v: Vertex)
    requires Reached(modules, s, marks, mark, v) && Changed(s, marks, values, marks', values', mark, bound)
    ensures Reached(modules, s, marks', mark, v)
  {
    hide Next;
    var w :| w in s && w.Ite? && Marked(marks, w) == mark && v in Next(modules, w);
    assert Marked(marks', w) == mark;
  }

  /** Marks have only changed to `mark`, and everything that follows a changed vertex carries it. */
  ghost predicate Cleared(modules: Modules, s: set<Vertex>, marks: Marks, marks': Marks, mark: bool) {
    forall v | v in s && v.Ite? && Marked(marks', v) != Marked(marks, v) ::
      && Marked(marks', v) == mark
      && forall u <- Next(modules, v) :: Done(marks', mark, u)
  }

  lemma ClearedTwice(modules: Modules, vars: set<int>, s: set<Vertex>, marks: Marks, marks': Marks, marks'': Marks, mark: bool)
    requires Frozen(modules, vars, s)
    requires Cleared(modules, s, marks, marks', mark) && Cleared(modules, s, marks', marks'', mark)
    ensures Cleared(modules, s, marks, marks'', mark)
  {
    hide Grounded;
    forall v, u | v in s && v.Ite? && Marked(marks'', v) != Marked(marks, v) && u in Next(modules, v)
      ensures Done(marks'', mark, u)
    {
      assert u in s;
    }
  }

  lemma ClearedKeeps(modules: Modules, s: set<Vertex>, marks: Marks, marks': Marks, mark: bool, v: Vertex)
    requires Cleared(modules, s, marks, marks', mark) && v in s && Done(marks, mark, v)
    ensures Done(marks', mark, v)
  {
  }

  /** A vertex has been changed to `mark`, and then all its successors have been cleared. */
  lemma ClearedFrom(modules: Modules, vars: set<int>, s: set<Vertex>, marks: Marks, marks': Marks, mark: bool, v: Vertex)
    requires Frozen(modules, vars, s) && v in s && v.Ite?
    requires Cleared(modules, s, marks[v.id := mark], marks', mark)
    requires forall u <- Next(modules, v) :: Done(marks', mark, u)
    ensures Cleared(modules, s, marks, marks', mark) && Done(marks', mark, v)
  {
    hide Grounded;
    forall w | w in s && w.Ite?
      ensures w != v ==> Marked(marks[v.id := mark], w) == Marked(marks, w)
    {
      assert w.Id() == v.Id() ==> w == v;
    }
  }

  lemma NextIsLower(modules: Modules, vars: set<int>, s: set<Vertex>, w: Vertex, v: Vertex)
    requires Frozen(modules, vars, s) && w in s && w.Ite? && v in Next(modules, w)
    ensures v.Id() < w.Id()
  {
    Successors(modules, vars, s, w);
  }

  /** Clearing from the root restores every mark that was set along connected vertices. */
  lemma {:induction false} Restored(modules: Modules, vars: set<int>, s: set<Vertex>, root: Vertex, marks: Marks, marks': Marks,
                                    mark: bool, v: Vertex, bound: nat)
    requires Frozen(modules, vars, s) && Connected(modules, s, root, marks, !mark)
    requires Cleared(modules, s, marks, marks', mark) && Done(marks', mark, root)
    requires v in s && v.Ite? && forall u <- s :: u.Id() <= bound
    ensures Marked(marks', v) == mark
    decreases bound - v.Id()
  {
    hide Grounded, Frozen;
    if Marked(marks, v) == !mark && v != root {
      var w :| w in s && w.Ite? && Marked(marks, w) == !mark && v in Next(modules, w);
      Successors(modules, vars, s, w);
      NextIsLower(modules, vars, s, w, v);
      Restored(modules, vars, s, root, marks, marks', mark, w, bound);
      assert Done(marks', mark, v);
    }
  }

  /** Birnbaum importance on a BDD whose vertices hold their probabilities. */
  class ImportanceAnalyzer {
    const modules: Modules
    const root: Function
    const fields: VertexFields
    const indexToOrder: map<int, int>
    const p: Probabilities
    ghost const layout: Layout
    ghost const vertices: set<Vertex>
    ghost const lo: int
    ghost const hi: int

    ghost predicate Valid()
      reads fields`p
    {
      && Frozen(modules, p.Keys, vertices)
      && root.vertex in vertices && vertices == Reach(modules, p.Keys, root.vertex)
      && Laid(layout, modules, p.Keys, root.vertex, lo, hi)
      && (forall x <- indexToOrder ::
            x in layout && !layout[x].isModule && indexToOrder[x] == layout[x].order && x in p)
      && Computed()
    }

    /** The stored probabilities are those of the last calculation. */
    ghost predicate Computed()
      requires Frozen(modules, p.Keys, vertices)
      reads fields`p
    {
      forall v | v in vertices && v.Ite? :: Value(fields.p, v) == Prob(modules, p, v)
    }

    constructor (modules: Modules, root: Function, fields: VertexFields, indexToOrder: map<int, int>, p: Probabilities,
                 ghost layout: Layout, ghost lo: int, ghost hi: int)
      requires Grounded(modules, p.Keys, root.vertex) && Laid(layout, modules, p.Keys, root.vertex, lo, hi)
      requires Frozen(modules, p.Keys, Reach(modules, p.Keys, root.vertex))
      requires forall x <- indexToOrder ::
                 x in layout && !layout[x].isModule && indexToOrder[x] == layout[x].order && x in p
      requires forall v | v in Reach(modules, p.Keys, root.vertex) && v.Ite? :: Value(fields.p, v) == Prob(modules, p, v)
      ensures Valid() && this.modules == modules && this.root == root && this.fields == fields && this.p == p
      ensures this.indexToOrder == indexToOrder
    {
      this.modules, this.root, this.fields, this.indexToOrder, this.p := modules, root, fields, indexToOrder, p;
      this.layout, this.lo, this.hi := layout, lo, hi;
      vertices := Reach(modules, p.Keys, root.vertex);
      new;
      ReachIds(modules, p.Keys, root.vertex);
    }

    method RetrieveProbability(v: Vertex) returns (r: real)
      requires Valid() && v in vertices
      ensures r == Prob(modules, p, v)
    {
      r := if v.One? then 1.0 else Value(fields.p, v);
    }

    /** The importance of variable `index` at the root vertex; all marks are restored. */
    method CalculateMif(index: int) returns (mif: real)
      requires Valid() && index in indexToOrder && Uniform(vertices, fields.mark, Marked(fields.mark, root.vertex))
      modifies fields`mark, fields`factor
      ensures Valid()
      ensures mif == Mif(modules, p, root.vertex, index)
      ensures Uniform(vertices, fields.mark, old(Marked(fields.mark, root.vertex)))
    {
      if root.vertex.One? {
        return 0.0;
      }
      var originalMark := Marked(fields.mark, root.vertex);
      var order := indexToOrder[index];
      mif := CalculateVertexMif(root.vertex, index, order, !originalMark, lo, hi, root.vertex.Id());
      ghost var marks := fields.mark;
      ClearMarks(root.vertex, originalMark);
      ReachIds(modules, p.Keys, root.vertex);
      forall v | v in vertices && v.Ite?
        ensures Marked(fields.mark, v) == originalMark
      {
        Restored(modules, p.Keys, vertices, root.vertex, marks, fields.mark, originalMark, v, root.vertex.Id());
      }
    }

    ghost function Wanted(x: int): map<Vertex, real>
      requires Frozen(modules, p.Keys, vertices) && x in p
    {
      map v | v in vertices :: Mif(modules, p, v, x)
    }

    method CalculateVertexMif(v: Vertex, ghost x: int, order: int, mark: bool, ghost l: int, ghost h: int, ghost bound: int)
        returns (mif: real)
      requires Valid() && v in vertices && Laid(layout, modules, p.Keys, v, l, h) && v.Id() <= bound
      requires x in indexToOrder && order == indexToOrder[x]
      requires Stored(vertices, fields.mark, fields.factor, mark, Wanted(x), bound)
      requires Connected(modules, vertices, root.vertex, fields.mark, mark)
      requires v == root.vertex || Reached(modules, vertices, fields.mark, mark, v)
      modifies fields`mark, fields`factor
      ensures Valid() && mif == Mif(modules, p, v, x)
      ensures Stored(vertices, fields.mark, fields.factor, mark, Wanted(x), bound)
      ensures Connected(modules, vertices, root.vertex, fields.mark, mark)
      ensures Changed(vertices, old(fields.mark), old(fields.factor), fields.mark, fields.factor, mark, v.Id())
      decreases v.Id(), 1
    {
      hide Grounded, Frozen, Next, Marked, Wanted, Stored, Changed, Connected, Reached, Laid, Mif, WellLaid, Computed;
      MifReading(v, x, mark, bound);
      if v.One? {
        return 0.0;
      }
      if Marked(fields.mark, v) == mark {
        return Value(fields.factor, v);
      }
      ghost var marks, values := fields.mark, fields.factor;
      MarkingStored(modules, p.Keys, vertices, marks, values, mark, Wanted(x), v, bound);
      ConnectedMarking(modules, p.Keys, vertices, root.vertex, marks, mark, v);
      Successors(modules, p.Keys, vertices, v);
      fields.mark := fields.mark[v.id := mark];
      ghost var marks1 := fields.mark;
      if v.order > order {
        mif := FactorAfter(v, x, order, mark, l, h);
      } else if v.order == order {
        mif := FactorAt(v, x, order, l, h);
        Unchanged(vertices, fields.mark, fields.factor, mark, v.id);
      } else {
        mif := FactorBefore(v, x, order, mark, l, h);
      }
      ChangedTwice(vertices, marks, values, marks1, values, fields.mark, fields.factor, mark, v.id, v.id);
      Storing(modules, p.Keys, vertices, fields.mark, fields.factor, mark, Wanted(x), v);
      ChangedTwice(vertices, marks, values, fields.mark, fields.factor, fields.mark, fields.factor[v.id := mif], mark, v.id, v.id);
      fields.factor := fields.factor[v.id := mif];
      StoredKept(vertices, marks, values, fields.mark, fields.factor, mark, Wanted(x), v.id, bound);
    }

    lemma MifReading(v: Vertex, x: int, mark: bool, bound: int)
      requires Valid() && v in vertices && v.Id() <= bound && x in p
      requires Stored(vertices, fields.mark, fields.factor, mark, Wanted(x), bound)
      ensures Wanted(x).Keys == vertices && Wanted(x)[v] == Mif(modules, p, v, x)
      ensures v.One? ==> Mif(modules, p, v, x) == 0.0
      ensures v.Ite? && Marked(fields.mark, v) == mark ==> Value(fields.factor, v) == Mif(modules, p, v, x)
      ensures Changed(vertices, fields.mark, fields.factor, fields.mark, fields.factor, mark, v.Id())
    {
      hide Mix, Next, WellLaid, Laid;
    }

    /** The variable comes before the root: only a module can depend on it. */
    method FactorAfter(v: Vertex, ghost x: int, order: int, mark: bool, ghost l: int, ghost h: int) returns (mif: real)
      requires Valid() && v in vertices && v.Ite? && Grounded(modules, p.Keys, v) && Laid(layout, modules, p.Keys, v, l, h)
      requires x in indexToOrder && order == indexToOrder[x] && v.order > order
      requires Stored(vertices, fields.mark, fields.factor, mark, Wanted(x), v.id - 1)
      requires Connected(modules, vertices, root.vertex, fields.mark, mark)
      requires forall u <- Next(modules, v) :: Reached(modules, vertices, fields.mark, mark, u)
      modifies fields`mark, fields`factor
      ensures Valid() && mif == Mif(modules, p, v, x)
      ensures Stored(vertices, fields.mark, fields.factor, mark, Wanted(x), v.id - 1)
      ensures Connected(modules, vertices, root.vertex, fields.mark, mark)
      ensures Changed(vertices, old(fields.mark), old(fields.factor), fields.mark, fields.factor, mark, v.id)
      decreases v.id, 0
    {
      hide Grounded, Frozen, Marked, Wanted, Stored, Changed, Connected, Reached, Mif, WellLaid, Computed, Times;
      Successors(modules, p.Keys, vertices, v);
      MifAfterVariable(layout, modules, p, v, l, h, x);
      Unchanged(vertices, fields.mark, fields.factor, mark, v.id);
      if !v.isModule {
        mif := 0.0;
      } else {
        var high := RetrieveProbability(v.high);
        var low := RetrieveProbability(v.low);
        if v.complementEdge {
          low := 1.0 - low;
        }
        var res := modules[v.index];
        mif := CalculateVertexMif(res.vertex, x, order, mark, layout[v.index].lo, v.order - 1, v.id - 1);
        ChangedWider(vertices, old(fields.mark), old(fields.factor), fields.mark, fields.factor, mark, res.vertex.Id(), v.id);
        if res.complement {
          mif := -mif;
        }
        mif := Product(high - low, mif);
      }
    }

    method Product(a: real, b: real) returns (r: real)
      ensures r == Times(a, b)
    {
      r := a * b;
    }

    /** The variable is the root. */
    method FactorAt(v: Vertex, ghost x: int, order: int, ghost l: int, ghost h: int) returns (mif: real)
      requires Valid() && v in vertices && v.Ite? && Grounded(modules, p.Keys, v) && Laid(layout, modules, p.Keys, v, l, h)
      requires x in indexToOrder && order == indexToOrder[x] && v.order == order
      ensures mif == Mif(modules, p, v, x)
    {
      hide Grounded, Frozen, Mif, WellLaid, Laid, Computed;
      Successors(modules, p.Keys, vertices, v);
      MifAtVariable(layout, modules, p, v, l, h, x);
      var high := RetrieveProbability(v.high);
      var low := RetrieveProbability(v.low);
      if v.complementEdge {
        low := 1.0 - low;
      }
      mif := high - low;
    }

    /** The probability of the root variable or module. */
    method RootProbability(v: Vertex) returns (pVar: real)
      requires Valid() && v in vertices && v.Ite? && Grounded(modules, p.Keys, v)
      ensures pVar == ChoiceProb(modules, p, v)
    {
      hide Frozen, Laid, WellLaid, Computed, Prob, ChoiceProb;
      Successors(modules, p.Keys, vertices, v);
      Unfold(modules, p, v);
      if v.isModule {
        var res := modules[v.index];
        pVar := RetrieveProbability(res.vertex);
        if res.complement {
          pVar := 1.0 - pVar;
        }
      } else {
        pVar := p[v.index];
      }
    }

    /** The variable comes after the root. */
    method FactorBefore(v: Vertex, ghost x: int, order: int, mark: bool, ghost l: int, ghost h: int) returns (mif: real)
      requires Valid() && v in vertices && v.Ite? && Grounded(modules, p.Keys, v) && Laid(layout, modules, p.Keys, v, l, h)
      requires x in indexToOrder && order == indexToOrder[x] && v.order < order
      requires Stored(vertices, fields.mark, fields.factor, mark, Wanted(x), v.id - 1)
      requires Connected(modules, vertices, root.vertex, fields.mark, mark)
      requires forall u <- Next(modules, v) :: Reached(modules, vertices, fields.mark, mark, u)
      modifies fields`mark, fields`factor
      ensures Valid() && mif == Mif(modules, p, v, x)
      ensures Stored(vertices, fields.mark, fields.factor, mark, Wanted(x), v.id - 1)
      ensures Connected(modules, vertices, root.vertex, fields.mark, mark)
      ensures Changed(vertices, old(fields.mark), old(fields.factor), fields.mark, fields.factor, mark, v.id)
      decreases v.id, 0
    {
      hide Grounded, Frozen, Marked, Wanted, Stored, Changed, Connected, Reached, Mif, WellLaid, Computed;
      Successors(modules, p.Keys, vertices, v);
      MifBeforeVariable(layout, modules, p, v, l, h, x);
      var pVar := RootProbability(v);
      ghost var marks, values := fields.mark, fields.factor;
      var high := CalculateVertexMif(v.high, x, order, mark, v.order + 1, h, v.id - 1);
      ghost var marks1, values1 := fields.mark, fields.factor;
      ReachedKept(modules, vertices, marks, values, marks1, values1, mark, v.high.Id(), v.low);
      var low := CalculateVertexMif(v.low, x, order, mark, v.order + 1, h, v.id - 1);
      ChangedWider(vertices, marks, values, marks1, values1, mark, v.high.Id(), v.id);
      ChangedTwice(vertices, marks, values, marks1, values1, fields.mark, fields.factor, mark, v.id, v.low.Id());
      if v.complementEdge {
        low := -low;
      }
      mif := pVar * high + (1.0 - pVar) * low;
    }

    method ClearMarks(v: Vertex, mark: bool)
      requires Frozen(modules, p.Keys, vertices) && v in vertices
      modifies fields`mark
      ensures Cleared(modules, vertices, old(fields.mark), fields.mark, mark) && Done(fields.mark, mark, v)
      decreases v.Id()
    {
      hide Grounded, Frozen, Next, Cleared, Marked;
      if v.One? {
        NothingCleared(modules, vertices, fields.mark, mark, v);
        return;
      }
      if Marked(fields.mark, v) == mark {
        NothingCleared(modules, vertices, fields.mark, mark, v);
        return;
      }
      Successors(modules, p.Keys, vertices, v);
      ghost var marks := fields.mark;
      fields.mark := fields.mark[v.id := mark];
      ghost var marks1 := fields.mark;
      NothingCleared(modules, vertices, marks1, mark, v);
      if v.isModule {
        var res := modules[v.index];
        ClearMarks(res.vertex, mark);
      }
      ghost var marks2 := fields.mark;
      ClearMarks(v.high, mark);
      ghost var marks3 := fields.mark;
      ClearMarks(v.low, mark);
      ClearedTwice(modules, p.Keys, vertices, marks1, marks2, marks3, mark);
      ClearedTwice(modules, p.Keys, vertices, marks1, marks3, fields.mark, mark);
      ClearedKeeps(modules, vertices, marks3, fields.mark, mark, v.high);
      if v.isModule {
        ClearedKeeps(modules, vertices, marks2, marks3, mark, modules[v.index].vertex);
        ClearedKeeps(modules, vertices, marks3, fields.mark, mark, modules[v.index].vertex);
      }
      AllDone(modules, vertices, fields.mark, mark, v);
      ClearedFrom(modules, p.Keys, vertices, marks, fields.mark, mark, v);
    }
  }

  lemma Unchanged(s: set<Vertex>, marks: Marks, values: Values, mark: bool, bound: int)
    ensures Changed(s, marks, values, marks, values, mark, bound)
  {
  }

  lemma ChangedWider(s: set<Vertex>, marks: Marks, values: Values, marks': Marks, values': Values, mark: bool, small: int, large: int)
    requires Changed(s, marks, values, marks', values', mark, small) && small <= large
    ensures Changed(s, marks, values, marks', values', mark, large)
  {
  }

  lemma MarkingStored(modules: Modules, vars: set<int>, s: set<Vertex>, marks: Marks, values: Values, mark: bool,
                      want: map<Vertex, real>, v: Vertex, bound: int)
    requires Frozen(modules, vars, s) && v in s && v.Ite? && v.id <= bound
    requires Stored(s, marks, values, mark, want, bound)
    ensures Stored(s, marks, values, mark, want, v.id)
    ensures Stored(s, marks[v.id := mark], values, mark, want, v.id - 1)
    ensures Changed(s, marks, values, marks[v.id := mark], values, mark, v.id)
  {
    hide Grounded;
    forall w | w in s && w.Ite?
      ensures w != v ==> Marked(marks[v.id := mark], w) == Marked(marks, w)
    {
      assert w.Id() == v.Id() ==> w == v;
    }
  }

  lemma NothingCleared(modules: Modules, s: set<Vertex>, marks: Marks, mark: bool, v: Vertex)
    ensures Cleared(modules, s, marks, marks, mark)
    ensures v.One? || Marked(marks, v) == mark ==> Done(marks, mark, v)
  {
  }

  /** The first index of the variables of a graph. */
  const VARIABLE_START_INDEX: int := 2

  /** Importance by two calculations of the total probability, with the variable certain and
      with the variable impossible. */
  class ConditioningAnalyzer {
    const analyzer: ProbabilityAnalyzer
    var pVars: Probabilities

    ghost predicate Valid()
      reads this, analyzer, analyzer.fields
    {
      analyzer.Valid() && pVars.Keys == analyzer.vars
    }

    constructor (analyzer: ProbabilityAnalyzer, p: Probabilities)
      requires analyzer.Valid() && p.Keys == analyzer.vars
      ensures Valid() && this.analyzer == analyzer && pVars == p
    {
      this.analyzer, pVars := analyzer, p;
    }

    /** The importance of the variable at a position. */
    method CalculateMif(position: nat) returns (mif: real)
      requires Valid() && position + VARIABLE_START_INDEX in pVars
      modifies this`pVars, analyzer`currentMark, analyzer.fields`mark, analyzer.fields`p
      ensures Valid() && pVars == old(pVars)
      ensures mif == MifF(analyzer.modules, pVars, analyzer.root, position + VARIABLE_START_INDEX)
    {
      hide Prob, ProbF, Mif;
      var index := position + VARIABLE_START_INDEX;
      var store := pVars[index];
      pVars := pVars[index := 1.0];
      var certain := analyzer.CalculateTotalProbability(pVars);
      pVars := pVars[index := 0.0];
      var impossible := analyzer.CalculateTotalProbability(pVars);
      mif := certain - impossible;
      pVars := pVars[index := store];
      assert pVars == old(pVars);
      assert old(pVars)[index := 1.0][index := 0.0] == old(pVars)[index := 0.0];
    }
  }
}
