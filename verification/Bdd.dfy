/** The BDD engine: hash-consed vertices and memoised Boolean operations. */
module BddEngine {
  import opened Vertices
  import opened Indices
  import opened Options
  import opened Tables
  import opened Graphs

  /** `r` is the conjunction or disjunction of `f` and `g`, and it lies no higher in the
      ordering than they do. */
  ghost predicate Computes(layout: Layout, op: Connective, f: Function, g: Function, r: Function) {
    && (forall a: Assignment :: EvalF(r, a) == Connect(op, EvalF(f, a), EvalF(g, a)))
    && (forall order, owner | Below(layout, order, owner, f.vertex) && Below(layout, order, owner, g.vertex) ::
          Below(layout, order, owner, r.vertex))
  }

  /** Vertices by id, including those that are no longer alive; ids are never reused. */
  type Births = map<nat, Vertex>

  ghost predicate Extends(before: Births, after: Births) {
    forall i <- before :: i in after && after[i] == before[i]
  }

  /** The function named by a signed id in a cache key. */
  ghost function Named(born: Births, key: int): Function
    requires Abs(key) in born
  {
    Function(key < 0, born[Abs(key)])
  }

  ghost predicate SoundEntry(layout: Layout, born: Births, op: Connective, key: (int, int), value: Function) {
    && Abs(key.0) in born
    && Abs(key.1) in born
    && Computes(layout, op, Named(born, key.0), Named(born, key.1), value)
  }

  ghost predicate SoundCache(layout: Layout, born: Births, op: Connective, latest: map<(int, int), Function>) {
    forall key <- latest :: SoundEntry(layout, born, op, key, latest[key])
  }

  lemma SoundCacheExtends(layout: Layout, before: Births, after: Births, op: Connective, latest: map<(int, int), Function>)
    requires SoundCache(layout, before, op, latest) && Extends(before, after)
    ensures SoundCache(layout, after, op, latest)
  {
    forall key | key in latest
      ensures SoundEntry(layout, after, op, key, latest[key])
    {
      assert SoundEntry(layout, before, op, key, latest[key]);
    }
  }

  ghost predicate SameScope(layout: Layout, u: Vertex, v: Vertex) {
    u.Ite? && v.Ite? ==>
      u.index in layout && v.index in layout && layout[u.index].owner == layout[v.index].owner
  }

  /** Every live vertex carries the id under which it was born. */
  ghost predicate Numbered(live: set<Vertex>, born: Births, functionId: nat) {
    && functionId >= 2
    && (forall v {:trigger v.id} | v in live && v.Ite? :: v.id < functionId && v.id in born && born[v.id] == v)
    && (forall i <- born :: 2 <= i < functionId)
  }

  /** The function of a module is made before any proxy vertex that stands for it. */
  ghost predicate Modular(layout: Layout, live: set<Vertex>, modules: map<int, Function>) {
    && (forall m <- modules ::
          && m in layout && layout[m].isModule
          && modules[m].vertex in live
          && Below(layout, 0, m, modules[m].vertex))
    && (forall v {:trigger v.isModule} | v in live && v.Ite? && v.isModule ::
          v.index in modules && modules[v.index].vertex.Id() < v.id)
  }

  ghost predicate Consistent(layout: Layout, live: set<Vertex>, born: Births, functionId: nat, modules: map<int, Function>) {
    && Reduced(layout, live)
    && Numbered(live, born, functionId)
    && Modular(layout, live, modules)
  }

  lemma ConsistentSubset(layout: Layout, live: set<Vertex>, born: Births, functionId: nat, modules: map<int, Function>, survivors: set<Vertex>)
    requires Consistent(layout, live, born, functionId, modules)
    requires survivors <= live && Closed(survivors)
    requires forall m <- modules :: modules[m].vertex in survivors
    ensures Consistent(layout, survivors, born, functionId, modules)
  {
  }

  lemma ConsistentAdd(layout: Layout, live: set<Vertex>, born: Births, functionId: nat, modules: map<int, Function>, v: Vertex)
    requires Consistent(layout, live, born, functionId, modules)
    requires v.Ite? && v.id == functionId && v.high in live && v.low in live && WellFormed(layout, v)
    requires forall u | u in live && u.Ite? :: u.Key() != v.Key()
    requires v.isModule ==> v.index in modules
    ensures Consistent(layout, live + {v}, born[v.id := v], functionId + 1, modules)
  {
    ReducedAdd(layout, live, functionId, v) by {
      assert forall u | u in live && u.Ite? :: u.id < functionId;
    }
  }

  lemma ReducedAdd(layout: Layout, live: set<Vertex>, functionId: nat, v: Vertex)
    requires Reduced(layout, live)
    requires v.Ite? && v.id == functionId >= 2 && v.high in live && v.low in live && WellFormed(layout, v)
    requires forall u | u in live && u.Ite? :: u.id < functionId
    requires forall u | u in live && u.Ite? :: u.Key() != v.Key()
    ensures Reduced(layout, live + {v})
  {
    forall u, w | u in live + {v} && w in live + {v} && u.Id() == w.Id()
      ensures u == w
    {
      assert u != v && u.Ite? ==> u.id < functionId;
      assert w != v && w.Ite? ==> w.id < functionId;
    }
    assert UniqueKeys(live + {v});
    assert Closed(live + {v});
  }

  class Bdd {
    ghost const layout: Layout
    const uniqueTable: UniqueTable
    const andTable: CacheTable
    const orTable: CacheTable
    var live: set<Vertex>
    ghost var born: Births
    var functionId: nat
    var modules: map<int, Function>
    var indexToOrder: map<int, int>

    ghost predicate Valid()
      reads `live, `born, `functionId, `modules, uniqueTable, andTable, orTable
    {
      && Consistent(layout, live, born, functionId, modules)
      && uniqueTable.Valid() && uniqueTable.AllStored(live)
      && CachesValid()
    }

    ghost predicate CachesValid()
      reads `live, `born, andTable, orTable
    {
      && andTable != orTable
      && andTable.Valid() && orTable.Valid()
      && SoundCache(layout, born, And, andTable.latest)
      && SoundCache(layout, born, Or, orTable.latest)
      && andTable.Held() <= live
      && orTable.Held() <= live
    }

    constructor (ghost layout: Layout, uniqueTable: UniqueTable, andTable: CacheTable, orTable: CacheTable)
      requires uniqueTable.Valid() && uniqueTable.AllStored({One})
      requires andTable.Valid() && andTable.latest == map[] && andTable.Held() == {}
      requires orTable.Valid() && orTable.latest == map[] && orTable.Held() == {}
      requires andTable != orTable
      ensures Valid() && live == {One} && modules == map[] && indexToOrder == map[]
      ensures this.layout == layout
      ensures this.uniqueTable == uniqueTable && this.andTable == andTable && this.orTable == orTable
    {
      this.layout := layout;
      this.uniqueTable, this.andTable, this.orTable := uniqueTable, andTable, orTable;
      live, born, functionId := {One}, map[], 2;
      modules, indexToOrder := map[], map[];
    }

    lemma TerminalIsLive()
      requires Valid()
      ensures One in live
    {
    }

    /** Vertices to which nothing refers any more may die, at any time and in any number. */
    method Collect(pinned: set<Vertex>)
      requires Valid() && pinned <= live
      modifies this`live
      ensures Valid() && pinned <= live <= old(live)
    {
      var strong := pinned + (set m | m in modules :: modules[m].vertex);
      var held := CacheTable.HeldBy(andTable.entries) + CacheTable.HeldBy(orTable.entries);
      assert live <= live && Closed(live);
      var survivors :| strong + held <= survivors <= live && Closed(survivors);
      ConsistentSubset(layout, live, born, functionId, modules, survivors);
      live := survivors;
    }

    /** Finds the live vertex with this signature or creates it with the next id. */
    method FindOrAddVertex(index: int, order: int, isModule: bool, coherent: bool,
                           high: Vertex, low: Vertex, complementEdge: bool) returns (v: Vertex)
      requires Valid() && high in live && low in live
      requires index in layout && layout[index].(lo := 0, owner := 0) == Item(order, 0, isModule, coherent, 0)
      requires !(high == low && !complementEdge)
      requires Below(layout, order, layout[index].owner, high)
      requires Below(layout, order, layout[index].owner, low)
      requires isModule ==> index in modules
      modifies this`live, this`born, this`functionId, uniqueTable
      ensures Valid() && live == old(live) + {v} && Extends(old(born), born)
      ensures v == Ite(v.Id(), index, order, isModule, coherent, high, low, complementEdge)
    {
      hide Consistent, CachesValid, UniqueTable.Valid, UniqueTable.AllStored;
      var bucket, position, slot := Lookup(index, high, low, complementEdge);
      if slot.Weak? {
        v := slot.vertex;
      } else {
        v := Ite(functionId, index, order, isModule, coherent, high, low, complementEdge);
        NewIsWellFormed(layout, live, born, functionId, modules, v);
        assert v.Key() == Signature(index, high, low, complementEdge);
        Register(bucket, position, v);
      }
    }

    /** Searches the unique table by signature; a null slot is reserved for a new vertex. */
    method Lookup(index: int, high: Vertex, low: Vertex, complementEdge: bool)
        returns (bucket: nat, position: nat, slot: Slot)
      requires Valid() && high in live && low in live && index in layout
      modifies uniqueTable
      ensures Valid()
      ensures bucket < |uniqueTable.table| && position < |uniqueTable.table[bucket]|
      ensures slot == uniqueTable.table[bucket][position]
      ensures match slot
              case Weak(v) =>
                var item := layout[index];
                v in live && v == Ite(v.Id(), index, item.order, item.isModule, item.coherent, high, low, complementEdge)
              case Null =>
                && bucket == uniqueTable.hash(Signature(index, high, low, complementEdge)) % uniqueTable.capacity
                && forall u | u in live && u.Ite? :: u.Key() != Signature(index, high, low, complementEdge)
    {
      bucket, position := uniqueTable.FindOrAdd(live, Signature(index, high, low, complementEdge));
      slot := uniqueTable.table[bucket][position];
      if slot.Weak? {
        SameSignature(layout, live, slot.vertex, high, low, complementEdge);
      }
    }

    method Register(bucket: nat, position: nat, v: Vertex)
      requires Valid()
      requires v.Ite? && v.id == functionId && v.high in live && v.low in live && WellFormed(layout, v)
      requires forall u | u in live && u.Ite? :: u.Key() != v.Key()
      requires v.isModule ==> v.index in modules
      requires bucket == uniqueTable.hash(v.Key()) % uniqueTable.capacity
      requires position < |uniqueTable.table[bucket]| && uniqueTable.table[bucket][position].Null?
      modifies this`live, this`born, this`functionId, uniqueTable
      ensures Valid() && live == old(live) + {v} && Extends(old(born), born)
    {
      ConsistentAdd(layout, live, born, functionId, modules, v);
      SoundCacheExtends(layout, born, born[v.id := v], And, andTable.latest);
      SoundCacheExtends(layout, born, born[v.id := v], Or, orTable.latest);
      uniqueTable.Assign(bucket, position, v, live);
      live, born, functionId := live + {v}, born[v.id := v], functionId + 1;
    }

    /** Registers the function of a module. */
    method AddModule(m: int, f: Function)
      requires Valid() && m !in modules && m in layout && layout[m].isModule
      requires f.vertex in live && Below(layout, 0, m, f.vertex)
      modifies `modules
      ensures Valid() && modules == old(modules)[m := f]
    {
      modules := modules[m := f];
      assert Modular(layout, live, modules);
    }

    method ClearTables()
      requires Valid()
      modifies andTable, orTable
      ensures Valid() && andTable.latest == map[] && orTable.latest == map[]
    {
      andTable.Clear();
      orTable.Clear();
    }

    /** Clears the tables; results that only they kept alive may die. */
    method Forget(pinned: set<Vertex>)
      requires Valid() && pinned <= live
      modifies `live, andTable, orTable
      ensures Valid() && pinned <= live <= old(live)
    {
      ClearTables();
      Collect(pinned);
    }

    method ApplyAnd(one: Vertex, two: Vertex, complementOne: bool, complementTwo: bool, pinned: set<Vertex>)
        returns (r: Function)
      requires Valid() && Applicable(layout, live, pinned, one, two)
      modifies this`live, this`born, this`functionId, uniqueTable, andTable, orTable
      ensures Valid() && Extends(old(born), born) && pinned + {r.vertex} <= live
      ensures Computes(layout, And, Function(complementOne, one), Function(complementTwo, two), r)
      decreases one.Id() + two.Id(), 1
    {
      hide Consistent, CachesValid, UniqueTable.Valid, UniqueTable.AllStored;
      if one.One? {
        return if complementOne then Function(true, One) else Function(complementTwo, two);
      }
      if two.One? {
        return if complementTwo then Function(true, One) else Function(complementOne, one);
      }
      if one.Id() == two.Id() {
        SameId(layout, live, born, functionId, modules, one, two);
        return if complementOne != complementTwo then Function(true, One) else Function(complementOne, one);
      }
      var found := Recall(And, one, two, complementOne, complementTwo);
      if found.Some? {
        return found.value;
      }
      r := ApplyIte(And, one, two, complementOne, complementTwo, pinned);
      Memoise(And, one, two, complementOne, complementTwo, r);
      Collect(pinned + {r.vertex});
    }

    method ApplyOr(one: Vertex, two: Vertex, complementOne: bool, complementTwo: bool, pinned: set<Vertex>)
        returns (r: Function)
      requires Valid() && Applicable(layout, live, pinned, one, two)
      modifies this`live, this`born, this`functionId, uniqueTable, andTable, orTable
      ensures Valid() && Extends(old(born), born) && pinned + {r.vertex} <= live
      ensures Computes(layout, Or, Function(complementOne, one), Function(complementTwo, two), r)
      decreases one.Id() + two.Id(), 1
    {
      hide Consistent, CachesValid, UniqueTable.Valid, UniqueTable.AllStored;
      if one.One? {
        return if !complementOne then Function(false, One) else Function(complementTwo, two);
      }
      if two.One? {
        return if !complementTwo then Function(false, One) else Function(complementOne, one);
      }
      if one.Id() == two.Id() {
        SameId(layout, live, born, functionId, modules, one, two);
        return if complementOne != complementTwo then Function(false, One) else Function(complementOne, one);
      }
      var found := Recall(Or, one, two, complementOne, complementTwo);
      if found.Some? {
        return found.value;
      }
      r := ApplyIte(Or, one, two, complementOne, complementTwo, pinned);
      Memoise(Or, one, two, complementOne, complementTwo, r);
      Collect(pinned + {r.vertex});
    }

    method Recall(op: Connective, one: Vertex, two: Vertex, complementOne: bool, complementTwo: bool)
        returns (found: Option<Function>)
      requires Valid() && one in live && two in live && one.Ite? && two.Ite?
      ensures found.Some? ==>
                && found.value.vertex in live
                && Computes(layout, op, Function(complementOne, one), Function(complementTwo, two), found.value)
    {
      hide Reduced, Modular, UniqueTable.Valid, UniqueTable.AllStored, CacheTable.Valid;
      var key := GetMinMaxId(one, two, complementOne, complementTwo);
      match op
      case And => found := andTable.Find(key);
      case Or => found := orTable.Find(key);
      if found.Some? {
        KeyMeaning(layout, live, born, functionId, op, one, two, complementOne, complementTwo, found.value);
      }
    }

    method Memoise(op: Connective, one: Vertex, two: Vertex, complementOne: bool, complementTwo: bool, value: Function)
      requires Valid() && one in live && two in live && one.Ite? && two.Ite? && value.vertex in live
      requires Computes(layout, op, Function(complementOne, one), Function(complementTwo, two), value)
      modifies andTable, orTable
      ensures Valid()
    {
      hide Reduced, Modular, UniqueTable.Valid, UniqueTable.AllStored, CacheTable.Valid;
      KeyMeaning(layout, live, born, functionId, op, one, two, complementOne, complementTwo, value);
      var key := GetMinMaxId(one, two, complementOne, complementTwo);
      match op
      case And => andTable.Emplace(key, value);
      case Or => orTable.Emplace(key, value);
    }

    /** Shannon decomposition at the earlier of the two roots. */
    method ApplyIte(op: Connective, iteOne: Vertex, iteTwo: Vertex, complementOne: bool, complementTwo: bool, pinned: set<Vertex>)
        returns (r: Function)
      requires Valid() && Applicable(layout, live, pinned, iteOne, iteTwo) && iteOne.Ite? && iteTwo.Ite?
      modifies this`live, this`born, this`functionId, uniqueTable, andTable, orTable
      ensures Valid() && Extends(old(born), born) && pinned + {r.vertex} <= live
      ensures Computes(layout, op, Function(complementOne, iteOne), Function(complementTwo, iteTwo), r)
      decreases iteOne.Id() + iteTwo.Id(), 0
    {
      hide Consistent, CachesValid, UniqueTable.Valid, UniqueTable.AllStored, Computes;
      var one, two, notOne, notTwo := iteOne, iteTwo, complementOne, complementTwo;
      if one.order > two.order {
        one, two, notOne, notTwo := two, one, notTwo, notOne;
      }
      Split(layout, live, born, functionId, modules, one, two);
      var held := pinned + {One, one.high, one.low, HighOf(one, two), LowOf(one, two)};
      var high := Apply(op, one.high, HighOf(one, two), notOne, notTwo, held);
      var low := Apply(op, one.low, LowOf(one, two), notOne != one.complementEdge,
                       notTwo != LowEdgeOf(one, two), held + {high.vertex});
      var complementEdge := high.complement != low.complement;
      Joinable(layout, live, born, functionId, modules, op, one, two, notOne, notTwo, high, low);
      r := high;
      if complementEdge || high.vertex.Id() != low.vertex.Id() {
        var v := FindOrAddVertex(one.index, one.order, one.isModule, one.coherent, high.vertex, low.vertex, complementEdge);
        r := Function(high.complement, v);
      }
      Join(layout, op, one, two, notOne, notTwo, high, low, r);
      ComputesCommutes(layout, op, Function(notOne, one), Function(notTwo, two), r);
    }

    method Apply(op: Connective, one: Vertex, two: Vertex, complementOne: bool, complementTwo: bool, pinned: set<Vertex>)
        returns (r: Function)
      requires Valid() && Applicable(layout, live, pinned, one, two)
      modifies this`live, this`born, this`functionId, uniqueTable, andTable, orTable
      ensures Valid() && Extends(old(born), born) && pinned + {r.vertex} <= live
      ensures Computes(layout, op, Function(complementOne, one), Function(complementTwo, two), r)
      decreases one.Id() + two.Id(), 2
    {
      match op
      case And => r := ApplyAnd(one, two, complementOne, complementTwo, pinned);
      case Or => r := ApplyOr(one, two, complementOne, complementTwo, pinned);
    }

    /** The function that holds whatever the value of the root variable. */
    method CalculateConsensus(v: Vertex, complement: bool, pinned: set<Vertex>) returns (r: Function)
      requires Valid() && v.Ite? && v in live && v.high in pinned && v.low in pinned && One in live && pinned <= live
      modifies this`live, this`born, this`functionId, uniqueTable, andTable, orTable
      ensures Valid() && Extends(old(born), born) && pinned + {r.vertex} <= live
      ensures forall a: Assignment ::
                EvalF(r, a) <==> EvalF(Function(complement, v), a + iset{v.index}) && EvalF(Function(complement, v), a - iset{v.index})
    {
      ChildrenShareScope(layout, live, born, functionId, modules, v);
      ClearTables();
      r := Apply(And, v.high, v.low, complement, v.complementEdge != complement, pinned);
      ConsensusMeaning(layout, v, complement, r);
    }
  }

  lemma ChildrenShareScope(layout: Layout, live: set<Vertex>, born: Births, functionId: nat, modules: map<int, Function>, v: Vertex)
    requires Consistent(layout, live, born, functionId, modules) && v in live && v.Ite?
    ensures WellFormed(layout, v) && SameScope(layout, v.high, v.low)
  {
    assert WellFormed(layout, v);
  }

  lemma ConsensusMeaning(layout: Layout, v: Vertex, complement: bool, r: Function)
    requires WellFormed(layout, v) && v.Ite?
    requires Computes(layout, And, Function(complement, v.high), Function(v.complementEdge != complement, v.low), r)
    ensures forall a: Assignment ::
              EvalF(r, a) <==> EvalF(Function(complement, v), a + iset{v.index}) && EvalF(Function(complement, v), a - iset{v.index})
  {
    forall a: Assignment
      ensures EvalF(r, a) <==> EvalF(Function(complement, v), a + iset{v.index}) && EvalF(Function(complement, v), a - iset{v.index})
    {
      Cofactors(layout, v, a);
    }
  }

  function Signature(index: int, high: Vertex, low: Vertex, complementEdge: bool): (int, int, int) {
    var lowId: int := low.Id();
    (index, high.Id(), if complementEdge then -lowId else lowId)
  }

  /** Live vertices with the same signature have the same children and edges. */
  lemma SameSignature(layout: Layout, live: set<Vertex>, v: Vertex, high: Vertex, low: Vertex, complementEdge: bool)
    requires Reduced(layout, live) && v in live && v.Ite? && high in live && low in live
    requires v.Key() == Signature(v.index, high, low, complementEdge)
    ensures v.high == high && v.low == low && v.complementEdge == complementEdge
    ensures v.index in layout && v.order == layout[v.index].order
    ensures v.isModule == layout[v.index].isModule && v.coherent == layout[v.index].coherent
  {
    assert WellFormed(layout, v);
    assert WellFormed(layout, low) && WellFormed(layout, v.low);
  }

  lemma NewIsWellFormed(layout: Layout, live: set<Vertex>, born: Births, functionId: nat, modules: map<int, Function>, v: Vertex)
    requires Consistent(layout, live, born, functionId, modules)
    requires v.Ite? && v.id == functionId && v.high in live && v.low in live
    requires v.index in layout
    requires layout[v.index].(lo := 0, owner := 0) == Item(v.order, 0, v.isModule, v.coherent, 0)
    requires !(v.high == v.low && !v.complementEdge)
    requires Below(layout, v.order, layout[v.index].owner, v.high)
    requires Below(layout, v.order, layout[v.index].owner, v.low)
    ensures WellFormed(layout, v)
  {
    assert WellFormed(layout, v.high) && WellFormed(layout, v.low);
    assert v.high.Id() < functionId && v.low.Id() < functionId by {
      if v.high.Ite? { assert v.high.id < functionId; }
      if v.low.Ite? { assert v.low.id < functionId; }
    }
  }

  /** Arguments of an operation: pinned live vertices of one scope. */
  ghost predicate Applicable(layout: Layout, live: set<Vertex>, pinned: set<Vertex>, one: Vertex, two: Vertex) {
    pinned <= live && One in live && one in pinned && two in pinned && SameScope(layout, one, two)
  }

  lemma SameId(layout: Layout, live: set<Vertex>, born: Births, functionId: nat, modules: map<int, Function>, u: Vertex, v: Vertex)
    requires Consistent(layout, live, born, functionId, modules)
    requires u in live && v in live && u.Id() == v.Id()
    ensures u == v
  {
  }

  // The branches of the second argument at the root variable of the first.

  function HighOf(one: Vertex, two: Vertex): Vertex
    requires one.Ite? && two.Ite?
  {
    if one.order == two.order then two.high else two
  }

  function LowOf(one: Vertex, two: Vertex): Vertex
    requires one.Ite? && two.Ite?
  {
    if one.order == two.order then two.low else two
  }

  function LowEdgeOf(one: Vertex, two: Vertex): bool
    requires one.Ite? && two.Ite?
  {
    one.order == two.order && two.complementEdge
  }

  /** The branches are live arguments of the same scope with smaller ids. */
  lemma Split(layout: Layout, live: set<Vertex>, born: Births, functionId: nat, modules: map<int, Function>, one: Vertex, two: Vertex)
    requires Consistent(layout, live, born, functionId, modules)
    requires one in live && two in live && one.Ite? && two.Ite? && SameScope(layout, one, two)
    requires one.order <= two.order
    ensures {One, one.high, one.low, HighOf(one, two), LowOf(one, two)} <= live
    ensures SameScope(layout, one.high, HighOf(one, two)) && SameScope(layout, one.low, LowOf(one, two))
    ensures one.high.Id() + HighOf(one, two).Id() < one.Id() + two.Id()
    ensures one.low.Id() + LowOf(one, two).Id() < one.Id() + two.Id()
    ensures WellFormed(layout, one) && WellFormed(layout, two)
  {
    assert WellFormed(layout, one) && WellFormed(layout, two);
  }

  /** The results for the branches may become the children of a vertex for the root variable. */
  lemma Joinable(layout: Layout, live: set<Vertex>, born: Births, functionId: nat, modules: map<int, Function>, op: Connective,
                 one: Vertex, two: Vertex, notOne: bool, notTwo: bool, high: Function, low: Function)
    requires Consistent(layout, live, born, functionId, modules)
    requires {one, two, high.vertex, low.vertex} <= live && one.Ite? && two.Ite? && SameScope(layout, one, two)
    requires one.order <= two.order
    requires Computes(layout, op, Function(notOne, one.high), Function(notTwo, HighOf(one, two)), high)
    requires Computes(layout, op, Function(notOne != one.complementEdge, one.low),
                      Function(notTwo != LowEdgeOf(one, two), LowOf(one, two)), low)
    ensures one.index in layout
    ensures layout[one.index].(lo := 0, owner := 0) == Item(one.order, 0, one.isModule, one.coherent, 0)
    ensures one.isModule ==> one.index in modules
    ensures Below(layout, one.order, layout[one.index].owner, high.vertex)
    ensures Below(layout, one.order, layout[one.index].owner, low.vertex)
    ensures high.vertex.Id() == low.vertex.Id() ==> high.vertex == low.vertex
  {
    assert WellFormed(layout, one) && WellFormed(layout, two);
  }

  /** The result of `ApplyIte` computes the operation. */
  lemma Join(layout: Layout, op: Connective,
             one: Vertex, two: Vertex, notOne: bool, notTwo: bool, high: Function, low: Function, r: Function)
    requires WellFormed(layout, one) && WellFormed(layout, two)
    requires one.Ite? && two.Ite? && one.order <= two.order
    requires Computes(layout, op, Function(notOne, one.high), Function(notTwo, HighOf(one, two)), high)
    requires Computes(layout, op, Function(notOne != one.complementEdge, one.low),
                      Function(notTwo != LowEdgeOf(one, two), LowOf(one, two)), low)
    requires r == high == low || r == Function(high.complement, Ite(r.vertex.Id(), one.index, one.order, one.isModule,
               one.coherent, high.vertex, low.vertex, high.complement != low.complement))
    ensures Computes(layout, op, Function(notOne, one), Function(notTwo, two), r)
  {
    assert one.order == two.order ==> one.index == two.index;
    var f, g := Function(notOne, one), Function(notTwo, two);
    forall a: Assignment
      ensures EvalF(r, a) == Connect(op, EvalF(f, a), EvalF(g, a))
    {
      if one.index in a {
        assert EvalF(high, a) == Connect(op, EvalF(Function(notOne, one.high), a), EvalF(Function(notTwo, HighOf(one, two)), a));
      } else {
        assert EvalF(low, a) == Connect(op, EvalF(Function(notOne != one.complementEdge, one.low), a),
                                        EvalF(Function(notTwo != LowEdgeOf(one, two), LowOf(one, two)), a));
      }
    }
    forall order, owner | Below(layout, order, owner, one) && Below(layout, order, owner, two)
      ensures Below(layout, order, owner, r.vertex)
    {
      assert Below(layout, order, owner, one.high);
      assert Below(layout, order, owner, HighOf(one, two));
    }
  }

  /** The ids of the arguments in increasing order, each with the sign of its complement. */
  function GetMinMaxId(one: Vertex, two: Vertex, complementOne: bool, complementTwo: bool): (int, int) {
    var idOne: int := one.Id();
    var idTwo: int := two.Id();
    var minId := if complementOne then -idOne else idOne;
    var maxId := if complementTwo then -idTwo else idTwo;
    if idOne > idTwo then (maxId, minId) else (minId, maxId)
  }

  /** A cache entry under the key of two live arguments is sound exactly when it computes
      the operation on these arguments. */
  lemma KeyMeaning(layout: Layout, live: set<Vertex>, born: Births, functionId: nat, op: Connective,
                   one: Vertex, two: Vertex, complementOne: bool, complementTwo: bool, r: Function)
    requires Numbered(live, born, functionId)
    requires one in live && two in live && one.Ite? && two.Ite?
    ensures SoundEntry(layout, born, op, GetMinMaxId(one, two, complementOne, complementTwo), r)
       <==> Computes(layout, op, Function(complementOne, one), Function(complementTwo, two), r)
  {
    var key := GetMinMaxId(one, two, complementOne, complementTwo);
    assert one.id in born && two.id in born && one.id >= 2 && two.id >= 2;
    assert if one.Id() > two.Id()
      then Named(born, key.1) == Function(complementOne, one) && Named(born, key.0) == Function(complementTwo, two)
      else Named(born, key.0) == Function(complementOne, one) && Named(born, key.1) == Function(complementTwo, two);
    ComputesCommutes(layout, op, Function(complementOne, one), Function(complementTwo, two), r);
  }

  lemma ComputesCommutes(layout: Layout, op: Connective, f: Function, g: Function, r: Function)
    ensures Computes(layout, op, f, g, r) == Computes(layout, op, g, f, r)
  {
  }
}
