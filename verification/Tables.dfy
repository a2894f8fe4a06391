/** The two hash tables of the BDD engine. Hash functions and growth policies are arbitrary. */
module Tables {
  import opened Vertices
  import opened Options

  /** A weak pointer: it refers to a vertex without keeping it alive. */
  datatype Slot = Null | Weak(vertex: Vertex)

  predicate Expired(slot: Slot, live: set<Vertex>) {
    slot.Null? || slot.vertex !in live
  }

  type Buckets = seq<seq<Slot>>

  ghost function Entries(table: Buckets): nat {
    if table == [] then 0 else |table[0]| + Entries(table[1..])
  }

  lemma {:induction false} EntriesUpdate(table: Buckets, b: nat, chain: seq<Slot>)
    requires b < |table|
    ensures Entries(table[b := chain]) == Entries(table) - |table[b]| + |chain|
  {
    if b == 0 {
      assert table[b := chain][1..] == table[1..];
    } else {
      assert table[b := chain][1..] == table[1..][b - 1 := chain];
      EntriesUpdate(table[1..], b - 1, chain);
    }
  }

  lemma {:induction false} EntriesEmpty(table: Buckets)
    requires forall b | 0 <= b < |table| :: table[b] == []
    ensures Entries(table) == 0
  {
    if table != [] {
      EntriesEmpty(table[1..]);
    }
  }

  /** The hash table of unique vertices. Chains hold weak pointers, so an entry may expire
      at any time; expired entries are dropped when a chain is searched or rehashed. */
  class UniqueTable {
    const hash: ((int, int, int)) -> nat
    const grow: nat -> nat
    var capacity: nat
    var size: int
    var table: Buckets

    ghost predicate Valid()
      reads this
    {
      && capacity == |table| > 0
      && size == Entries(table)
      && (forall n :: grow(n) > 0)
      && forall b, i | 0 <= b < |table| && 0 <= i < |table[b]| :: table[b][i].Weak? ==> table[b][i].vertex.Ite?
    }

    /** The entry of vertex `v` is in the chain where a search for its key looks. */
    ghost predicate Stored(v: Vertex)
      requires v.Ite? && capacity == |table| > 0
      reads this
    {
      Weak(v) in table[hash(v.Key()) % capacity]
    }

    ghost predicate AllStored(live: set<Vertex>)
      requires capacity == |table| > 0
      reads this
    {
      forall v | v in live && v.Ite? :: Stored(v)
    }

    constructor (hash: ((int, int, int)) -> nat, grow: nat -> nat, initCapacity: nat)
      requires initCapacity > 0 && forall n :: grow(n) > 0
      ensures Valid() && forall live | live <= {One} :: AllStored(live)
      ensures this.hash == hash && this.grow == grow
    {
      this.hash, this.grow := hash, grow;
      capacity, size := initCapacity, 0;
      table := seq(initCapacity, _ => []);
      new;
      EntriesEmpty(table);
    }

    /** Replaces one chain; every entry that is still live must stay. */
    method SetChain(bucket: nat, chain: seq<Slot>, ghost live: set<Vertex>)
      requires Valid() && AllStored(live) && bucket < capacity
      requires forall s | s in table[bucket] && !Expired(s, live) :: s in chain
      requires forall s | s in chain && s.Weak? :: s.vertex.Ite?
      modifies this
      ensures Valid() && AllStored(live) && capacity == old(capacity)
      ensures table == old(table)[bucket := chain]
    {
      EntriesUpdate(table, bucket, chain);
      size := size - |table[bucket]| + |chain|;
      table := table[bucket := chain];
    }

    /** Returns a reference to the entry of the live vertex with the given key, or to a
        fresh null entry if no live vertex has that key. */
    method FindOrAdd(live: set<Vertex>, key: (int, int, int)) returns (bucket: nat, position: nat)
      requires Valid() && AllStored(live)
      modifies this
      ensures Valid() && AllStored(live)
      ensures bucket == hash(key) % capacity && position < |table[bucket]|
      ensures match table[bucket][position]
              case Weak(v) => v in live && v.Ite? && v.Key() == key
              case Null => forall v | v in live && v.Ite? :: v.Key() != key
    {
      if 4 * size >= 3 * capacity {
        Rehash(live, grow(capacity));
      }
      bucket := hash(key) % capacity;
      position := 0;
      while position < |table[bucket]|
        invariant Valid() && AllStored(live)
        invariant bucket == hash(key) % capacity && position <= |table[bucket]|
        invariant forall s | s in table[bucket][..position] ::
                    !Expired(s, live) && s.vertex.Ite? && s.vertex.Key() != key
        decreases |table[bucket]| - position
      {
        var chain := table[bucket];
        var slot := chain[position];
        if Expired(slot, live) {
          var shorter := chain[..position] + chain[position + 1..];
          assert chain == chain[..position] + [slot] + chain[position + 1..];
          assert shorter[..position] == chain[..position];
          SetChain(bucket, shorter, live);
        } else if slot.vertex.Key() == key {
          return;
        } else {
          assert chain[..position + 1] == chain[..position] + [slot];
          position := position + 1;
        }
      }
      assert table[bucket][..position] == table[bucket];
      assert forall v | v in live && v.Ite? && v.Key() == key :: Stored(v);
      SetChain(bucket, table[bucket] + [Null], live);
    }

    /** Initialises the null entry that `FindOrAdd` returned for a new vertex. */
    method Assign(bucket: nat, position: nat, v: Vertex, ghost live: set<Vertex>)
      requires Valid() && AllStored(live) && v.Ite?
      requires bucket == hash(v.Key()) % capacity && position < |table[bucket]|
      requires table[bucket][position].Null?
      modifies this
      ensures Valid() && AllStored(live + {v})
    {
      var chain := table[bucket];
      assert chain == chain[..position] + [Null] + chain[position + 1..];
      SetChain(bucket, chain[..position] + [Weak(v)] + chain[position + 1..], live);
    }

    /** Moves the live entries to a table with another number of buckets. */
    method Rehash(live: set<Vertex>, newCapacity: nat)
      requires Valid() && AllStored(live) && newCapacity > 0
      modifies this
      ensures Valid() && AllStored(live)
      ensures capacity == newCapacity
      ensures forall chain, slot | chain in table && slot in chain :: !Expired(slot, live)
    {
      var newSize := 0;
      var newTable: Buckets := seq(newCapacity, _ => []);
      ghost var moved: set<Slot> := {};
      EntriesEmpty(newTable);
      for b := 0 to |table|
        invariant unchanged(this) && |newTable| == newCapacity && newSize == Entries(newTable)
        invariant Rehashed(newTable, live, moved)
        invariant forall i | 0 <= i < b :: forall slot <- table[i] :: slot in moved
      {
        assert forall slot <- table[b] :: slot.Weak? ==> slot.vertex.Ite?;
        var added;
        newTable, added, moved := MoveChain(table[b], newTable, live, moved);
        newSize := newSize + added;
      }
      Adopt(newTable, newSize, live, moved);
    }

    method Adopt(newTable: Buckets, newSize: int, ghost live: set<Vertex>, ghost moved: set<Slot>)
      requires Valid() && AllStored(live) && newTable != [] && newSize == Entries(newTable)
      requires Rehashed(newTable, live, moved)
      requires forall chain <- table :: forall slot <- chain :: slot in moved
      modifies this
      ensures Valid() && AllStored(live) && table == newTable
    {
      forall v | v in live && v.Ite?
        ensures Weak(v) in newTable[hash(v.Key()) % |newTable|]
      {
        assert Stored(v) && table[hash(v.Key()) % capacity] in table;
        assert Weak(v) in moved && !Expired(Weak(v), live);
      }
      forall b, i | 0 <= b < |newTable| && 0 <= i < |newTable[b]|
        ensures newTable[b][i].Weak? && newTable[b][i].vertex.Ite?
      {
        assert newTable[b] in newTable && newTable[b][i] in newTable[b];
      }
      table, size, capacity := newTable, newSize, |newTable|;
    }

    method MoveChain(chain: seq<Slot>, newTable: Buckets, live: set<Vertex>, ghost moved: set<Slot>)
        returns (r: Buckets, added: nat, ghost nowMoved: set<Slot>)
      requires newTable != [] && Rehashed(newTable, live, moved)
      requires forall slot <- chain :: slot.Weak? ==> slot.vertex.Ite?
      ensures |r| == |newTable| && Rehashed(r, live, nowMoved)
      ensures Entries(r) == Entries(newTable) + added
      ensures moved <= nowMoved && forall slot <- chain :: slot in nowMoved
    {
      r, added, nowMoved := newTable, 0, moved;
      for i := 0 to |chain|
        invariant |r| == |newTable| && Rehashed(r, live, nowMoved)
        invariant Entries(r) == Entries(newTable) + added
        invariant moved <= nowMoved && forall slot <- chain[..i] :: slot in nowMoved
      {
        if !Expired(chain[i], live) {
          r := Prepend(r, chain[i], live, nowMoved);
          added := added + 1;
        }
        nowMoved := nowMoved + {chain[i]};
      }
    }

    /** Puts a live entry at the front of its chain in the new table. */
    method Prepend(newTable: Buckets, slot: Slot, live: set<Vertex>, ghost moved: set<Slot>) returns (r: Buckets)
      requires newTable != [] && Rehashed(newTable, live, moved)
      requires !Expired(slot, live) && slot.vertex.Ite?
      ensures |r| == |newTable| && Rehashed(r, live, moved + {slot})
      ensures Entries(r) == Entries(newTable) + 1
    {
      var target := hash(slot.vertex.Key()) % |newTable|;
      var chain := [slot] + newTable[target];
      EntriesUpdate(newTable, target, chain);
      r := newTable[target := chain];
      forall c, s | c in r && s in c
        ensures !Expired(s, live) && s.vertex.Ite?
      {
        assert c == chain || c in newTable;
        assert s == slot || s in newTable[target] || c in newTable;
      }
    }

    /** The new table holds the live entries among `moved`, each in its bucket, and no others. */
    ghost predicate Rehashed(newTable: Buckets, live: set<Vertex>, moved: set<Slot>)
      requires newTable != []
    {
      && (forall slot | slot in moved && !Expired(slot, live) && slot.vertex.Ite? ::
            slot in newTable[hash(slot.vertex.Key()) % |newTable|])
      && (forall chain, slot | chain in newTable && slot in chain ::
            !Expired(slot, live) && slot.vertex.Ite?)
    }
  }

  datatype Entry = Entry(key: (int, int), value: Option<Function>)

  ghost function Filled(entries: seq<Entry>): nat {
    if entries == [] then 0 else (if entries[0].value.Some? then 1 else 0) + Filled(entries[1..])
  }

  lemma {:induction false} FilledUpdate(entries: seq<Entry>, i: nat, e: Entry)
    requires i < |entries|
    ensures Filled(entries[i := e])
         == Filled(entries) - (if entries[i].value.Some? then 1 else 0) + (if e.value.Some? then 1 else 0)
  {
    if i == 0 {
      assert entries[i := e][1..] == entries[1..];
    } else {
      assert entries[i := e][1..] == entries[1..][i - 1 := e];
      FilledUpdate(entries[1..], i - 1, e);
    }
  }

  lemma {:induction false} FilledNone(entries: seq<Entry>)
    requires forall e | e in entries :: e.value.None?
    ensures Filled(entries) == 0
  {
    if entries != [] {
      FilledNone(entries[1..]);
    }
  }

  /** The lossy hash table of computed results: a colliding entry is overwritten. The ghost
      field `latest` records the value last emplaced under each key since the last clear. */
  class CacheTable {
    const hash: ((int, int)) -> nat
    const grow: nat -> nat
    var size: int
    var entries: seq<Entry>
    ghost var latest: map<(int, int), Function>

    ghost predicate Valid()
      reads this
    {
      && |entries| > 0
      && size == Filled(entries)
      && (forall n :: grow(n) > 0)
      && Indexed(entries, latest)
    }

    /** Every filled entry sits where a search for its key looks and holds its latest value. */
    ghost predicate Indexed(entries: seq<Entry>, latest: map<(int, int), Function>)
      requires |entries| > 0
    {
      forall i | 0 <= i < |entries| && entries[i].value.Some? ::
        var e := entries[i];
        && hash(e.key) % |entries| == i
        && e.key in latest && latest[e.key] == e.value.value
    }

    /** The vertices that the table keeps alive. */
    ghost function Held(): set<Vertex>
      reads this
    {
      HeldBy(entries)
    }

    static function HeldBy(entries: seq<Entry>): set<Vertex> {
      set i | 0 <= i < |entries| && entries[i].value.Some? :: entries[i].value.value.vertex
    }

    constructor (hash: ((int, int)) -> nat, grow: nat -> nat, initCapacity: nat)
      requires initCapacity > 0 && forall n :: grow(n) > 0
      ensures Valid() && latest == map[] && Held() == {}
      ensures this.hash == hash && this.grow == grow
    {
      this.hash, this.grow, size := hash, grow, 0;
      entries := seq(initCapacity, _ => Entry((0, 0), None));
      latest := map[];
      new;
      FilledNone(entries);
    }

    method Clear()
      requires Valid()
      modifies this
      ensures Valid() && latest == map[] && Held() == {}
    {
      var i := 0;
      while i < |entries|
        invariant i <= |entries| == |old(entries)|
        invariant forall j | 0 <= j < i :: entries[j].value.None?
      {
        entries := entries[i := entries[i].(value := None)];
        i := i + 1;
      }
      size, latest := 0, map[];
      FilledNone(entries);
    }

    /** A found value is the one last emplaced under exactly this key. */
    method Find(key: (int, int)) returns (r: Option<Function>)
      requires Valid()
      ensures r.Some? ==> key in latest && latest[key] == r.value && r.value.vertex in Held()
      ensures r.None? <==> forall i | 0 <= i < |entries| && entries[i].value.Some? :: entries[i].key != key
    {
      var entry := entries[hash(key) % |entries|];
      r := if entry.value.None? || entry.key != key then None else entry.value;
    }

    /** The new value is found under its key; another entry may be purged for it. */
    method Emplace(key: (int, int), value: Function)
      requires Valid()
      modifies this
      ensures Valid() && latest == old(latest)[key := value]
      ensures Entry(key, Some(value)) in entries
      ensures Held() <= old(Held()) + {value.vertex}
    {
      if 4 * size >= 3 * |entries| {
        Rehash(grow(2 * |entries|));
      }
      var index := hash(key) % |entries|;
      var entry := Entry(key, Some(value));
      FilledUpdate(entries, index, entry);
      if entries[index].value.None? {
        size := size + 1;
      }
      ghost var before := entries;
      entries := entries[index := entry];
      assert entries[index] == entry;
      latest := latest[key := value];
      forall i | 0 <= i < |entries| && entries[i].value.Some?
        ensures var e := entries[i]; e.key in latest && latest[e.key] == e.value.value
        ensures i != index ==> entries[i].value.value.vertex in HeldBy(before)
      {
        if i != index {
          assert hash(before[i].key) % |before| == i;
        }
      }
    }

    /** Rehashing may lose entries, but it never changes the value of one. */
    method Rehash(newCapacity: nat)
      requires Valid() && newCapacity > 0
      modifies this
      ensures Valid() && latest == old(latest)
      ensures Held() <= old(Held()) && |entries| == newCapacity
    {
      var newSize := 0;
      var newTable := seq(newCapacity, _ => Entry((0, 0), None));
      FilledNone(newTable);
      for i := 0 to |entries|
        invariant Valid() && |newTable| == newCapacity && newSize == Filled(newTable)
        invariant latest == old(latest) && entries == old(entries)
        invariant Indexed(newTable, latest)
        invariant forall j | 0 <= j < |newTable| && newTable[j].value.Some? ::
                    newTable[j].value.value.vertex in Held()
      {
        var entry := entries[i];
        if entry.value.Some? {
          var index := hash(entry.key) % newCapacity;
          FilledUpdate(newTable, index, entry);
          if newTable[index].value.None? {
            newSize := newSize + 1;
          }
          newTable := newTable[index := entry];
        }
      }
      size, entries := newSize, newTable;
    }
  }
}
