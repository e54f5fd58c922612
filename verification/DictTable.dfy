// Collecting the hash table of a dictionary: a table that is full enough is copied slot by slot,
// another one is rebuilt with a smaller size.  Either way the dictionary stays the same.
module DictTable {

  type Key = int
  type Value = int

  datatype Node = Node(key: Key, value: Value)

  // A slot is empty, holds one node, or leads to a block of nodes that collide.
  datatype Slot = Empty | One(node: Node) | Block(nodes: seq<Node>) {
    function Nodes(): seq<Node> {
      match this case Empty => [] case One(n) => [n] case Block(ns) => ns
    }
  }

  datatype Option<T> = None | Some(value: T)

  // ---------------------------------------------------------------- sizes

  const MIN_FULL := 4

  // entries divided by 0.7, rounded down
  function Ideal(entries: nat): nat { entries * 10 / 7 }

  // 0.9 times the size, rounded down
  function MaxEntries(size: nat): nat { size * 9 / 10 }

  ghost predicate Step(sizes: seq<nat>, i: int) {
    0 < i < |sizes| && sizes[i - 1] < sizes[i] && (sizes[i] < MIN_FULL || 2 * sizes[i] <= 5 * sizes[i - 1])
  }

  // The sizes grow, each from 4 on to at most two and a half times the one before.
  ghost predicate Sizes(sizes: seq<nat>) {
    |sizes| > 0 && 0 < sizes[0] < MIN_FULL && forall i {:trigger Step(sizes, i)} :: 0 < i < |sizes| ==> Step(sizes, i)
  }

  const PRIMES_NUM := 46

  function Prime(i: nat): nat {
    match i
    case 0 => 1 case 1 => 3 case 2 => 5 case 3 => 11 case 4 => 23 case 5 => 41 case 6 => 71 case 7 => 127
    case 8 => 191 case 9 => 293 case 10 => 461 case 11 => 769 case 12 => 1153 case 13 => 1733 case 14 => 2633 case 15 =>
      4007
    case 16 => 6053 case 17 => 9109 case 18 => 13697 case 19 => 20551 case 20 => 30829 case 21 => 46301 case 22 =>
      69473 case 23 => 104347
    case 24 => 156521 case 25 => 234781 case 26 => 352229 case 27 => 528403 case 28 => 792881 case 29 =>
      1189637 case 30 => 1784459 case 31 => 2676727
    case 32 => 4015199 case 33 => 6022873 case 34 => 9034357 case 35 => 13551589 case 36 => 20327443 case 37 =>
      30491239 case 38 => 45736963 case 39 => 68605463
    case 40 => 102908261 case 41 => 154362469 case 42 => 231543727 case 43 => 347315603 case 44 => 520973503 case 45 =>
      781460413 case _ => 0
  }

  const PRIMES: seq<nat> := seq(PRIMES_NUM, i requires 0 <= i => Prime(i))

  lemma PrimesAreSizes()
    ensures Sizes(PRIMES)
  {
    forall i | 0 < i < |PRIMES| ensures Step(PRIMES, i) {
      assert PRIMES[i] == Prime(i) && PRIMES[i - 1] == Prime(i - 1);
    }
  }

  lemma {:induction false} SizesGrow(sizes: seq<nat>, i: nat, j: nat)
    requires Sizes(sizes) && i < j < |sizes|
    ensures sizes[i] < sizes[j]
  {
    assert Step(sizes, j);
    if i < j - 1 { SizesGrow(sizes, i, j - 1); }
  }

  // What the collection decides on.
  predicate Sparse(entries: nat, size: nat) { entries < size / MIN_FULL }

  // Compacting shrinks the table, and the next collection does not compact again.
  lemma CompactionSettles(sizes: seq<nat>, k: nat, entries: nat, j: nat)
    requires Sizes(sizes) && k < |sizes| && Sparse(entries, sizes[k])
    requires j <= k && sizes[j] >= Ideal(entries) && (j == 0 || sizes[j - 1] < Ideal(entries))
    ensures j < k && sizes[j] < sizes[k] && !Sparse(entries, sizes[j])
  {
    assert k > 0;
    assert Step(sizes, k);
    assert sizes[k - 1] >= Ideal(entries);
    if j == k { assert false; }
    SizesGrow(sizes, j, k);
    if j > 0 { assert Step(sizes, j); }
  }

  // What the two factors mean.
  lemma Rounded(entries: nat, size: nat)
    ensures 7 * Ideal(entries) <= 10 * entries < 7 * Ideal(entries) + 7
    ensures 10 * MaxEntries(size) <= 9 * size < 10 * MaxEntries(size) + 10
    ensures Sparse(entries, size) <==> 4 * (entries + 1) <= size
  {
  }

  // A table of the size aimed at has room for its entries, if and only if it is empty or larger than their number.
  lemma RoomExact(entries: nat, size: nat)
    requires size >= Ideal(entries)
    ensures entries <= MaxEntries(size) <==> entries == 0 || entries < size
  {
  }

  // The size of index j that replaces that of index k, and how many entries the new table may have.
  ghost predicate Compacted(sizes: seq<nat>, entries: nat, k: nat, j: nat, maxEntries: nat) {
    && j < k < |sizes| && sizes[j] < sizes[k]
    // the smallest size that is not below entries / 0.7, rounded down
    && 7 * (sizes[j] + 1) > 10 * entries && (j > 0 ==> 7 * (sizes[j - 1] + 1) <= 10 * entries)
    // 0.9 of it, rounded down
    && 10 * maxEntries <= 9 * sizes[j] < 10 * maxEntries + 10
    && (entries <= maxEntries <==> entries == 0 || entries < sizes[j])
    // the next collection does not compact again
    && 4 * (entries + 1) > sizes[j]
  }

  lemma SmallerSize(sizes: seq<nat>, entries: nat, k: nat, j: nat)
    requires Sizes(sizes) && k < |sizes| && Sparse(entries, sizes[k])
    requires j <= k && sizes[j] >= Ideal(entries) && (j == 0 || sizes[j - 1] < Ideal(entries))
    ensures Compacted(sizes, entries, k, j, MaxEntries(sizes[j]))
  {
    CompactionSettles(sizes, k, entries, j);
    Rounded(entries, sizes[j]);
    RoomExact(entries, sizes[j]);
  }

  // It has not when it is made for a single entry: a table of size 11 is replaced by one of size 1.
  lemma NoRoomForOne()
    ensures PRIMES[3] == 11 && Sparse(1, 11) && PRIMES[0] == 1 && Ideal(1) == 1 && MaxEntries(1) == 0
  {
    assert PRIMES[3] == Prime(3) && PRIMES[0] == Prime(0);
  }

  // That is the only case with the emulator's sizes.
  lemma RoomForOthers(entries: nat, i: nat)
    requires i < |PRIMES| && PRIMES[i] >= Ideal(entries) && entries != 1
    ensures entries <= MaxEntries(PRIMES[i])
  {
    assert PRIMES[i] == Prime(i);
    if entries == 2 { assert PRIMES[i] != 2; }
    RoomExact(entries, PRIMES[i]);
    if i > 0 {
      PrimesAreSizes();
      SizesGrow(PRIMES, 0, i);
    }
  }

  // ---------------------------------------------------------------- contents

  type Hash = Key -> nat

  // The nodes of slot i of n are entries of m, each key is where its hash value says, and none occurs twice.
  ghost predicate NodesOk(ns: seq<Node>, n: nat, h: Hash, m: map<Key, Value>, i: nat)
    requires n > 0
  {
    && (forall j {:trigger ns[j]} ::
      0 <= j < |ns| ==> ns[j].key in m && m[ns[j].key] == ns[j].value && h(ns[j].key) % n == i)
    && (forall j, l {:trigger ns[j], ns[l]} :: 0 <= j < l < |ns| ==> ns[j].key != ns[l].key)
  }

  ghost predicate SlotOk(slots: seq<Slot>, h: Hash, m: map<Key, Value>, i: nat) {
    i < |slots| && NodesOk(slots[i].Nodes(), |slots|, h, m, i) && (slots[i].Block? ==> |slots[i].nodes| > 0)
  }

  // An entry of m has a node in its slot.
  ghost predicate KeyOk(slots: seq<Slot>, h: Hash, m: map<Key, Value>, k: Key) {
    |slots| > 0 && k in m && Node(k, m[k]) in slots[h(k) % |slots|].Nodes()
  }

  // The slots hold exactly the entries of m.
  ghost predicate Holds(slots: seq<Slot>, h: Hash, m: map<Key, Value>) {
    && |slots| > 0
    && (forall i: nat {:trigger SlotOk(slots, h, m, i)} :: i < |slots| ==> SlotOk(slots, h, m, i))
    && (forall k {:trigger KeyOk(slots, h, m, k)} :: k in m ==> KeyOk(slots, h, m, k))
  }

  // The contents are determined by the slots.
  lemma HoldsOnce(slots: seq<Slot>, h: Hash, m: map<Key, Value>, m': map<Key, Value>)
    requires Holds(slots, h, m) && Holds(slots, h, m')
    ensures m == m'
  {
    forall k | k in m ensures k in m' && m'[k] == m[k] {
      assert KeyOk(slots, h, m, k) && SlotOk(slots, h, m', h(k) % |slots|);
    }
    forall k | k in m' ensures k in m {
      assert KeyOk(slots, h, m', k) && SlotOk(slots, h, m, h(k) % |slots|);
    }
  }

  lemma Inserted(slots: seq<Slot>, h: Hash, m: map<Key, Value>, node: Node, slot: Slot)
    requires Holds(slots, h, m) && node.key !in m && (slot.Block? ==> |slot.nodes| > 0)
    requires slot.Nodes() == slots[h(node.key) % |slots|].Nodes() + [node]
    ensures Holds(slots[h(node.key) % |slots| := slot], h, m[node.key := node.value])
  {
    var a := h(node.key) % |slots|;
    var slots', m' := slots[a := slot], m[node.key := node.value];
    forall i: nat | i < |slots'| ensures SlotOk(slots', h, m', i) { assert SlotOk(slots, h, m, i); }
    forall k | k in m' ensures KeyOk(slots', h, m', k) {
      if k != node.key { assert KeyOk(slots, h, m, k); }
    }
  }

  lemma EmptyHolds(slots: seq<Slot>, h: Hash)
    requires |slots| > 0 && forall i :: 0 <= i < |slots| ==> slots[i] == Empty
    ensures Holds(slots, h, map[])
  {
    forall i: nat | i < |slots| ensures SlotOk(slots, h, map[], i) {}
  }

  // The same slots with every value replaced by its copy.
  ghost function MapValues(m: map<Key, Value>, copy: Value -> Value): map<Key, Value> { map k | k in m :: copy(m[k]) }

  function CopyNode(n: Node, copy: Value -> Value): Node { Node(n.key, copy(n.value)) }

  ghost predicate SlotCopied(s: Slot, s': Slot, copy: Value -> Value) {
    && (s.Empty? <==> s'.Empty?) && (s.One? <==> s'.One?) && |s'.Nodes()| == |s.Nodes()|
    && forall j {:trigger s'.Nodes()[j]} :: 0 <= j < |s.Nodes()| ==> s'.Nodes()[j] == CopyNode(s.Nodes()[j], copy)
  }

  lemma CopyHolds(slots: seq<Slot>, slots': seq<Slot>, h: Hash, m: map<Key, Value>, copy: Value -> Value)
    requires Holds(slots, h, m) && |slots'| == |slots| && forall i ::
      0 <= i < |slots| ==> SlotCopied(slots[i], slots'[i], copy)
    ensures Holds(slots', h, MapValues(m, copy))
  {
    var m' := MapValues(m, copy);
    forall i: nat | i < |slots'| ensures SlotOk(slots', h, m', i) { assert SlotOk(slots, h, m, i)
      && SlotCopied(slots[i], slots'[i], copy); }
    forall k | k in m' ensures KeyOk(slots', h, m', k) {
      assert KeyOk(slots, h, m, k);
      var a := h(k) % |slots|;
      assert SlotCopied(slots[a], slots'[a], copy);
      var j :| 0 <= j < |slots[a].Nodes()| && slots[a].Nodes()[j] == Node(k, m[k]);
      assert slots'[a].Nodes()[j] == Node(k, m'[k]);
    }
  }

  // t has the copies of the entries of m in the slots before i, and of the first j nodes of slot i.
  ghost predicate Taken(m: map<Key, Value>, t: map<Key, Value>, h: Hash, n: nat, i: nat, ns: seq<Node>, j: nat,
                        copy: Value -> Value)
    requires n > 0
  {
    && j <= |ns|
    && (forall k {:trigger k in t} :: k in t ==> k in m && t[k] == copy(m[k]) && (h(k) % n < i || exists l ::
      0 <= l < j && ns[l].key == k))
    && (forall k {:trigger k in m} :: k in m && h(k) % n < i ==> k in t)
    && (forall l {:trigger ns[l]} :: 0 <= l < j ==> ns[l].key in t)
  }

  lemma TakenNext(m: map<Key, Value>, t: map<Key, Value>, h: Hash, n: nat, i: nat, ns: seq<Node>, j: nat,
                  copy: Value -> Value)
    requires n > 0 && Taken(m, t, h, n, i, ns, j, copy) && NodesOk(ns, n, h, m, i) && j < |ns|
    ensures ns[j].key !in t && Taken(m, t[ns[j].key := copy(ns[j].value)], h, n, i, ns, j + 1, copy)
  {
    var t' := t[ns[j].key := copy(ns[j].value)];
    forall k | k in t' ensures k in m && t'[k] == copy(m[k])
      && (h(k) % n < i || exists l :: 0 <= l < j + 1 && ns[l].key == k) {
      if k == ns[j].key { assert ns[j].key == k; }
    }
  }

  lemma SlotTaken(slots: seq<Slot>, m: map<Key, Value>, t: map<Key, Value>, h: Hash, i: nat, copy: Value -> Value)
    requires Holds(slots, h, m) && i < |slots| && Taken(m, t, h, |slots|, i, slots[i].Nodes(), |slots[i].Nodes()|, copy)
    ensures Taken(m, t, h, |slots|, i + 1, [], 0, copy)
  {
    var ns := slots[i].Nodes();
    assert SlotOk(slots, h, m, i);
    forall k | k in m && h(k) % |slots| < i + 1 ensures k in t {
      assert KeyOk(slots, h, m, k);
      if h(k) % |slots| == i {
        var l :| 0 <= l < |ns| && ns[l] == Node(k, m[k]);
      }
    }
  }

  // ---------------------------------------------------------------- the table

  class DictHashTable {
    const sizes: seq<nat>
    const featureHash: Hash
    var table: array<Slot>
    var sizeIndex: nat
    var entries: nat
    var maxEntries: nat
    ghost var model: map<Key, Value>

    // An empty table.
    constructor (sizes: seq<nat>, featureHash: Hash, sizeIndex: nat)
      requires Sizes(sizes) && sizeIndex < |sizes|
      ensures Valid() && fresh(table) && this.sizes == sizes && this.featureHash == featureHash
        && this.sizeIndex == sizeIndex
      ensures model == map[] && maxEntries == MaxEntries(sizes[sizeIndex])
    {
      SizePositive(sizes, sizeIndex);
      this.sizes, this.featureHash, this.sizeIndex, this.entries, this.model := sizes, featureHash, sizeIndex, 0, map[];
      maxEntries := MaxEntries(sizes[sizeIndex]);
      table := new Slot[sizes[sizeIndex]](_ => Empty);
      new;
      EmptyHolds(table[..], featureHash);
    }

    ghost predicate Valid()
      reads this, table
    {
      && Sizes(sizes) && sizeIndex < |sizes| && table.Length == sizes[sizeIndex]
      && Holds(table[..], featureHash, model) && entries == |model|
    }

    method Find(key: Key) returns (r: Option<Value>)
      requires Valid()
      ensures r == if key in model then Some(model[key]) else None
    {
      var a := featureHash(key) % table.Length;
      assert SlotOk(table[..], featureHash, model, a);
      assert key in model ==> KeyOk(table[..], featureHash, model, key);
      ghost var all := table[a].Nodes();
      assert NodesOk(all, table.Length, featureHash, model, a) && (key in model ==> Node(key, model[key]) in all);
      match table[a]
      case Empty => r := None;
      case One(n) =>
        assert all[0] == n;
        r := if n.key == key then Some(n.value) else None;
      case Block(ns) =>
        var j := 0;
        while j < |ns|
          invariant 0 <= j <= |ns| && forall l :: 0 <= l < j ==> ns[l].key != key
        {
          if ns[j].key == key { return Some(ns[j].value); }
          j := j + 1;
        }
        r := None;
    }

    // Put a copied node into the table; its key is new.  The number of entries is the caller's business.
    method CacDictEntry(n: Node, copy: Value -> Value)
      requires Sizes(sizes) && sizeIndex < |sizes| && table.Length == sizes[sizeIndex]
        && Holds(table[..], featureHash, model) && n.key !in model
      modifies table, `model
      ensures Holds(table[..], featureHash, model) && model == old(model)[n.key := copy(n.value)]
    {
      var a := featureHash(n.key) % table.Length;
      assert SlotOk(table[..], featureHash, model, a);
      var np := table[a];
      var copied := CopyNode(n, copy);
      ghost var slots := table[..];
      if np.Empty? {
        table[a] := One(copied);
      } else if np.One? {
        // a fresh collision
        table[a] := Block([np.node, copied]);
      } else {
        var newA: seq<Node> := [];
        var j := 0;
        while j < |np.nodes|
          invariant 0 <= j <= |np.nodes| && newA == np.nodes[..j] && table[..] == slots
        {
          newA := newA + [np.nodes[j]];
          j := j + 1;
        }
        table[a] := Block(newA + [copied]);
      }
      Inserted(slots, featureHash, model, copied, table[a]);
      assert table[..] == slots[a := table[a]];
      model := model[n.key := copied.value];
    }

    // The slots from index i on have been copied to an.
    method CopySlots(copy: Value -> Value) returns (an: array<Slot>)
      requires Valid()
      ensures fresh(an) && Holds(an[..], featureHash, MapValues(model, copy)) && an.Length == table.Length
      ensures forall i :: 0 <= i < table.Length ==> SlotCopied(table[i], an[i], copy)
    {
      an := new Slot[table.Length](_ => Empty);
      var i := table.Length;
      while i > 0
        invariant 0 <= i <= table.Length
        invariant forall l :: i <= l < table.Length ==> SlotCopied(table[l], an[l], copy)
      {
        i := i - 1;
        match table[i] {
          case Empty => an[i] := Empty;
          case One(n) => an[i] := One(CopyNode(n, copy));
          case Block(ns) => an[i] := Block(seq(|ns|, j requires 0 <= j < |ns| => CopyNode(ns[j], copy)));
        }
        assert SlotCopied(table[i], an[i], copy);
      }
      CopyHolds(table[..], an[..], featureHash, model, copy);
    }

    // A table with the fields of t and the slots of an.
    constructor CopyOf(t: DictHashTable, an: array<Slot>)
      ensures sizes == t.sizes && featureHash == t.featureHash && table == an && sizeIndex == t.sizeIndex
      ensures entries == t.entries && maxEntries == t.maxEntries && model == t.model
    {
      sizes, featureHash, table, sizeIndex, entries, maxEntries, model :=
        t.sizes, t.featureHash, an, t.sizeIndex, t.entries, t.maxEntries, t.model;
    }

    // The new index is the smallest one whose size is enough.
    method SmallerIndex() returns (j: nat)
      requires Valid() && Sparse(entries, sizes[sizeIndex])
      ensures j <= sizeIndex && sizes[j] >= Ideal(entries) && (j == 0 || sizes[j - 1] < Ideal(entries))
    {
      var newTableSize := Ideal(entries);
      var newSizeIndex := sizeIndex - 1;
      while newSizeIndex >= 0 && sizes[newSizeIndex] >= newTableSize
        invariant -1 <= newSizeIndex < sizeIndex && sizes[newSizeIndex + 1] >= newTableSize
      {
        newSizeIndex := newSizeIndex - 1;
      }
      j := newSizeIndex + 1;
    }

    // t is a table of its own, and holds the copies of the entries in the slots before i.
    ghost predicate Filled(t: DictHashTable, i: nat, copy: Value -> Value)
      requires table.Length > 0
      reads this, t, table, t.table
    {
      InOrder(t) && Taken(model, t.model, featureHash, table.Length, i, [], 0, copy)
    }

    ghost predicate InOrder(t: DictHashTable)
      reads t, t.table
    {
      Sizes(t.sizes) && t.sizeIndex < |t.sizes| && t.table.Length == t.sizes[t.sizeIndex]
        && Holds(t.table[..], t.featureHash, t.model)
    }

    method FillSlot(t: DictHashTable, i: nat, copy: Value -> Value)
      requires Valid() && Filled(t, i, copy) && i < table.Length && t != this && t.table != table
      modifies t.table, t`model
      ensures Valid() && Filled(t, i + 1, copy)
    {
      var ns := table[i].Nodes();
      assert SlotOk(table[..], featureHash, model, i);
      var j := 0;
      while j < |ns|
        invariant 0 <= j <= |ns| && Valid() && InOrder(t)
          && Taken(model, t.model, featureHash, table.Length, i, ns, j, copy)
      {
        TakenNext(model, t.model, featureHash, table.Length, i, ns, j, copy);
        t.CacDictEntry(ns[j], copy);
        j := j + 1;
      }
      SlotTaken(table[..], model, t.model, featureHash, i, copy);
    }

    // A new table of another size, filled with the copied entries.
    method Rebuild(newSizeIndex: nat, copy: Value -> Value) returns (dht: DictHashTable)
      requires Valid() && newSizeIndex < |sizes|
      ensures fresh(dht) && fresh(dht.table) && dht.Valid() && dht.model == MapValues(model, copy)
        && dht.entries == entries
      ensures dht.sizes == sizes && dht.featureHash == featureHash && dht.sizeIndex == newSizeIndex
        && dht.maxEntries == MaxEntries(sizes[newSizeIndex])
    {
      SizePositive(sizes, newSizeIndex);
      var newTableSize := sizes[newSizeIndex];
      var an := new Slot[newTableSize](_ => Empty);
      dht := new DictHashTable.CopyOf(this, an);
      dht.sizeIndex := newSizeIndex;
      dht.maxEntries := MaxEntries(newTableSize);
      dht.model := map[];
      EmptyHolds(an[..], featureHash);
      FillAll(dht, copy);
      SameSize(model, dht.model);
    }

    method FillAll(t: DictHashTable, copy: Value -> Value)
      requires Valid() && Filled(t, 0, copy) && t != this && t.table != table
      modifies t.table, t`model
      ensures Valid() && Holds(t.table[..], t.featureHash, t.model) && t.model == MapValues(model, copy)
    {
      var i := 0;
      while i < table.Length
        invariant 0 <= i <= table.Length && Valid() && Filled(t, i, copy)
      {
        FillSlot(t, i, copy);
        i := i + 1;
      }
      FilledAll(t, copy);
    }

    lemma FilledAll(t: DictHashTable, copy: Value -> Value)
      requires table.Length > 0 && Filled(t, table.Length, copy)
      ensures t.model == MapValues(model, copy)
    {
      var m := MapValues(model, copy);
      forall k | k in m ensures k in t.model && t.model[k] == m[k] { assert k in model
        && featureHash(k) % table.Length < table.Length; }
      forall k | k in t.model ensures k in m {}
    }

    // The collection of the table.
    method Collect(copy: Value -> Value) returns (dht: DictHashTable)
      requires Valid()
      ensures fresh(dht) && fresh(dht.table) && dht.Valid() && dht.model == MapValues(model, copy)
        && dht.entries == entries
      ensures dht.sizes == sizes && dht.featureHash == featureHash
      ensures 4 * (entries + 1) > table.Length ==>
        && dht.sizeIndex == sizeIndex && dht.maxEntries == maxEntries && dht.table.Length == table.Length
        && forall i :: 0 <= i < table.Length ==> SlotCopied(table[i], dht.table[i], copy)
      ensures 4 * (entries + 1) <= table.Length ==>
        dht.table.Length < table.Length && Compacted(sizes, entries, sizeIndex, dht.sizeIndex, dht.maxEntries)
      ensures 4 * (entries + 1) > dht.table.Length
    {
      var tableSize := sizes[sizeIndex];
      Rounded(entries, tableSize);
      if !Sparse(entries, tableSize) {
        dht := CopyWhole(copy);
      } else {
        dht := Compact(copy);
      }
    }

    // A table of the same size.
    method CopyWhole(copy: Value -> Value) returns (dht: DictHashTable)
      requires Valid()
      ensures fresh(dht) && fresh(dht.table) && dht.Valid() && dht.model == MapValues(model, copy)
        && dht.entries == entries
      ensures dht.sizes == sizes && dht.featureHash == featureHash
      ensures dht.sizeIndex == sizeIndex && dht.maxEntries == maxEntries && dht.table.Length == table.Length
        && forall i :: 0 <= i < table.Length ==> SlotCopied(table[i], dht.table[i], copy)
    {
      var an := CopySlots(copy);
      dht := new DictHashTable.CopyOf(this, an);
      dht.model := MapValues(model, copy);
      SameSize(model, dht.model);
    }

    // A smaller table.
    method Compact(copy: Value -> Value) returns (dht: DictHashTable)
      requires Valid() && Sparse(entries, sizes[sizeIndex])
      ensures fresh(dht) && fresh(dht.table) && dht.Valid() && dht.model == MapValues(model, copy)
        && dht.entries == entries
      ensures dht.sizes == sizes && dht.featureHash == featureHash
      ensures dht.table.Length < table.Length
      ensures Compacted(sizes, entries, sizeIndex, dht.sizeIndex, dht.maxEntries)
    {
      var newSizeIndex := SmallerIndex();
      SmallerSize(sizes, entries, sizeIndex, newSizeIndex);
      dht := Rebuild(newSizeIndex, copy);
    }
  }

  lemma SizePositive(sizes: seq<nat>, i: nat)
    requires Sizes(sizes) && i < |sizes|
    ensures sizes[i] > 0
  {
    if i > 0 { SizesGrow(sizes, 0, i); }
  }

  lemma SameSize(m: map<Key, Value>, m': map<Key, Value>)
    requires m'.Keys == m.Keys
    ensures |m'| == |m|
  {
    assert |m.Keys| == |m| && |m'.Keys| == |m'|;
  }
}
