/**
 Sequential operations on the index refine a plain map from keys to values: whatever was inserted,
 updated and deleted before, a search answers as the map would.
*/
module RaceTable {
  import opened Common
  import opened Packing
  import opened RaceIndex

  type Key = seq<Byte>
  type Value = seq<Byte>

  /** An object in a server's memory, and where it is. */
  datatype Object = Object(key: Key, value: Value)
  datatype Address = Address(sid: Byte, addr: nat)

  /** The slots in use (all others are zero) and the objects written. */
  datatype Table = Table(slots: map<Pos, RaceSlot>, heap: map<Address, Object>)

  function SlotAt(t: Table, p: Pos): RaceSlot {
    if p in t.slots then t.slots[p] else Zero()
  }

  function Target(s: RaceSlot): Address
    requires Formed(s)
  {
    Address(s.serverId, SlotAddr(s))
  }

  /** Slot `p` holds an object, of this key. */
  ghost predicate Has(t: Table, p: Pos, k: Key) {
    p in t.slots && Formed(t.slots[p]) && Target(t.slots[p]) in t.heap && t.heap[Target(t.slots[p])].key == k
  }

  function ObjectAt(t: Table, p: Pos): Object
    requires p in t.slots && Formed(t.slots[p]) && Target(t.slots[p]) in t.heap
  {
    t.heap[Target(t.slots[p])]
  }

  /** `p` is one of the 28 slots of a key's window. */
  ghost predicate InWindow(h: Home, p: Pos) {
    exists i :: 0 <= i < WINDOW && Place(h, i) == p
  }

  /** A slot in use points to an object whose key has its home, and its fingerprint, there. */
  ghost predicate SlotOk(t: Table, hash: Key -> Word, p: Pos) {
    && p in t.slots && Formed(t.slots[p]) && t.slots[p].kvLen != 0 && Target(t.slots[p]) in t.heap
    && var h := Locate(hash(ObjectAt(t, p).key));
       InWindow(h, p) && t.slots[p].fp == h.fp
  }

  ghost predicate SlotsOk(t: Table, hash: Key -> Word) {
    forall p :: p in t.slots ==> SlotOk(t, hash, p)
  }

  /** No key is in two slots. */
  ghost predicate Unique(t: Table) {
    forall p, q, k :: Has(t, p, k) && Has(t, q, k) ==> p == q
  }

  /** The table stands for the map `m`. */
  ghost predicate Represents(t: Table, m: map<Key, Value>) {
    && (forall p, k :: Has(t, p, k) ==> k in m && m[k] == ObjectAt(t, p).value)
    && (forall k :: k in m ==> exists p :: Has(t, p, k))
  }

  ghost predicate Refines(t: Table, hash: Key -> Word, m: map<Key, Value>) {
    SlotsOk(t, hash) && Unique(t) && Represents(t, m)
  }

  /** The window of a key as it is read. */
  function Read(t: Table, h: Home): Window {
    seq(WINDOW, i requires 0 <= i < WINDOW => SlotAt(t, Place(h, i)))
  }

  /** The object address is free to be written: no slot points there. */
  ghost predicate Spare(t: Table, a: Address) {
    Aligned(a.addr) && forall p :: p in t.slots && Formed(t.slots[p]) ==> Target(t.slots[p]) != a
  }

  /** Writing an object and pointing slot `p` to it. */
  function Stored(t: Table, p: Pos, h: Home, a: Address, len: Byte, k: Key, v: Value): Table {
    Table(t.slots[p := FillSlot(h.fp, len, a.sid, a.addr)], t.heap[a := Object(k, v)])
  }

  function Removed(t: Table, p: Pos): Table {
    t.(slots := t.slots - {p})
  }

  /** After a store the new slot has the key, every other slot has what it had. */
  lemma StoredHas(t: Table, p: Pos, h: Home, a: Address, len: Byte, k: Key, v: Value, q: Pos, k': Key)
    requires Spare(t, a)
    ensures Has(Stored(t, p, h, a, len, k, v), q, k') <==> if q == p then k' == k else Has(t, q, k')
    ensures var u := Stored(t, p, h, a, len, k, v);
            && (Has(u, p, k) ==> ObjectAt(u, p).value == v)
            && (q != p && Has(t, q, k') ==> ObjectAt(u, q) == ObjectAt(t, q))
  {
    UnpackPack(a.addr);
  }

  lemma StoredSlots(t: Table, hash: Key -> Word, p: Pos, h: Home, a: Address, len: Byte, k: Key, v: Value)
    requires SlotsOk(t, hash) && Spare(t, a) && h == Locate(hash(k)) && InWindow(h, p) && len != 0
    ensures SlotsOk(Stored(t, p, h, a, len, k, v), hash)
  {
    var u := Stored(t, p, h, a, len, k, v);
    UnpackPack(a.addr);
    forall q | q in u.slots ensures SlotOk(u, hash, q) {
      if q != p { assert SlotOk(t, hash, q); }
    }
  }

  /** The slots of the keys after a store. */
  lemma StoredEverywhere(t: Table, p: Pos, h: Home, a: Address, len: Byte, k: Key, v: Value)
    requires Spare(t, a)
    ensures var u := Stored(t, p, h, a, len, k, v);
            && (forall q, k' :: Has(u, q, k') <==> if q == p then k' == k else Has(t, q, k'))
            && Has(u, p, k) && ObjectAt(u, p).value == v
            && (forall q, k' :: q != p && Has(t, q, k') ==> ObjectAt(u, q) == ObjectAt(t, q))
  {
    var u := Stored(t, p, h, a, len, k, v);
    forall q, k' ensures Has(u, q, k') <==> if q == p then k' == k else Has(t, q, k') {
      StoredHas(t, p, h, a, len, k, v, q, k');
    }
    assert Has(u, p, k);
    StoredHas(t, p, h, a, len, k, v, p, k);
    forall q, k' | q != p && Has(t, q, k') ensures ObjectAt(u, q) == ObjectAt(t, q) {
      StoredHas(t, p, h, a, len, k, v, q, k');
    }
  }

  lemma StoredUnique(t: Table, m: map<Key, Value>, p: Pos, h: Home, a: Address, len: Byte, k: Key, v: Value)
    requires Unique(t) && Represents(t, m) && Spare(t, a)
    requires Has(t, p, k) || (p !in t.slots && k !in m)
    ensures Unique(Stored(t, p, h, a, len, k, v))
  {
    StoredEverywhere(t, p, h, a, len, k, v);
  }

  lemma StoredRepresents(t: Table, m: map<Key, Value>, p: Pos, h: Home, a: Address, len: Byte, k: Key, v: Value)
    requires Unique(t) && Represents(t, m) && Spare(t, a)
    requires Has(t, p, k) || (p !in t.slots && k !in m)
    ensures Represents(Stored(t, p, h, a, len, k, v), m[k := v])
  {
    var u, m' := Stored(t, p, h, a, len, k, v), m[k := v];
    StoredEverywhere(t, p, h, a, len, k, v);
    forall q, k' | Has(u, q, k') ensures k' in m' && m'[k'] == ObjectAt(u, q).value {
      if q != p { assert Has(t, q, k'); }
    }
    forall k' | k' in m' ensures exists q :: Has(u, q, k') {
      if k' != k {
        var q :| Has(t, q, k');
        assert Has(u, q, k');
      }
    }
  }

  /** Inserting an absent key in a free slot, or replacing the slot of the key, is one map update. */
  lemma StoredRefines(t: Table, hash: Key -> Word, m: map<Key, Value>, p: Pos, h: Home, a: Address, len: Byte, k: Key, v: Value)
    requires Refines(t, hash, m) && Spare(t, a) && h == Locate(hash(k)) && InWindow(h, p) && len != 0
    requires Has(t, p, k) || (p !in t.slots && k !in m)
    ensures Refines(Stored(t, p, h, a, len, k, v), hash, m[k := v])
  {
    StoredSlots(t, hash, p, h, a, len, k, v);
    StoredUnique(t, m, p, h, a, len, k, v);
    StoredRepresents(t, m, p, h, a, len, k, v);
  }

  lemma RemovedRefines(t: Table, hash: Key -> Word, m: map<Key, Value>, p: Pos, k: Key)
    requires Refines(t, hash, m) && Has(t, p, k)
    ensures Refines(Removed(t, p), hash, m - {k})
  {
    var u, m' := Removed(t, p), m - {k};
    forall q | q in u.slots ensures SlotOk(u, hash, q) { assert SlotOk(t, hash, q); }
    forall q, k' ensures Has(u, q, k') <==> q != p && Has(t, q, k') {}
    forall k' | k' in m' ensures exists q :: Has(u, q, k') {
      var q :| Has(t, q, k');
      assert Has(u, q, k');
    }
  }

  /** Storing a key that is already elsewhere leaves it in two slots: exactly then uniqueness is lost. */
  lemma StoredTwice(t: Table, hash: Key -> Word, m: map<Key, Value>, p: Pos, h: Home, a: Address, len: Byte, k: Key, v: Value)
    requires Refines(t, hash, m) && Spare(t, a) && p !in t.slots
    ensures Unique(Stored(t, p, h, a, len, k, v)) <==> k !in m
  {
    var u := Stored(t, p, h, a, len, k, v);
    StoredEverywhere(t, p, h, a, len, k, v);
    if k in m {
      var q :| Has(t, q, k);
      assert Has(u, q, k) && Has(u, p, k) && q != p;
    }
  }

  /** A key's slot, if it has one, is in its window and passes the fingerprint test. */
  lemma KeyVisible(t: Table, hash: Key -> Word, m: map<Key, Value>, k: Key) returns (i: nat)
    requires Refines(t, hash, m) && k in m
    ensures i < WINDOW && Has(t, Place(Locate(hash(k)), i), k)
    ensures var s := Read(t, Locate(hash(k)))[i]; s.fp == Locate(hash(k)).fp && s.kvLen != 0
  {
    var p :| Has(t, p, k);
    assert SlotOk(t, hash, p);
    i :| 0 <= i < WINDOW && Place(Locate(hash(k)), i) == p;
  }

  /** A slot that reads as free is not in use, and the other way round. */
  lemma FreeIsUnused(t: Table, hash: Key -> Word, p: Pos)
    requires SlotsOk(t, hash)
    ensures Free(SlotAt(t, p)) <==> p !in t.slots
  {
    if p in t.slots { assert SlotOk(t, hash, p); }
  }

  lemma ReadFree(t: Table, hash: Key -> Word, h: Home)
    requires SlotsOk(t, hash)
    ensures forall i :: 0 <= i < WINDOW ==> (Free(Read(t, h)[i]) <==> Place(h, i) !in t.slots)
    ensures Full(Read(t, h)) <==> forall i :: 0 <= i < WINDOW ==> Place(h, i) in t.slots
  {
    var w := Read(t, h);
    forall i | 0 <= i < WINDOW ensures Free(w[i]) <==> Place(h, i) !in t.slots {
      FreeIsUnused(t, hash, Place(h, i));
    }
    if !Full(w) {
      var i :| 0 <= i < WINDOW && Free(w[i]);
      assert Place(h, i) !in t.slots;
    }
    if i :| 0 <= i < WINDOW && Place(h, i) !in t.slots {
      assert Free(w[i]);
    }
  }

  /** What `find_match_kv_idx` is given: candidate slots and the objects read through them. */
  ghost predicate Readable(t: Table, h: Home, found: seq<nat>) {
    forall i :: 0 <= i < |found| ==>
      && found[i] < WINDOW && Place(h, found[i]) in t.slots
      && Formed(t.slots[Place(h, found[i])]) && Target(t.slots[Place(h, found[i])]) in t.heap
  }

  lemma FoundReadable(t: Table, hash: Key -> Word, h: Home, found: seq<nat>)
    requires SlotsOk(t, hash)
    requires forall i :: 0 <= i < |found| ==> found[i] < WINDOW && Read(t, h)[found[i]].kvLen != 0
    ensures Readable(t, h, found)
  {
    forall i | 0 <= i < |found| ensures Place(h, found[i]) in t.slots && SlotOk(t, hash, Place(h, found[i])) {}
  }

  /** `find_match_kv_idx`: the first candidate whose object has the key. */
  method FindMatch(t: Table, h: Home, found: seq<nat>, k: Key) returns (i: int)
    requires Readable(t, h, found)
    ensures -1 <= i < |found|
    ensures i == -1 ==> forall j :: 0 <= j < |found| ==> !Has(t, Place(h, found[j]), k)
    ensures i >= 0 ==> Has(t, Place(h, found[i]), k)
  {
    for j := 0 to |found|
      invariant forall m :: 0 <= m < j ==> !Has(t, Place(h, found[m]), k)
    {
      if ObjectAt(t, Place(h, found[j])).key == k { return j; }
    }
    return -1;
  }

  class Index {
    const hash: Key -> Word
    var table: Table
    ghost var model: map<Key, Value>

    ghost predicate Valid()
      reads this
    {
      Refines(table, hash, model)
    }

    constructor (f: Key -> Word)
      ensures Valid() && model == map[] && hash == f
    {
      hash, table, model := f, Table(map[], map[]), map[];
    }

    /** Where a key is: `find_kv_in_buckets` and `find_match_kv_idx`. */
    method Find(k: Key) returns (at: int)
      requires Valid()
      ensures -1 <= at < WINDOW && (at == -1 <==> k !in model)
      ensures at >= 0 ==> Has(table, Place(Locate(hash(k)), at), k)
    {
      var h := Locate(hash(k));
      var found := FindKv(Read(table, h), h.fp);
      FoundReadable(table, hash, h, found);
      var i := FindMatch(table, h, found, k);
      if i == -1 {
        if k in model {
          ghost var j := KeyVisible(table, hash, model, k);
        }
        return -1;
      }
      return found[i];
    }

    method Search(k: Key) returns (r: Option<Value>)
      requires Valid()
      ensures r == if k in model then Some(model[k]) else None
    {
      var at := Find(k);
      if at == -1 { return None; }
      return Some(ObjectAt(table, Place(Locate(hash(k)), at)).value);
    }

    /** A free slot of the window, unless all are in use. */
    method EmptySlot(h: Home) returns (at: int)
      requires Valid()
      ensures -1 <= at < WINDOW && (at >= 0 ==> Place(h, at) !in table.slots)
      ensures at == -1 ==> forall i :: 0 <= i < WINDOW ==> Place(h, i) in table.slots
    {
      at := FindEmptySlot(Read(table, h), MainOf(h.first), MainOf(h.second));
      ReadFree(table, hash, h);
    }

    /** INSERT does not look for the key.  It fails exactly when the window is full. */
    method Insert(k: Key, v: Value, a: Address, len: Byte) returns (ok: bool)
      requires Valid() && Spare(table, a) && len != 0
      modifies this
      ensures ok <==> exists i :: 0 <= i < WINDOW && Place(Locate(hash(k)), i) !in old(table).slots
      ensures !ok ==> table == old(table) && model == old(model)
      ensures ok ==> exists p :: InWindow(Locate(hash(k)), p) && p !in old(table).slots
                       && table == Stored(old(table), p, Locate(hash(k)), a, len, k, v)
      ensures k !in old(model) ==> Valid() && model == if ok then old(model)[k := v] else old(model)
    {
      var h := Locate(hash(k));
      var at := EmptySlot(h);
      if at == -1 { return false; }
      var p := Place(h, at);
      assert InWindow(h, p) && p !in table.slots;
      if k !in model {
        StoredRefines(table, hash, model, p, h, a, len, k, v);
        model := model[k := v];
      }
      table := Stored(table, p, h, a, len, k, v);
      return true;
    }

    method Update(k: Key, v: Value, a: Address, len: Byte) returns (ok: bool)
      requires Valid() && Spare(table, a) && len != 0
      modifies this
      ensures Valid() && (ok <==> k in old(model))
      ensures model == if ok then old(model)[k := v] else old(model)
      ensures !ok ==> table == old(table)
    {
      var at := Find(k);
      if at == -1 { return false; }
      var h := Locate(hash(k));
      assert InWindow(h, Place(h, at));
      StoredRefines(table, hash, model, Place(h, at), h, a, len, k, v);
      table := Stored(table, Place(h, at), h, a, len, k, v);
      model := model[k := v];
      return true;
    }

    method Delete(k: Key) returns (ok: bool)
      requires Valid()
      modifies this
      ensures Valid() && (ok <==> k in old(model)) && model == old(model) - {k}
      ensures !ok ==> table == old(table)
    {
      var at := Find(k);
      if at == -1 {
        assert model - {k} == model;
        return false;
      }
      RemovedRefines(table, hash, model, Place(Locate(hash(k)), at), k);
      table := Removed(table, Place(Locate(hash(k)), at));
      model := model - {k};
      return true;
    }
  }
}
