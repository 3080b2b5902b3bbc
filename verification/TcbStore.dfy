/**
 * The TCB store of tcp_tcb.c: an open-addressing table with tombstones over a
 * preallocated array, and a stack of free indices. The four-tuple hash is an
 * arbitrary function. Slot arithmetic is modulo the table size, which is what
 * masking computes because the size is a power of two.
 */
module TcbStore {
  import opened Basics
  import opened Powers

  const EMPTY: int := -1
  const TOMBSTONE: int := -2
  const MAX_CAPACITY: int := 0x4000_0000

  datatype Key = Key(srcIp: nat, srcPort: nat, dstIp: nat, dstPort: nat)

  datatype Tcb = Tcb(inUse: bool, key: Key)

  const ZERO: Tcb := Tcb(false, Key(0, 0, 0, 0))

  // ------------------------------------------------------------ probe paths

  function Probe(h: nat, k: nat, size: nat): (s: nat)
    requires size > 0
    ensures s < size
  {
    (h + k) % size
  }

  /** The slot where probing for a key starts. */
  function Home(hash: Key -> nat, key: Key, size: nat): (h: nat)
    requires size > 0
  {
    hash(key) % size
  }

  /** From slot h the table reaches index i before any empty slot. */
  ghost predicate Findable(ht: seq<int>, h: nat, i: int) {
    exists k: nat :: k < |ht| && ht[Probe(h, k, |ht|)] == i && Unbroken(ht, h, k)
  }

  predicate Unbroken(ht: seq<int>, h: nat, k: nat)
    requires |ht| > 0
  {
    forall j: nat :: j < k ==> ht[Probe(h, j, |ht|)] != EMPTY
  }

  ghost predicate TableOk(ht: seq<int>, tcbs: seq<Tcb>, hash: Key -> nat) {
    && |ht| > 0
    && (forall s :: 0 <= s < |ht| ==>
          ht[s] == EMPTY || ht[s] == TOMBSTONE || (0 <= ht[s] < |tcbs| && tcbs[ht[s]].inUse))
    && (forall s, t :: 0 <= s < t < |ht| && ht[s] >= 0 ==> ht[s] != ht[t])
    && (forall i :: 0 <= i < |tcbs| && tcbs[i].inUse ==> Findable(ht, Home(hash, tcbs[i].key, |ht|), i))
  }

  lemma ProbeCovers(h: nat, s: nat, size: nat) returns (k: nat)
    requires s < size
    ensures k < size && Probe(h, k, size) == s
  {
    var r := h % size;
    k := if s >= r then s - r else s + size - r;
    var q := h / size;
    assert h == q * size + r;
    if s >= r {
      ModShift(s, q, size);
    } else {
      ModShift(s, q + 1, size);
      assert (q + 1) * size == q * size + size;
    }
  }

  lemma {:induction false} ModShift(s: nat, q: nat, size: nat)
    requires s < size
    ensures (q * size + s) % size == s
    decreases q
  {
    if q > 0 {
      ModShift(s, q - 1, size);
      assert q * size + s == ((q - 1) * size + s) + size;
      AddModulus((q - 1) * size + s, size);
    }
  }

  lemma AddModulus(x: nat, size: nat)
    requires size > 0
    ensures (x + size) % size == x % size
  {
    var q := x / size;
    assert x + size == (q + 1) * size + x % size by { assert (q + 1) * size == q * size + size; }
    QuotientUnique(x + size, size, q + 1, x % size);
  }

  // -------------------------------------------------------------- pigeonhole

  function Range(n: nat): (r: set<int>)
    ensures forall v :: v in r <==> 0 <= v < n
    ensures |r| == n
  {
    if n == 0 then {} else Range(n - 1) + {n - 1}
  }

  /** Distinct indices below n are at most n many. */
  lemma Pigeonhole(xs: seq<int>, n: nat)
    requires forall i :: 0 <= i < |xs| ==> 0 <= xs[i] < n
    requires forall i, j :: 0 <= i < j < |xs| ==> xs[i] != xs[j]
    ensures |xs| <= n
  {
    var values := set v | v in xs;
    DistinctSize(xs, values);
    SubsetSize(values, Range(n));
  }

  lemma {:induction false} DistinctSize(xs: seq<int>, values: set<int>)
    requires values == set v | v in xs
    requires forall i, j :: 0 <= i < j < |xs| ==> xs[i] != xs[j]
    ensures |values| == |xs|
    decreases |xs|
  {
    if xs != [] {
      var n := |xs| - 1;
      var rest := set v | v in xs[..n];
      assert forall v :: v in xs <==> v in xs[..n] || v == xs[n];
      assert values == rest + {xs[n]};
      DistinctSize(xs[..n], rest);
    }
  }

  lemma {:induction false} SubsetSize<T>(a: set<T>, b: set<T>)
    requires a <= b
    ensures |a| <= |b|
    decreases a
  {
    if a != {} {
      var x :| x in a;
      SubsetSize(a - {x}, b - {x});
    }
  }

  /** With more slots than records, some slot holds no record. */
  lemma FreeSlotExists(ht: seq<int>, tcbs: seq<Tcb>, hash: Key -> nat) returns (s: nat)
    requires TableOk(ht, tcbs, hash) && |ht| > |tcbs|
    ensures s < |ht| && ht[s] < 0
  {
    if forall t :: 0 <= t < |ht| ==> ht[t] >= 0 {
      Pigeonhole(ht, |tcbs|);
      assert false;
    }
    s :| 0 <= s < |ht| && ht[s] < 0;
  }

  // ------------------------------------------------------ table transitions

  /** Filling the first free slot of the probe path with a new record keeps every path. */
  lemma InsertKeepsTable(ht: seq<int>, tcbs: seq<Tcb>, hash: Key -> nat,
                         idx: nat, key: Key, h: nat, k: nat)
    requires TableOk(ht, tcbs, hash) && idx < |tcbs| && !tcbs[idx].inUse && k < |ht|
    requires h == Home(hash, key, |ht|)
    requires Unbroken(ht, h, k) && ht[Probe(h, k, |ht|)] < 0
    ensures TableOk(ht[Probe(h, k, |ht|) := idx], tcbs[idx := Tcb(true, key)], hash)
  {
    var slot := Probe(h, k, |ht|);
    var ht' := ht[slot := idx];
    var tcbs' := tcbs[idx := Tcb(true, key)];
    forall i | 0 <= i < |tcbs'| && tcbs'[i].inUse ensures Findable(ht', Home(hash, tcbs'[i].key, |ht'|), i) {
      if i == idx {
        assert Unbroken(ht', h, k);
      } else {
        var h := Home(hash, tcbs[i].key, |ht|);
        var k' :| 0 <= k' < |ht| && ht[Probe(h, k', |ht|)] == i && Unbroken(ht, h, k');
        assert Unbroken(ht', h, k');
      }
    }
  }

  /** Replacing a record by a tombstone keeps every other path. */
  lemma RemoveKeepsTable(ht: seq<int>, tcbs: seq<Tcb>, hash: Key -> nat, idx: nat, slot: nat)
    requires TableOk(ht, tcbs, hash) && idx < |tcbs| && slot < |ht| && ht[slot] == idx
    ensures TableOk(ht[slot := TOMBSTONE], tcbs[idx := ZERO], hash)
  {
    var ht' := ht[slot := TOMBSTONE];
    var tcbs' := tcbs[idx := ZERO];
    forall i | 0 <= i < |tcbs'| && tcbs'[i].inUse ensures Findable(ht', Home(hash, tcbs'[i].key, |ht'|), i) {
      var h := Home(hash, tcbs[i].key, |ht|);
      var k :| 0 <= k < |ht| && ht[Probe(h, k, |ht|)] == i && Unbroken(ht, h, k);
      assert Unbroken(ht', h, k);
    }
  }

  // ------------------------------------------------------------ abstraction

  /** The store as its callers see it: which index holds which key, and the free stack. */
  datatype Store = Store(live: map<int, Key>, free: seq<int>)

  function AllocIn(a: Store, key: Key): (Store, Option<int>) {
    if a.free == [] then (a, None)
    else
      var idx := a.free[|a.free| - 1];
      (Store(a.live[idx := key], a.free[..|a.free| - 1]), Some(idx))
  }

  function FreeIn(a: Store, idx: int): Store {
    if idx in a.live then Store(a.live - {idx}, a.free + [idx]) else a
  }

  function Fresh(capacity: nat): Store {
    Store(map[], seq(capacity, i requires 0 <= i < capacity => capacity - 1 - i))
  }

  /** Indices are handed out from 0 on, and the one freed last is handed out next. */
  lemma LastFreedFirst(a: Store, idx: int, key: Key, capacity: nat)
    ensures capacity > 0 ==> AllocIn(Fresh(capacity), key).1 == Some(0) && |AllocIn(Fresh(capacity), key).0.free| == capacity - 1
    ensures idx in a.live ==> AllocIn(FreeIn(a, idx), key) == (Store(a.live[idx := key], a.free), Some(idx))
  {
    if idx in a.live {
      assert (a.free + [idx])[..|a.free|] == a.free;
      assert (a.live - {idx})[idx := key] == a.live[idx := key];
    }
  }

  /** The free stack lists exactly the unused indices, without repeats. */
  ghost predicate StoreOk(a: Store, capacity: nat) {
    && (forall i :: 0 <= i < |a.free| ==> 0 <= a.free[i] < capacity && a.free[i] !in a.live)
    && (forall i, j :: 0 <= i < j < |a.free| ==> a.free[i] != a.free[j])
    && (forall i <- a.live :: 0 <= i < capacity)
    && (forall i :: 0 <= i < capacity ==> i in a.live || i in a.free)
  }

  /** free_top + count == capacity */
  lemma StoreSizes(a: Store, capacity: nat)
    requires StoreOk(a, capacity)
    ensures |a.free| + |a.live| == capacity
  {
    var free := set v | v in a.free;
    DistinctSize(a.free, free);
    forall v ensures v in Range(capacity) <==> v in free || v in a.live.Keys {}
    assert free !! a.live.Keys;
    assert Range(capacity) == free + a.live.Keys;
  }

  // -------------------------------------------------------------- whole runs

  datatype Op = DoAlloc(key: Key) | DoFree(idx: int) | DoReset

  /** The caller looked the key up first: it is not live. */
  ghost predicate FreshKey(a: Store, op: Op) {
    op.DoAlloc? ==> forall i <- a.live :: a.live[i] != op.key
  }

  function StepStore(a: Store, op: Op, capacity: nat): Store {
    match op
    case DoAlloc(key) => AllocIn(a, key).0
    case DoFree(idx) => FreeIn(a, idx)
    case DoReset => Fresh(capacity)
  }

  /** A plain finite map from keys to indices, for comparison. */
  function StepMap(m: map<Key, int>, a: Store, op: Op): map<Key, int> {
    match op
    case DoAlloc(key) => if a.free == [] then m else m[key := a.free[|a.free| - 1]]
    case DoFree(idx) => if idx in a.live then m - {a.live[idx]} else m
    case DoReset => map[]
  }

  /** The map agrees with the live records, in both directions. */
  ghost predicate Agrees(m: map<Key, int>, a: Store) {
    && (forall i <- a.live :: a.live[i] in m && m[a.live[i]] == i)
    && (forall key <- m :: m[key] in a.live && a.live[m[key]] == key)
  }

  lemma StepKeepsStore(a: Store, op: Op, capacity: nat)
    requires StoreOk(a, capacity)
    ensures StoreOk(StepStore(a, op, capacity), capacity)
  {
    var a' := StepStore(a, op, capacity);
    match op
    case DoAlloc(_) =>
      if a.free != [] { assert a.free == a'.free + [a.free[|a.free| - 1]]; }
    case DoFree(idx) =>
      if idx in a.live {
        forall i | 0 <= i < capacity ensures i in a'.live || i in a'.free {
          if i == idx { assert a'.free[|a.free|] == idx; }
        }
      }
    case DoReset =>
      FreshOk(capacity);
  }

  lemma FreshOk(capacity: nat)
    ensures StoreOk(Fresh(capacity), capacity)
  {
    var free := Fresh(capacity).free;
    forall i | 0 <= i < capacity ensures i in free { assert free[capacity - 1 - i] == i; }
  }

  lemma StepKeepsMap(m: map<Key, int>, a: Store, op: Op, capacity: nat)
    requires StoreOk(a, capacity) && Agrees(m, a) && FreshKey(a, op)
    ensures Agrees(StepMap(m, a, op), StepStore(a, op, capacity))
  {
  }

  /** The run so far: every allocation was of a key not live at that moment. */
  ghost predicate FreshRun(a: Store, ops: seq<Op>, capacity: nat)
    decreases |ops|
  {
    ops == [] || (FreshKey(a, ops[0]) && FreshRun(StepStore(a, ops[0], capacity), ops[1..], capacity))
  }

  function ExecStore(a: Store, ops: seq<Op>, capacity: nat): Store
    decreases |ops|
  {
    if ops == [] then a else ExecStore(StepStore(a, ops[0], capacity), ops[1..], capacity)
  }

  function ExecMap(m: map<Key, int>, a: Store, ops: seq<Op>, capacity: nat): map<Key, int>
    decreases |ops|
  {
    if ops == [] then m
    else ExecMap(StepMap(m, a, ops[0]), StepStore(a, ops[0], capacity), ops[1..], capacity)
  }

  /**
   * The store refines a finite map over every run of allocations of keys that are not live,
   * frees and resets: the live records are exactly the entries of the map, and
   * free_top + count equals the capacity.
   */
  lemma {:induction false} RunRefinesMap(m: map<Key, int>, a: Store, ops: seq<Op>, capacity: nat)
    requires StoreOk(a, capacity) && Agrees(m, a) && FreshRun(a, ops, capacity)
    ensures var a' := ExecStore(a, ops, capacity);
            && StoreOk(a', capacity)
            && Agrees(ExecMap(m, a, ops, capacity), a')
            && |a'.free| + |a'.live| == capacity
    decreases |ops|
  {
    if ops == [] {
      StoreSizes(a, capacity);
    } else {
      StepKeepsStore(a, ops[0], capacity);
      StepKeepsMap(m, a, ops[0], capacity);
      RunRefinesMap(StepMap(m, a, ops[0]), StepStore(a, ops[0], capacity), ops[1..], capacity);
    }
  }

  /**
   * The fresh-key condition is exact: allocating a key keeps the store a map
   * from keys to records exactly when the key is not live (or the store is full).
   */
  lemma AllocKeepsMapIff(m: map<Key, int>, a: Store, key: Key, capacity: nat)
    requires StoreOk(a, capacity) && Agrees(m, a) && a.free != []
    ensures (exists m' :: Agrees(m', AllocIn(a, key).0)) <==> key !in m
  {
    var a' := AllocIn(a, key).0;
    if key !in m {
      StepKeepsMap(m, a, DoAlloc(key), capacity);
      assert Agrees(StepMap(m, a, DoAlloc(key)), a');
    } else {
      var i, j := m[key], a.free[|a.free| - 1];
      assert j !in a.live && i in a'.live && a'.live[i] == key && j in a'.live && a'.live[j] == key;
    }
  }

  // ------------------------------------------------------------------ class

  /** The live records of the array, by index. */
  function LiveOf(tcbs: seq<Tcb>): map<int, Key> {
    map i | 0 <= i < |tcbs| && tcbs[i].inUse :: tcbs[i].key
  }

  /** The table size survives its cast to 32 bits exactly for capacities up to 2^30. */
  lemma SizeFitsIff(capacity: nat, size: nat)
    requires IsLeastPow2(size, 2 * capacity)
    ensures size < 0x1_0000_0000 <==> capacity <= MAX_CAPACITY
  {
    var k: nat :| size == Pow2(k) && 2 * capacity <= size && (k == 0 || Pow2(k - 1) < 2 * capacity);
    Pow32();
    hide Pow2;
    if k <= 31 { Pow2Monotone(k, 31); } else { Pow2Monotone(31, k - 1); Pow2Monotone(32, k); }
  }

  /** A size that does not fit is cut to 0. */
  lemma SizeCut(capacity: nat, size: nat)
    requires IsLeastPow2(size, 2 * capacity) && capacity > 0
    ensures size % 0x1_0000_0000 == 0 <==> size >= 0x1_0000_0000
  {
    var k: nat :| size == Pow2(k) && 2 * capacity <= size;
    Pow32();
    if k >= 32 {
      Pow2Sum(32, k - 32);
      hide Pow2;
      QuotientUnique(size, 0x1_0000_0000, Pow2(k - 32), 0);
    } else {
      Pow2Monotone(k, 31);
    }
  }

  lemma EmptyTableOk(ht: seq<int>, tcbs: seq<Tcb>, hash: Key -> nat)
    requires |ht| > 0 && (forall s :: 0 <= s < |ht| ==> ht[s] == EMPTY) && forall i :: 0 <= i < |tcbs| ==> tcbs[i] == ZERO
    ensures TableOk(ht, tcbs, hash) && LiveOf(tcbs) == map[]
  {
  }

  class TcbTable {
    const hash: Key -> nat
    const tcbs: array<Tcb>
    const ht: array<int>
    const freeStack: array<int>
    var freeTop: nat
    var count: nat

    ghost predicate Valid()
      reads this, tcbs, ht, freeStack
    {
      && tcbs.Length == freeStack.Length < ht.Length
      && freeTop <= freeStack.Length
      && TableOk(ht[..], tcbs[..], hash)
      && StoreOk(View(), tcbs.Length)
      && count == |View().live|
    }

    ghost function View(): Store
      requires freeTop <= freeStack.Length
      reads this, tcbs, freeStack
    {
      Store(LiveOf(tcbs[..]), freeStack[..freeTop])
    }

    /** tcb_store_init, whose table size is the least power of two at least twice the capacity. */
    constructor (capacity: nat, tupleHash: Key -> nat)
      requires capacity <= MAX_CAPACITY
      ensures Valid() && View() == Fresh(capacity) && tcbs.Length == capacity && hash == tupleHash
      ensures IsLeastPow2(ht.Length, 2 * capacity)
      ensures fresh(tcbs) && fresh(ht) && fresh(freeStack)
    {
      hash := tupleHash;
      tcbs := new Tcb[capacity](_ => ZERO);
      var size := NextPow2(2 * capacity);
      ht := new int[size](_ => EMPTY);
      freeStack := new int[capacity](i => capacity - 1 - i);
      freeTop := capacity;
      count := 0;
      new;
      hide TableOk, StoreOk, IsLeastPow2;
      EmptyTableOk(ht[..], tcbs[..], hash);
      FreshOk(capacity);
      assert freeStack[..] == Fresh(capacity).free;
    }

    /**
     * tcb_store_init as a whole, with enough memory: a request for no bytes
     * fails, so it fails for capacity 0 and where the 32-bit table size is 0.
     */
    static method Init(capacity: nat, tupleHash: Key -> nat) returns (t: TcbTable?)
      requires capacity < 0x1_0000_0000
      ensures t == null <==> capacity == 0 || capacity > MAX_CAPACITY
      ensures t != null ==> t.Valid() && t.View() == Fresh(capacity) && t.tcbs.Length == capacity && t.hash == tupleHash
      ensures t != null ==> fresh(t) && fresh(t.tcbs) && fresh(t.ht) && fresh(t.freeStack)
    {
      if capacity == 0 { return null; }
      var size := NextPow2(2 * capacity);
      SizeFitsIff(capacity, size);
      SizeCut(capacity, size);
      hide IsLeastPow2;
      if size % 0x1_0000_0000 == 0 { return null; }
      t := new TcbTable(capacity, tupleHash);
    }

    /** tcb_lookup agrees with the finite map: the record of the key, or NULL exactly when there is none. */
    method Lookup(key: Key) returns (r: Option<int>)
      requires Valid()
      ensures r.None? ==> forall i <- View().live :: View().live[i] != key
      ensures r.Some? ==> r.value in View().live && View().live[r.value] == key
      ensures forall m :: Agrees(m, View()) ==> r == if key in m then Some(m[key]) else None
    {
      ghost var table, records := ht[..], tcbs[..];
      var h := Home(hash, key, ht.Length);
      var k := 0;
      while k < ht.Length
        invariant 0 <= k <= ht.Length
        invariant Unbroken(table, h, k)
        invariant forall j: nat :: j < k && table[Probe(h, j, |table|)] >= 0 ==>
                    records[table[Probe(h, j, |table|)]].key != key
      {
        var slot := Probe(h, k, ht.Length);
        var idx := ht[slot];
        if idx == EMPTY {
          MissedEverywhere(table, records, hash, key, h, k);
          return None;
        }
        if idx >= 0 {
          var t := tcbs[idx];
          if t.inUse && t.key == key { return Some(idx); }
        }
        k := k + 1;
      }
      MissedEverywhere(table, records, hash, key, h, k);
      return None;
    }

    /** The probe loop of tcb_alloc: the record goes to the first empty or deleted slot. */
    method Insert(idx: int, key: Key, ghost records: seq<Tcb>)
      requires TableOk(ht[..], records, hash) && ht.Length > |records|
      requires 0 <= idx < |records| && !records[idx].inUse
      modifies ht
      ensures TableOk(ht[..], records[idx := Tcb(true, key)], hash)
    {
      ghost var table := ht[..];
      var h := Home(hash, key, ht.Length);
      var k := 0;
      ghost var s := FreeSlotExists(table, records, hash);
      ghost var reach := ProbeCovers(h, s, |table|);
      while k < ht.Length && ht[Probe(h, k, ht.Length)] >= 0
        invariant 0 <= k <= reach
        invariant forall j: nat :: j < k ==> table[Probe(h, j, |table|)] >= 0
      {
        k := k + 1;
      }
      ht[Probe(h, k, ht.Length)] := idx;
      InsertKeepsTable(table, records, hash, idx, key, h, k);
      assert ht[..] == table[Probe(h, k, |table|) := idx];
    }

    /** tcb_alloc; NULL exactly when no record is free. */
    method Alloc(key: Key) returns (r: Option<int>)
      requires Valid()
      modifies this, tcbs, ht, freeStack
      ensures Valid()
      ensures (View(), r) == old(AllocIn(View(), key))
    {
      hide TableOk;
      if freeTop == 0 { return None; }
      ghost var a, records := View(), tcbs[..];
      StepKeepsStore(a, DoAlloc(key), tcbs.Length);
      var idx := freeStack[freeTop - 1];
      assert idx == a.free[|a.free| - 1] && 0 <= idx < tcbs.Length && !records[idx].inUse;
      LiveInsert(records, idx, key);
      ghost var live, free := a.live[idx := key], a.free[..|a.free| - 1];
      assert AllocIn(a, key) == (Store(live, free), Some(idx)) && StoreOk(Store(live, free), tcbs.Length);
      hide StoreOk, LiveOf, AllocIn;
      Take(idx, key);
      Insert(idx, key, records);
      assert freeStack[..freeTop] == free;
      r := Some(idx);
    }

    /** The index leaves the free stack and its record is set up. */
    method Take(idx: int, key: Key)
      requires 0 < freeTop && 0 <= idx < tcbs.Length
      modifies this`freeTop, this`count, tcbs
      ensures freeTop == old(freeTop) - 1 && count == old(count) + 1
      ensures tcbs[..] == old(tcbs[..])[idx := Tcb(true, key)]
    {
      freeTop := freeTop - 1;
      tcbs[idx] := Tcb(true, key);
      count := count + 1;
    }

    /** The probe loop of tcb_free: the record's slot becomes a tombstone. */
    method Remove(idx: nat, key: Key, ghost records: seq<Tcb>)
      requires TableOk(ht[..], records, hash) && idx < |records| && records[idx] == Tcb(true, key)
      modifies ht
      ensures TableOk(ht[..], records[idx := ZERO], hash)
    {
      ghost var table := ht[..];
      var h := Home(hash, key, ht.Length);
      var k := 0;
      assert Findable(table, h, idx);
      ghost var reach: nat :| reach < |table| && table[Probe(h, reach, |table|)] == idx && Unbroken(table, h, reach);
      while k < ht.Length && ht[Probe(h, k, ht.Length)] != idx && ht[Probe(h, k, ht.Length)] != EMPTY
        invariant 0 <= k <= reach
      {
        k := k + 1;
      }
      var slot := Probe(h, k, ht.Length);
      if ht[slot] == idx { ht[slot] := TOMBSTONE; }
      RemoveKeepsTable(table, records, hash, idx, slot);
      assert ht[..] == table[slot := TOMBSTONE];
    }

    /** tcb_free; a record not in use is left alone. */
    method Free(idx: nat)
      requires Valid() && idx < tcbs.Length
      modifies this, tcbs, ht, freeStack
      ensures Valid()
      ensures View() == old(FreeIn(View(), idx))
    {
      hide TableOk;
      if !tcbs[idx].inUse { return; }
      ghost var a, records := View(), tcbs[..];
      StoreSizes(a, tcbs.Length);
      StepKeepsStore(a, DoFree(idx), tcbs.Length);
      LiveRemove(records, idx);
      var key := tcbs[idx].key;
      tcbs[idx] := ZERO;
      count := count - 1;
      freeStack[freeTop] := idx;
      freeTop := freeTop + 1;
      Remove(idx, key, records);
      assert tcbs[..] == records[idx := ZERO];
      assert freeStack[..freeTop] == a.free + [idx];
    }

    method ClearTable()
      modifies ht
      ensures forall i :: 0 <= i < ht.Length ==> ht[i] == EMPTY
    {
      forall i | 0 <= i < ht.Length { ht[i] := EMPTY; }
    }

    method RefillFreeStack()
      modifies freeStack
      ensures freeStack[..] == Fresh(freeStack.Length).free
    {
      forall i | 0 <= i < freeStack.Length { freeStack[i] := freeStack.Length - 1 - i; }
    }

    /** tcb_store_reset */
    method Reset()
      requires Valid()
      modifies this, tcbs, ht, freeStack
      ensures Valid()
      ensures View() == Fresh(tcbs.Length)
    {
      forall i | 0 <= i < tcbs.Length { tcbs[i] := ZERO; }
      count := 0;
      ClearTable();
      EmptyTableOk(ht[..], tcbs[..], hash);
      hide TableOk, StoreOk;
      RefillFreeStack();
      freeTop := freeStack.Length;
      FreshOk(tcbs.Length);
      assert freeStack[..freeTop] == freeStack[..];
    }
  }

  /** A probe that ends at an empty slot, or after the whole table, has seen every record of the key. */
  lemma MissedEverywhere(ht: seq<int>, tcbs: seq<Tcb>, hash: Key -> nat, key: Key, h: nat, k: nat)
    requires TableOk(ht, tcbs, hash) && h == Home(hash, key, |ht|) && k <= |ht|
    requires k == |ht| || ht[Probe(h, k, |ht|)] == EMPTY
    requires forall j: nat :: j < k && ht[Probe(h, j, |ht|)] >= 0 ==> tcbs[ht[Probe(h, j, |ht|)]].key != key
    ensures forall i <- LiveOf(tcbs) :: LiveOf(tcbs)[i] != key
  {
    forall i <- LiveOf(tcbs) ensures LiveOf(tcbs)[i] != key {
      var h' := Home(hash, tcbs[i].key, |ht|);
      var k': nat :| k' < |ht| && ht[Probe(h', k', |ht|)] == i && Unbroken(ht, h', k');
      assert h' == h ==> k' < k;
    }
  }

  lemma LiveInsert(tcbs: seq<Tcb>, idx: nat, key: Key)
    requires idx < |tcbs| && !tcbs[idx].inUse
    ensures LiveOf(tcbs[idx := Tcb(true, key)]) == LiveOf(tcbs)[idx := key]
    ensures |LiveOf(tcbs[idx := Tcb(true, key)])| == |LiveOf(tcbs)| + 1
  {
    assert LiveOf(tcbs[idx := Tcb(true, key)]) == LiveOf(tcbs)[idx := key];
    assert idx !in LiveOf(tcbs);
  }

  lemma LiveRemove(tcbs: seq<Tcb>, idx: nat)
    requires idx < |tcbs| && tcbs[idx].inUse
    ensures LiveOf(tcbs[idx := ZERO]) == LiveOf(tcbs) - {idx}
    ensures |LiveOf(tcbs[idx := ZERO])| == |LiveOf(tcbs)| - 1
  {
    var a, b := LiveOf(tcbs), LiveOf(tcbs[idx := ZERO]);
    assert b == a - {idx};
    assert a == b[idx := tcbs[idx].key] && idx !in b;
  }
}
