/**
 * The per-worker port pool of tcp_port_pool.c as it is updated in place:
 * bitmaps, cursors, the probing table of source addresses and the TIME_WAIT
 * ring. Every method is proved to compute the function of PortPoolSpec.
 */
module PortPool {
  import opened Basics
  import opened PortBitmap
  import opened PortPoolSpec
  import Powers

  const EPHEM_LO: int := 10000
  const EPHEM_HI: int := 60000
  const RING_SIZE: int := 65536

  datatype IpPool = IpPool(ip: nat, cursor: nat, words: seq<nat>)

  ghost predicate IpPoolOk(p: IpPool) { IsMap(p.words) && p.cursor < PORTS }

  ghost function Abstract(p: IpPool): Pool
    requires IpPoolOk(p)
  {
    Pool(p.ip, p.cursor, Ports(p.words))
  }

  ghost function AbstractTable(t: seq<IpPool>): (r: seq<Pool>)
    requires forall s :: 0 <= s < |t| ==> IpPoolOk(t[s])
    ensures |r| == |t| && forall s :: 0 <= s < |t| ==> r[s] == Abstract(t[s])
  {
    seq(|t|, s requires 0 <= s < |t| => Abstract(t[s]))
  }

  /** The ring between head and tail, oldest first. */
  function Between(ring: seq<Entry>, head: nat, tail: nat): seq<Entry>
    requires head < |ring| && tail < |ring|
  {
    if head <= tail then ring[head..tail] else ring[head..] + ring[..tail]
  }

  lemma PushBetween(ring: seq<Entry>, head: nat, tail: nat, e: Entry)
    requires head < |ring| && tail < |ring| && (tail + 1) % |ring| != head
    ensures Between(ring[tail := e], head, (tail + 1) % |ring|) == Between(ring, head, tail) + [e]
  {
    var ring' := ring[tail := e];
    NextIndex(tail, |ring|);
    if tail + 1 == |ring| {
      assert ring'[head..] + ring'[..0] == ring[head..tail] + [e];
    } else if head <= tail {
      assert ring'[head..tail + 1] == ring[head..tail] + [e];
    } else {
      assert ring'[..tail + 1] == ring[..tail] + [e];
      assert ring'[head..] == ring[head..];
      assert ring[head..] + (ring[..tail] + [e]) == (ring[head..] + ring[..tail]) + [e];
    }
  }

  lemma NextIndex(i: nat, size: nat)
    requires i < size
    ensures (i + 1) % size == if i + 1 == size then 0 else i + 1
  {
  }

  lemma PopBetween(ring: seq<Entry>, head: nat, tail: nat)
    requires head < |ring| && tail < |ring| && head != tail
    ensures var b := Between(ring, head, tail);
            b != [] && b[0] == ring[head] && Between(ring, (head + 1) % |ring|, tail) == b[1..]
  {
    NextIndex(head, |ring|);
    if head + 1 == |ring| {
      assert ring[head..] == [ring[head]];
      assert ([ring[head]] + ring[..tail])[1..] == ring[..tail];
    } else if head <= tail {
      assert ring[head..tail][1..] == ring[head + 1..tail];
    } else {
      assert ring[head..] == [ring[head]] + ring[head + 1..];
      assert ([ring[head]] + ring[head + 1..] + ring[..tail])[1..] == ring[head + 1..] + ring[..tail];
    }
  }

  /** The ring refuses one entry more exactly when it holds all but one of its slots. */
  lemma FullBetween(ring: seq<Entry>, head: nat, tail: nat)
    requires 1 < |ring| && head < |ring| && tail < |ring|
    ensures (tail + 1) % |ring| == head <==> |Between(ring, head, tail)| >= |ring| - 1
    ensures head == tail <==> Between(ring, head, tail) == []
  {
    NextIndex(tail, |ring|);
  }

  class WorkerPool {
    const hash: Hash
    const hold: nat
    const table: array<IpPool>
    const ring: array<Entry>
    var shared: IpPool
    var head: nat
    var tail: nat

    ghost predicate Valid()
      reads this, table, ring
    {
      && table.Length == N_SLOTS && ring.Length == RING_SIZE && head < RING_SIZE && tail < RING_SIZE
      && IpPoolOk(shared) && shared.ip == 0
      && (forall s :: 0 <= s < N_SLOTS ==> IpPoolOk(table[s]))
      && (forall k :: 0 <= k < RING_SIZE ==> ring[k].port < PORTS)
    }

    ghost function View(): (w: Worker)
      requires Valid()
      reads this, table, ring
      ensures |w.table| == N_SLOTS
    {
      Worker(AbstractTable(table[..]), Abstract(shared), Between(ring[..], head, tail), hold)
    }

    /** tcp_port_pool_init */
    constructor (holdTsc: nat, addressHash: Hash)
      ensures Valid() && hash == addressHash && hold == holdTsc && View().shared == Fresh(holdTsc).shared
      ensures shared == IpPool(0, 0, Full()) && forall s :: 0 <= s < table.Length ==> table[s].ip == 0
      ensures Unserved(View()) && forall now: nat :: Safe(History(View(), {}, now), hash)
      ensures fresh(table) && fresh(ring)
    {
      hash, hold := addressHash, holdTsc;
      table := new IpPool[N_SLOTS](_ => IpPool(0, 0, Full()));
      ring := new Entry[RING_SIZE](_ => Entry(0, 0, 0));
      shared := IpPool(0, 0, Full());
      head, tail := 0, 0;
      new;
      hide Safe, IsMap, Ports, Full;
      assert View().shared == Fresh(hold).shared && View().ring == [];
      FreshIsSafe(hold, 0, hash);
      forall now: nat ensures Safe(History(View(), {}, now), hash) { UnservedIsSafe(View(), now, hash); }
    }

    /** ip_pool_get */
    method GetPool(ip: nat) returns (ref: Ref)
      requires Valid()
      modifies table
      ensures Valid() && (View(), ref) == old(Get(View(), hash, ip))
    {
      if ip == 0 { return Shared; }
      var start := hash(ip) % N_SLOTS;
      ghost var w := View();
      var i := 0;
      while i < N_SLOTS
        invariant i <= N_SLOTS && Valid() && View() == w
        invariant Look(w.table, start, ip, i) == LookUp(w, hash, ip)
      {
        var s := SlotAt(start, i);
        var p := table[s];
        assert w.table[s] == Abstract(p);
        if p.ip == ip { return Slot(s); }
        if p.ip == 0 {
          ghost var before := table[..];
          table[s] := IpPool(ip, 0, shared.words);
          assert table[..] == before[s := IpPool(ip, 0, shared.words)];
          assert AbstractTable(table[..]) == w.table[s := Pool(ip, 0, w.shared.avail)];
          return Slot(s);
        }
        i := i + 1;
      }
      return Shared;
    }

    /** Stores cursor and bitmap of the pool that serves an address. */
    method Update(ref: Ref, cursor: nat, words: seq<nat>)
      requires Valid() && (ref.Slot? ==> ref.s < N_SLOTS) && IsMap(words) && cursor < PORTS
      modifies this`shared, table
      ensures Valid()
      ensures View() == old(WithPool(View(), ref, PoolOf(View(), ref).(cursor := cursor, avail := Ports(words))))
    {
      if ref.Shared? {
        shared := shared.(cursor := cursor, words := words);
      } else {
        ghost var before := table[..];
        ghost var pool := before[ref.s].(cursor := cursor, words := words);
        table[ref.s] := table[ref.s].(cursor := cursor, words := words);
        assert table[..] == before[ref.s := pool];
        assert AbstractTable(table[..]) == AbstractTable(before)[ref.s := Abstract(pool)];
      }
    }

    function Stored(ref: Ref): IpPool
      requires ref.Slot? ==> ref.s < table.Length
      reads this, table
    {
      if ref.Shared? then shared else table[ref.s]
    }

    /** tcp_port_alloc: the port number, or None when the address's pool is exhausted. */
    method AllocPort(ip: nat) returns (port: Option<nat>)
      requires Valid()
      modifies this`shared, table
      ensures Valid()
      ensures var (w, r) := old(Alloc(View(), hash, ip));
              && View() == w
              && port == (match r case None => None case Some(b) => Some(EPHEM_LO + b))
      ensures port.Some? ==> EPHEM_LO <= port.value < EPHEM_HI
    {
      hide Scan, Get, IsMap, Ports, FirstFrom;
      var ref := GetPool(ip);
      var p := Stored(ref);
      assert Abstract(p) == PoolOf(View(), ref);
      ScanIn(Ports(p.words), p.cursor, 0);
      var bit := FindNext(p.words, p.cursor);
      match bit
      case None => return None;
      case Some(b) =>
        ClearBitAvail(p.words, b);
        Update(ref, (b + 1) % PORTS, ClearBit(p.words, b));
        return Some(EPHEM_LO + b);
    }

    /** tcp_port_free_immediate */
    method FreeImmediate(ip: nat, port: nat)
      requires Valid()
      modifies this`shared, table
      ensures Valid()
      ensures View() == if EPHEM_LO <= port < EPHEM_HI then old(FreeNow(View(), hash, ip, port - EPHEM_LO)) else old(View())
    {
      if port < EPHEM_LO || port >= EPHEM_HI { return; }
      GiveBack(ip, port - EPHEM_LO);
    }

    /** The pool of the address gets the port back. */
    method GiveBack(ip: nat, bit: nat)
      requires Valid() && bit < PORTS
      modifies this`shared, table
      ensures Valid() && View() == old(FreeNow(View(), hash, ip, bit))
    {
      hide Get, IsMap, Ports, Between;
      var ref := GetPool(ip);
      var p := Stored(ref);
      assert Abstract(p) == PoolOf(View(), ref);
      SetBitAvail(p.words, bit);
      Update(ref, p.cursor, SetBit(p.words, bit));
    }

    /** tcp_port_free */
    method FreePort(ip: nat, port: nat, now: nat)
      requires Valid()
      modifies this, table, ring
      ensures Valid()
      ensures View() == if EPHEM_LO <= port < EPHEM_HI then old(FreeLater(View(), hash, ip, port - EPHEM_LO, now)) else old(View())
    {
      if port < EPHEM_LO || port >= EPHEM_HI { return; }
      FullBetween(ring[..], head, tail);
      var nextTail := (tail + 1) % RING_SIZE;
      if nextTail == head {
        FreeImmediate(ip, port);
        return;
      }
      ghost var before := ring[..];
      PushBetween(before, head, tail, Entry(ip, port - EPHEM_LO, now + hold));
      hide Between, Get, IsMap, Ports, FreeNow;
      ring[tail] := Entry(ip, port - EPHEM_LO, now + hold);
      assert ring[..] == before[tail := Entry(ip, port - EPHEM_LO, now + hold)];
      tail := nextTail;
    }

    /** tcp_port_pool_tick */
    method TickRing(now: nat)
      requires Valid()
      modifies this, table
      ensures Valid() && View() == old(Expire(View(), hash, now))
    {
      hide Get, IsMap, Ports, FreeNow, Between;
      ghost var target := Expire(View(), hash, now);
      while head != tail
        invariant Valid() && Expire(View(), hash, now) == target
        decreases |View().ring|
      {
        FullBetween(ring[..], head, tail);
        PopBetween(ring[..], head, tail);
        ExpireUnfold(View(), hash, now);
        var e := ring[head];
        if now < e.release { break; }
        ReleaseFirst(e);
      }
      FullBetween(ring[..], head, tail);
      ExpireUnfold(View(), hash, now);
    }

    method ReleaseFirst(e: Entry)
      requires Valid() && head != tail && e == ring[head] && Between(ring[..], head, tail) != []
      modifies this, table
      ensures Valid() && old(View()).ring != [] && View() == old(Pop(View(), hash))
    {
      PopBetween(ring[..], head, tail);
      hide FreeNow, IsMap, Ports, Between, Abstract, AbstractTable;
      NextIndex(head, RING_SIZE);
      GiveBack(e.ip, e.port);
      assert ring[..] == old(ring[..]) && View().ring == old(View().ring);
      head := (head + 1) % RING_SIZE;
    }

    /** tcp_port_pool_reset */
    method Reset()
      requires Valid()
      modifies this, table
      ensures Valid() && View() == Fresh(hold)
      ensures shared == IpPool(0, 0, Full()) && forall s :: 0 <= s < table.Length ==> table[s].ip == 0
    {
      shared := IpPool(0, 0, Full());
      NoWords();
      forall s | 0 <= s < table.Length { table[s] := IpPool(0, 0, seq(WORDS, _ => 0)); }
      head, tail := 0, 0;
      assert AbstractTable(table[..]) == Fresh(hold).table;
    }
  }

  /** memset 0: no port available. */
  lemma NoWords()
    ensures IsMap(seq(WORDS, _ => 0)) && Ports(seq(WORDS, _ => 0)) == {}
  {
    var zeros: seq<nat> := seq(WORDS, _ => 0);
    forall i: nat ensures !Powers.Bit(0, i) { Powers.ZeroBits(i); }
    assert forall b: nat :: b < PORTS ==> !Avail(zeros, b);
  }
}
