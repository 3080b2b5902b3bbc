/**
 * Value-level specification of the per-worker port pool (tcp_port_pool.c): a
 * probing table of 64 per-source pools with a shared fallback, and a FIFO of
 * ports in TIME_WAIT hold-off. A pool is its source address, its scan cursor
 * and the set of available ports (numbered from 0); the address hash is an
 * arbitrary function.
 */
module PortPoolSpec {
  import opened Basics
  import opened PortBitmap

  const N_SLOTS: int := 64
  const RING_LIMIT: int := 65535     // one ring slot is never used

  datatype Pool = Pool(ip: nat, cursor: nat, avail: set<nat>)

  datatype Entry = Entry(ip: nat, port: nat, release: nat)

  datatype Worker = Worker(table: seq<Pool>, shared: Pool, ring: seq<Entry>, hold: nat)

  /** Which pool serves a source address. */
  datatype Ref = Shared | Slot(s: nat)

  type Hash = nat -> nat

  // ------------------------------------------------------------------ routing

  datatype Found = Hit(s: nat) | Vacant(s: nat) | TableFull

  function SlotAt(start: nat, i: nat): (s: nat)
    ensures s < N_SLOTS
  {
    (start + i) % N_SLOTS
  }

  /** The probe loop of ip_pool_get from its i-th slot on. */
  function Look(table: seq<Pool>, start: nat, ip: nat, i: nat): (f: Found)
    requires |table| == N_SLOTS
    ensures f.Hit? ==> f.s < N_SLOTS && table[f.s].ip == ip
    ensures f.Vacant? ==> f.s < N_SLOTS && table[f.s].ip == 0
    decreases N_SLOTS - i
  {
    if i >= N_SLOTS then TableFull
    else if table[SlotAt(start, i)].ip == ip then Hit(SlotAt(start, i))
    else if table[SlotAt(start, i)].ip == 0 then Vacant(SlotAt(start, i))
    else Look(table, start, ip, i + 1)
  }

  function LookUp(w: Worker, hash: Hash, ip: nat): Found
    requires |w.table| == N_SLOTS
  {
    Look(w.table, hash(ip) % N_SLOTS, ip, 0)
  }

  /** ip_pool_get: the pool of a source address, claiming a vacant slot with a copy of the shared map. */
  function Get(w: Worker, hash: Hash, ip: nat): (r: (Worker, Ref))
    requires |w.table| == N_SLOTS
    ensures |r.0.table| == N_SLOTS && (r.1.Slot? ==> r.1.s < N_SLOTS)
    ensures r.0.shared == w.shared && r.0.ring == w.ring && r.0.hold == w.hold
  {
    if ip == 0 then (w, Shared)
    else
      match LookUp(w, hash, ip)
      case Hit(s) => (w, Slot(s))
      case Vacant(s) => (w.(table := w.table[s := Pool(ip, 0, w.shared.avail)]), Slot(s))
      case TableFull => (w, Shared)
  }

  /** An address already has its pool: looking it up again changes nothing. */
  ghost predicate Settled(w: Worker, hash: Hash, ip: nat, ref: Ref) {
    |w.table| == N_SLOTS && Get(w, hash, ip) == (w, ref)
  }

  /** Every claimed slot is where its address is found. */
  ghost predicate TableOk(w: Worker, hash: Hash) {
    && |w.table| == N_SLOTS
    && forall s {:trigger w.table[s]} :: 0 <= s < N_SLOTS && w.table[s].ip != 0 ==>
         LookUp(w, hash, w.table[s].ip) == Hit(s)
  }

  /** Claiming a vacant slot changes no probe path that did not end there. */
  lemma {:induction false} ClaimKeepsPath(table: seq<Pool>, v: nat, pool: Pool, start: nat, ip: nat, i: nat)
    requires |table| == N_SLOTS && v < N_SLOTS && table[v].ip == 0 && pool.ip != 0 && ip != 0 && pool.ip != ip
    ensures var f := Look(table, start, ip, i);
            f != Vacant(v) ==> Look(table[v := pool], start, ip, i) == f
    decreases N_SLOTS - i
  {
    if i < N_SLOTS { ClaimKeepsPath(table, v, pool, start, ip, i + 1); }
  }

  /** Claiming the slot where an address was looked for makes it found there. */
  lemma {:induction false} ClaimIsFound(table: seq<Pool>, v: nat, pool: Pool, start: nat, i: nat)
    requires |table| == N_SLOTS && v < N_SLOTS && pool.ip != 0 && Look(table, start, pool.ip, i) == Vacant(v)
    ensures Look(table[v := pool], start, pool.ip, i) == Hit(v)
    decreases N_SLOTS - i
  {
    if i < N_SLOTS && SlotAt(start, i) != v { ClaimIsFound(table, v, pool, start, i + 1); }
  }

  /** ip_pool_get settles its address and keeps every settled address settled. */
  lemma GetSettles(w: Worker, hash: Hash, ip: nat)
    requires TableOk(w, hash)
    ensures var (w', ref) := Get(w, hash, ip); TableOk(w', hash) && Settled(w', hash, ip, ref)
    ensures forall other, r :: Settled(w, hash, other, r) ==> Settled(Get(w, hash, ip).0, hash, other, r)
  {
    var (w', ref) := Get(w, hash, ip);
    if ip != 0 && LookUp(w, hash, ip).Vacant? {
      var v := LookUp(w, hash, ip).s;
      var pool := Pool(ip, 0, w.shared.avail);
      ClaimIsFound(w.table, v, pool, hash(ip) % N_SLOTS, 0);
      forall s | 0 <= s < N_SLOTS && w'.table[s].ip != 0 ensures LookUp(w', hash, w'.table[s].ip) == Hit(s) {
        if s != v { ClaimKeepsPath(w.table, v, pool, hash(w.table[s].ip) % N_SLOTS, w.table[s].ip, 0); }
      }
      forall other, r | Settled(w, hash, other, r) ensures Settled(w', hash, other, r) {
        if other != 0 && other != ip { ClaimKeepsPath(w.table, v, pool, hash(other) % N_SLOTS, other, 0); }
      }
    }
  }

  // --------------------------------------------------------------- operations

  function PoolOf(w: Worker, ref: Ref): Pool
    requires ref.Slot? ==> ref.s < |w.table|
  {
    if ref.Shared? then w.shared else w.table[ref.s]
  }

  function WithPool(w: Worker, ref: Ref, pool: Pool): (w': Worker)
    requires ref.Slot? ==> ref.s < |w.table|
    ensures |w'.table| == |w.table|
  {
    if ref.Shared? then w.(shared := pool) else w.(table := w.table[ref.s := pool])
  }

  /** tcp_port_alloc */
  function Alloc(w: Worker, hash: Hash, ip: nat): (r: (Worker, Option<nat>))
    requires |w.table| == N_SLOTS
    ensures |r.0.table| == N_SLOTS
  {
    var (w1, ref) := Get(w, hash, ip);
    var p := PoolOf(w1, ref);
    match Scan(p.avail, p.cursor, 0)
    case None => (w1, None)
    case Some(b) => (WithPool(w1, ref, p.(avail := p.avail - {b}, cursor := (b + 1) % PORTS)), Some(b))
  }

  /** tcp_port_free_immediate, for a port of the ephemeral range. */
  function FreeNow(w: Worker, hash: Hash, ip: nat, port: nat): (w': Worker)
    requires |w.table| == N_SLOTS
    ensures |w'.table| == N_SLOTS && w'.ring == w.ring && w'.hold == w.hold
  {
    var (w1, ref) := Get(w, hash, ip);
    var p := PoolOf(w1, ref);
    WithPool(w1, ref, p.(avail := p.avail + {port}))
  }

  /** tcp_port_free: into the hold-off ring, or free at once when the ring is full. */
  function FreeLater(w: Worker, hash: Hash, ip: nat, port: nat, now: nat): (w': Worker)
    requires |w.table| == N_SLOTS
    ensures |w'.table| == N_SLOTS
  {
    if |w.ring| >= RING_LIMIT then FreeNow(w, hash, ip, port)
    else w.(ring := w.ring + [Entry(ip, port, now + w.hold)])
  }

  /** tcp_port_pool_tick */
  function Expire(w: Worker, hash: Hash, now: nat): (w': Worker)
    requires |w.table| == N_SLOTS
    ensures |w'.table| == N_SLOTS
    decreases |w.ring|
  {
    if w.ring == [] || now < w.ring[0].release then w
    else Expire(FreeNow(w, hash, w.ring[0].ip, w.ring[0].port).(ring := w.ring[1..]), hash, now)
  }

  function AllPorts(): (a: set<nat>)
    ensures forall b: nat :: b in a <==> b < PORTS
  {
    FullIsAll();
    Ports(Full())
  }

  /** tcp_port_pool_reset */
  function Fresh(hold: nat): (w: Worker)
    ensures |w.table| == N_SLOTS
  {
    Worker(seq(N_SLOTS, _ => Pool(0, 0, {})), Pool(0, 0, AllPorts()), [], hold)
  }

  // ----------------------------------------------------------------- history

  /** A worker's pool with the ports handed out and not yet passed to a free. */
  datatype History = History(w: Worker, held: set<(Ref, nat)>, now: nat)

  function RefOf(w: Worker, hash: Hash, ip: nat): Ref
    requires |w.table| == N_SLOTS
  {
    Get(w, hash, ip).1
  }

  function Claim(w: Worker, hash: Hash, e: Entry): (Ref, nat)
    requires |w.table| == N_SLOTS
  {
    (RefOf(w, hash, e.ip), e.port)
  }

  predicate Open(w: Worker, ref: Ref) {
    ref.Slot? ==> ref.s < |w.table| && w.table[ref.s].ip != 0
  }

  /** The port is not available in that pool. */
  predicate Taken(w: Worker, claim: (Ref, nat)) {
    Open(w, claim.0) && claim.1 < PORTS && claim.1 !in PoolOf(w, claim.0).avail
  }

  ghost predicate PoolsOk(w: Worker) {
    && |w.table| == N_SLOTS
    && forall ref :: Open(w, ref) ==>
         PoolOf(w, ref).cursor < PORTS && forall b <- PoolOf(w, ref).avail :: b < PORTS
  }

  /** A ring entry has its pool, and its port is there neither available nor held. */
  ghost predicate EntryOk(h: History, hash: Hash, e: Entry)
    requires |h.w.table| == N_SLOTS
  {
    Settled(h.w, hash, e.ip, RefOf(h.w, hash, e.ip)) && Taken(h.w, Claim(h.w, hash, e)) && Claim(h.w, hash, e) !in h.held
  }

  /** No claim is in the ring twice. */
  ghost predicate RingDistinct(w: Worker, hash: Hash)
    requires |w.table| == N_SLOTS
  {
    forall j, k {:trigger w.ring[j], w.ring[k]} :: 0 <= j < k < |w.ring| ==>
      Claim(w, hash, w.ring[j]) != Claim(w, hash, w.ring[k])
  }

  ghost predicate RingOk(h: History, hash: Hash)
    requires |h.w.table| == N_SLOTS
  {
    && (forall k {:trigger h.w.ring[k]} :: 0 <= k < |h.w.ring| ==> EntryOk(h, hash, h.w.ring[k]))
    && RingDistinct(h.w, hash)
  }

  /** Release times do not decrease along the ring. */
  ghost predicate TimesOk(h: History) {
    && (forall j, k :: 0 <= j < k < |h.w.ring| ==> h.w.ring[j].release <= h.w.ring[k].release)
    && (forall k :: 0 <= k < |h.w.ring| ==> h.w.ring[k].release <= h.now + h.w.hold)
  }

  ghost predicate Safe(h: History, hash: Hash) {
    && TableOk(h.w, hash) && PoolsOk(h.w)
    && HeldOk(h) && RingOk(h, hash) && TimesOk(h)
  }

  ghost predicate HeldOk(h: History) { forall claim <- h.held :: Taken(h.w, claim) }

  lemma GetOpens(w: Worker, hash: Hash, ip: nat)
    requires TableOk(w, hash) && PoolsOk(w)
    ensures var (w', ref) := Get(w, hash, ip);
            && Open(w', ref) && PoolsOk(w')
            && forall r :: Open(w, r) ==> Open(w', r) && PoolOf(w', r) == PoolOf(w, r)
  {
    hide Look, TableOk;
    assert Open(w, Shared);
    var (w', ref) := Get(w, hash, ip);
    forall r | Open(w', r) ensures r == ref || (Open(w, r) && PoolOf(w', r) == PoolOf(w, r)) {}
  }

  lemma GetKeepsRing(h: History, hash: Hash, ip: nat)
    requires TableOk(h.w, hash) && PoolsOk(h.w) && RingOk(h, hash)
    ensures RingOk(h.(w := Get(h.w, hash, ip).0), hash)
  {
    GetSettles(h.w, hash, ip);
    GetOpens(h.w, hash, ip);
    var h' := h.(w := Get(h.w, hash, ip).0);
    hide TableOk, PoolsOk, Open, Get, Look;
    forall k | 0 <= k < |h'.w.ring|
      ensures EntryOk(h', hash, h'.w.ring[k]) && Claim(h'.w, hash, h'.w.ring[k]) == Claim(h.w, hash, h.w.ring[k])
    {
      var e := h.w.ring[k];
      assert EntryOk(h, hash, e);
      assert Settled(h'.w, hash, e.ip, RefOf(h.w, hash, e.ip));
    }
    assert RingDistinct(h'.w, hash) by {
      forall j, k | 0 <= j < k < |h'.w.ring| ensures Claim(h'.w, hash, h'.w.ring[j]) != Claim(h'.w, hash, h'.w.ring[k]) {
        assert Claim(h.w, hash, h.w.ring[j]) != Claim(h.w, hash, h.w.ring[k]);
      }
    }
  }

  /** Looking an address up, claiming a slot if need be, keeps every history invariant. */
  lemma GetKeepsSafe(h: History, hash: Hash, ip: nat)
    requires Safe(h, hash)
    ensures var (w', ref) := Get(h.w, hash, ip);
            Safe(h.(w := w'), hash) && Settled(w', hash, ip, ref) && Open(w', ref)
  {
    hide TableOk, PoolsOk, RingOk, Open, Settled;
    GetSettles(h.w, hash, ip);
    GetOpens(h.w, hash, ip);
    GetKeepsRing(h, hash, ip);
    hide Get;
  }

  /** Changing cursor and available ports of an open pool moves no address. */
  lemma {:induction false} LookSame(table: seq<Pool>, s: nat, pool: Pool, start: nat, ip: nat, i: nat)
    requires |table| == N_SLOTS && s < N_SLOTS && pool.ip == table[s].ip
    ensures Look(table[s := pool], start, ip, i) == Look(table, start, ip, i)
    decreases N_SLOTS - i
  {
    if i < N_SLOTS { LookSame(table, s, pool, start, ip, i + 1); }
  }

  lemma WithPoolRoutes(w: Worker, hash: Hash, ref: Ref, pool: Pool, ip: nat)
    requires |w.table| == N_SLOTS && Open(w, ref) && pool.ip == PoolOf(w, ref).ip
    ensures LookUp(WithPool(w, ref, pool), hash, ip) == LookUp(w, hash, ip)
  {
    if ref.Slot? { LookSame(w.table, ref.s, pool, hash(ip) % N_SLOTS, ip, 0); }
  }

  /** The general pool update: the claims in `busy` stay taken, so the history stays safe. */
  lemma UpdateKeepsSafe(h: History, hash: Hash, ref: Ref, pool: Pool, held: set<(Ref, nat)>, ring: seq<Entry>)
    requires Safe(h, hash) && Open(h.w, ref) && pool.ip == PoolOf(h.w, ref).ip
    requires pool.cursor < PORTS && forall b <- pool.avail :: b < PORTS
    requires ring == h.w.ring || (h.w.ring != [] && ring == h.w.ring[1..])
    requires forall claim <- held :: claim in h.held || (claim.0 == ref && claim.1 in PoolOf(h.w, ref).avail)
    requires forall claim <- held :: claim.0 == ref ==> claim.1 !in pool.avail
    requires forall k {:trigger ring[k]} :: 0 <= k < |ring| && RefOf(h.w, hash, ring[k].ip) == ref ==> ring[k].port !in pool.avail
    ensures Safe(History(WithPool(h.w, ref, pool).(ring := ring), held, h.now), hash)
  {
    var w' := WithPool(h.w, ref, pool).(ring := ring);
    var h' := History(w', held, h.now);
    hide TableOk, RingOk, Look, LookUp;
    HeldAfter(h, h', ref, pool);
    hide PoolsOk, HeldOk;
    RoutesAfter(h, hash, ref, pool, w');
    RingAfter(h, h', hash, ref, pool);
  }

  lemma HeldAfter(h: History, h': History, ref: Ref, pool: Pool)
    requires PoolsOk(h.w) && HeldOk(h) && Open(h.w, ref) && pool.ip == PoolOf(h.w, ref).ip
    requires h'.w == WithPool(h.w, ref, pool).(ring := h'.w.ring)
    requires pool.cursor < PORTS && forall b <- pool.avail :: b < PORTS
    requires forall claim <- h'.held :: claim in h.held || (claim.0 == ref && claim.1 in PoolOf(h.w, ref).avail)
    requires forall claim <- h'.held :: claim.0 == ref ==> claim.1 !in pool.avail
    ensures HeldOk(h') && PoolsOk(h'.w)
  {
    forall r ensures Open(h'.w, r) <==> Open(h.w, r) {}
    forall claim <- h'.held ensures Taken(h'.w, claim) {
      if claim in h.held { assert Taken(h.w, claim); }
    }
  }

  lemma RoutesAfter(h: History, hash: Hash, ref: Ref, pool: Pool, w': Worker)
    requires TableOk(h.w, hash) && Open(h.w, ref) && pool.ip == PoolOf(h.w, ref).ip
    requires w' == WithPool(h.w, ref, pool).(ring := w'.ring)
    ensures forall ip :: LookUp(w', hash, ip) == LookUp(h.w, hash, ip)
    ensures TableOk(w', hash)
  {
    forall ip ensures LookUp(w', hash, ip) == LookUp(h.w, hash, ip) {
      WithPoolRoutes(h.w, hash, ref, pool, ip);
    }
  }

  lemma RingAfter(h: History, h': History, hash: Hash, ref: Ref, pool: Pool)
    requires Safe(h, hash) && Open(h.w, ref) && pool.ip == PoolOf(h.w, ref).ip
    requires h'.w == WithPool(h.w, ref, pool).(ring := h'.w.ring) && h'.now == h.now
    requires h'.w.ring == h.w.ring || (h.w.ring != [] && h'.w.ring == h.w.ring[1..])
    requires forall ip :: LookUp(h'.w, hash, ip) == LookUp(h.w, hash, ip)
    requires forall claim <- h'.held :: claim in h.held || (claim.0 == ref && claim.1 in PoolOf(h.w, ref).avail)
    requires forall k {:trigger h'.w.ring[k]} :: 0 <= k < |h'.w.ring| && RefOf(h.w, hash, h'.w.ring[k].ip) == ref ==>
               h'.w.ring[k].port !in pool.avail
    ensures RingOk(h', hash) && TimesOk(h')
  {
    hide Look, LookUp, TableOk, PoolsOk, HeldOk, TimesOk, EntryOk, RingDistinct;
    SafeShape(h, hash);
    var off := if h'.w.ring == h.w.ring then 0 else 1;
    Shifted(h.w.ring, h'.w.ring, off);
    assert RingOk(h, hash) && TimesOk(h);
    hide Safe;
    TimesAfter(h, h', off);
    DistinctAfter(h.w, h'.w, hash, off);
    EntriesAfter(h, h', hash, ref, pool, off);
  }

  lemma EntriesAfter(h: History, h': History, hash: Hash, ref: Ref, pool: Pool, off: nat)
    requires |h.w.table| == N_SLOTS && RingOk(h, hash) && Open(h.w, ref)
    requires h'.w == WithPool(h.w, ref, pool).(ring := h'.w.ring) && pool.ip == PoolOf(h.w, ref).ip
    requires |h'.w.ring| + off == |h.w.ring| && forall k :: 0 <= k < |h'.w.ring| ==> h'.w.ring[k] == h.w.ring[k + off]
    requires forall ip :: LookUp(h'.w, hash, ip) == LookUp(h.w, hash, ip)
    requires forall claim <- h'.held :: claim in h.held || (claim.0 == ref && claim.1 in PoolOf(h.w, ref).avail)
    requires forall k {:trigger h'.w.ring[k]} :: 0 <= k < |h'.w.ring| && RefOf(h.w, hash, h'.w.ring[k].ip) == ref ==>
               h'.w.ring[k].port !in pool.avail
    ensures forall k {:trigger h'.w.ring[k]} :: 0 <= k < |h'.w.ring| ==> EntryOk(h', hash, h'.w.ring[k])
  {
    hide Look, LookUp, EntryOk, RingOk, RefOf;
    forall k | 0 <= k < |h'.w.ring| ensures EntryOk(h', hash, h'.w.ring[k]) {
      RingEntryAfter(h, h', hash, ref, pool, k, k + off);
    }
  }

  lemma Shifted(ring: seq<Entry>, ring': seq<Entry>, off: nat)
    requires off <= 1 && off <= |ring| && ring' == ring[off..]
    ensures |ring'| + off == |ring| && forall k :: 0 <= k < |ring'| ==> ring'[k] == ring[k + off]
  {
  }

  lemma TimesAfter(h: History, h': History, off: nat)
    requires TimesOk(h) && h'.now == h.now && h'.w.hold == h.w.hold && |h'.w.ring| + off == |h.w.ring|
    requires forall k :: 0 <= k < |h'.w.ring| ==> h'.w.ring[k] == h.w.ring[k + off]
    ensures TimesOk(h')
  {
  }

  lemma DistinctAfter(w: Worker, w': Worker, hash: Hash, off: nat)
    requires |w.table| == |w'.table| == N_SLOTS && RingDistinct(w, hash) && |w'.ring| + off == |w.ring|
    requires forall k :: 0 <= k < |w'.ring| ==> w'.ring[k] == w.ring[k + off]
    requires forall ip :: LookUp(w', hash, ip) == LookUp(w, hash, ip)
    ensures RingDistinct(w', hash)
  {
    hide LookUp;
    forall j, k | 0 <= j < k < |w'.ring| ensures Claim(w', hash, w'.ring[j]) != Claim(w', hash, w'.ring[k]) {
      assert w'.ring[j] == w.ring[j + off] && w'.ring[k] == w.ring[k + off];
    }
  }

  lemma RingEntryAfter(h: History, h': History, hash: Hash, ref: Ref, pool: Pool, k: nat, k0: nat)
    requires |h.w.table| == N_SLOTS && RingOk(h, hash) && Open(h.w, ref)
    requires h'.w == WithPool(h.w, ref, pool).(ring := h'.w.ring) && pool.ip == PoolOf(h.w, ref).ip
    requires k < |h'.w.ring| && k0 < |h.w.ring| && h'.w.ring[k] == h.w.ring[k0]
    requires forall ip :: LookUp(h'.w, hash, ip) == LookUp(h.w, hash, ip)
    requires forall claim <- h'.held :: claim in h.held || (claim.0 == ref && claim.1 in PoolOf(h.w, ref).avail)
    requires RefOf(h.w, hash, h'.w.ring[k].ip) == ref ==> h'.w.ring[k].port !in pool.avail
    ensures EntryOk(h', hash, h'.w.ring[k])
  {
    var e := h.w.ring[k0];
    assert EntryOk(h, hash, e);
    hide Look, LookUp, RingOk;
    assert RefOf(h'.w, hash, e.ip) == RefOf(h.w, hash, e.ip);
  }

  // -------------------------------------------------------- history of a run

  datatype Event =
    | Allocate(ip: nat)
    | ReleaseNow(ip: nat, port: nat)
    | ReleaseLater(ip: nat, port: nat, at: nat)    // tcp_port_free, with its own reading of the clock
    | TickAt(now: nat)                             // the reading may be older than the frees before it

  /** Clients free only what they hold, through the address they got it with, and no free reads an earlier clock. */
  ghost predicate Enabled(h: History, hash: Hash, e: Event) {
    && |h.w.table| == N_SLOTS
    && match e
       case Allocate(_) => true
       case ReleaseNow(ip, port) => Settled(h.w, hash, ip, RefOf(h.w, hash, ip)) && (RefOf(h.w, hash, ip), port) in h.held
       case ReleaseLater(ip, port, at) =>
         Settled(h.w, hash, ip, RefOf(h.w, hash, ip)) && (RefOf(h.w, hash, ip), port) in h.held && at >= h.now
       case TickAt(_) => true
  }

  function Step(h: History, hash: Hash, e: Event): (h': History)
    requires |h.w.table| == N_SLOTS
    ensures |h'.w.table| == N_SLOTS
  {
    match e
    case Allocate(ip) =>
      var (w', r) := Alloc(h.w, hash, ip);
      History(w', if r.Some? then h.held + {(RefOf(h.w, hash, ip), r.value)} else h.held, h.now)
    case ReleaseNow(ip, port) =>
      h.(w := FreeNow(h.w, hash, ip, port), held := h.held - {(RefOf(h.w, hash, ip), port)})
    case ReleaseLater(ip, port, at) =>
      History(FreeLater(h.w, hash, ip, port, at), h.held - {(RefOf(h.w, hash, ip), port)}, at)
    case TickAt(now) => h.(w := Expire(h.w, hash, now), now := Max(h.now, now))
  }

  lemma {:induction false} ScanIn(avail: set<nat>, start: nat, d: nat)
    ensures var r := Scan(avail, start, d); r.Some? ==> r.value in avail && r.value < PORTS
    ensures Scan(avail, start, d).None? <==> forall k: nat :: d <= k < PORTS ==> Round(start, k) !in avail
    decreases PORTS - d
  {
    if d < PORTS { ScanIn(avail, start, d + 1); }
  }

  /**
   * Ports are handed out next-fit: the first available one from the cursor on,
   * cyclically, and the cursor moves behind it, so that a port freed at once is not the next one out
   * while another is available. An address served for the first time starts
   * from a copy of what the shared map has.
   */
  lemma AllocNextFit(w: Worker, hash: Hash, ip: nat) returns (d: nat)
    requires |w.table| == N_SLOTS
    ensures var (w1, ref) := Get(w, hash, ip);
            var p := PoolOf(w1, ref);
            var (w', r) := Alloc(w, hash, ip);
            && (ip != 0 && LookUp(w, hash, ip).Vacant? ==> p == Pool(ip, 0, w.shared.avail))
            && (r.None? <==> NoneBefore(p.avail, p.cursor, PORTS))
            && (r.Some? ==> d < PORTS && r.value == (p.cursor + d) % PORTS && NoneBefore(p.avail, p.cursor, d)
                            && PoolOf(w', ref).cursor == (p.cursor + d + 1) % PORTS)
  {
    var (w1, ref) := Get(w, hash, ip);
    var p := PoolOf(w1, ref);
    hide LookUp;
    assert ip != 0 && LookUp(w, hash, ip).Vacant? ==> p == Pool(ip, 0, w.shared.avail);
    hide Get;
    d := ScanFirst(p.avail, p.cursor, 0);
    NextRound(p.cursor, d);
    hide Scan, NoneBefore;
  }

  /** After a reset every address gets the first port. */
  lemma FreshAllocates(hold: nat, hash: Hash, ip: nat)
    ensures Alloc(Fresh(hold), hash, ip).1 == Some(0)
  {
    var w := Fresh(hold);
    assert 0 in AllPorts();
    if ip != 0 { FreshVacant(w, hash, ip); }
    hide LookUp;
    assert Round(0, 0) == 0;
  }

  lemma FreshVacant(w: Worker, hash: Hash, ip: nat)
    requires |w.table| == N_SLOTS && ip != 0 && forall s :: 0 <= s < N_SLOTS ==> w.table[s].ip == 0
    ensures LookUp(w, hash, ip).Vacant?
  {
  }

  lemma NextRound(start: nat, d: nat)
    ensures (Round(start, d) + 1) % PORTS == Round(start, d + 1)
  {
  }

  lemma {:induction false} ScanFirst(avail: set<nat>, start: nat, d: nat) returns (k: nat)
    requires d <= PORTS && NoneBefore(avail, start, d)
    ensures Scan(avail, start, d).Some? ==> k < PORTS && Scan(avail, start, d).value == Round(start, k) && NoneBefore(avail, start, k)
    ensures Scan(avail, start, d).None? <==> NoneBefore(avail, start, PORTS)
    decreases PORTS - d
  {
    hide Round;
    k := d;
    if d < PORTS && Round(start, d) !in avail { k := ScanFirst(avail, start, d + 1); }
  }

  /** An available port is neither held nor in hold-off. */
  lemma AvailableIsFree(h: History, hash: Hash, ref: Ref, b: nat)
    requires Safe(h, hash) && Open(h.w, ref) && b in PoolOf(h.w, ref).avail
    ensures (ref, b) !in h.held && b < PORTS
    ensures forall k :: 0 <= k < |h.w.ring| ==> Claim(h.w, hash, h.w.ring[k]) != (ref, b)
  {
    hide TableOk, Look, Get;
    forall claim <- h.held ensures claim != (ref, b) { assert Taken(h.w, claim); }
    forall k | 0 <= k < |h.w.ring| ensures Claim(h.w, hash, h.w.ring[k]) != (ref, b) {
      assert Taken(h.w, Claim(h.w, hash, h.w.ring[k]));
    }
  }

  /** Taking an available port out of its pool. */
  lemma TakeKeepsSafe(h: History, hash: Hash, ref: Ref, b: nat)
    requires Safe(h, hash) && Open(h.w, ref) && b in PoolOf(h.w, ref).avail
    ensures var p := PoolOf(h.w, ref);
            Safe(History(WithPool(h.w, ref, p.(avail := p.avail - {b}, cursor := (b + 1) % PORTS)),
                         h.held + {(ref, b)}, h.now), hash)
  {
    var p := PoolOf(h.w, ref);
    var pool := p.(avail := p.avail - {b}, cursor := (b + 1) % PORTS);
    AvailableIsFree(h, hash, ref, b);
    PoolBounds(h, hash, ref);
    var held := h.held + {(ref, b)};
    TakenStay(h, hash, ref);
    var w' := WithPool(h.w, ref, pool);
    assert w'.(ring := h.w.ring) == w';
    hide Safe, Get, Look;
    UpdateKeepsSafe(h, hash, ref, pool, held, h.w.ring);
  }

  lemma PoolBounds(h: History, hash: Hash, ref: Ref)
    requires Safe(h, hash) && Open(h.w, ref)
    ensures PoolOf(h.w, ref).cursor < PORTS && forall b <- PoolOf(h.w, ref).avail :: b < PORTS
  {
    hide TableOk, RingOk, HeldOk, TimesOk;
  }

  /** The claims on a pool are not among its available ports. */
  lemma TakenStay(h: History, hash: Hash, ref: Ref)
    requires Safe(h, hash) && Open(h.w, ref)
    ensures forall claim <- h.held :: claim.0 == ref ==> claim.1 !in PoolOf(h.w, ref).avail
    ensures forall k {:trigger h.w.ring[k]} :: 0 <= k < |h.w.ring| && RefOf(h.w, hash, h.w.ring[k].ip) == ref ==>
              h.w.ring[k].port !in PoolOf(h.w, ref).avail
  {
    hide TableOk, PoolsOk, TimesOk, Get, Look;
    forall claim <- h.held ensures claim.0 == ref ==> claim.1 !in PoolOf(h.w, ref).avail {
      assert Taken(h.w, claim);
    }
    forall k | 0 <= k < |h.w.ring| && RefOf(h.w, hash, h.w.ring[k].ip) == ref
      ensures h.w.ring[k].port !in PoolOf(h.w, ref).avail
    {
      assert Taken(h.w, Claim(h.w, hash, h.w.ring[k]));
    }
  }

  /** No port is handed out while it is held or in hold-off. */
  lemma AllocateKeepsSafe(h: History, hash: Hash, ip: nat)
    requires Safe(h, hash)
    ensures Safe(Step(h, hash, Allocate(ip)), hash)
    ensures var r := Alloc(h.w, hash, ip).1;
            var ref := RefOf(h.w, hash, ip);
            r.Some? ==> (ref, r.value) !in h.held && r.value < PORTS
                        && forall k :: 0 <= k < |h.w.ring| ==> Claim(h.w, hash, h.w.ring[k]) != (ref, r.value)
  {
    hide *;
    SafeShape(h, hash);
    GetKeepsSafe(h, hash, ip);
    RingClaimsKept(h, hash, ip);
    AllocateStep(h, hash, ip);
    var w1, ref := Get(h.w, hash, ip).0, RefOf(h.w, hash, ip);
    var r := Alloc(h.w, hash, ip).1;
    if r.Some? {
      AvailableIsFree(h.(w := w1), hash, ref, r.value);
      TakeKeepsSafe(h.(w := w1), hash, ref, r.value);
    }
  }

  lemma SafeShape(h: History, hash: Hash)
    requires Safe(h, hash)
    ensures |h.w.table| == N_SLOTS
  {
  }

  lemma AllocateStep(h: History, hash: Hash, ip: nat)
    requires |h.w.table| == N_SLOTS
    ensures var g := Get(h.w, hash, ip);
            var r := Alloc(h.w, hash, ip).1;
            var p := PoolOf(g.0, g.1);
            && RefOf(h.w, hash, ip) == g.1
            && (r.Some? ==> r.value in p.avail)
            && Step(h, hash, Allocate(ip)) ==
                 (if r.None? then h.(w := g.0)
                  else History(WithPool(g.0, g.1, p.(avail := p.avail - {r.value}, cursor := (r.value + 1) % PORTS)),
                               h.held + {(g.1, r.value)}, h.now))
  {
    var g := Get(h.w, hash, ip);
    var p := PoolOf(g.0, g.1);
    ScanIn(p.avail, p.cursor, 0);
    hide Scan, Get;
  }

  lemma RingClaimsKept(h: History, hash: Hash, ip: nat)
    requires Safe(h, hash)
    ensures var w' := Get(h.w, hash, ip).0;
            forall k :: 0 <= k < |h.w.ring| ==> Claim(w', hash, h.w.ring[k]) == Claim(h.w, hash, h.w.ring[k])
  {
    GetSettles(h.w, hash, ip);
    var w' := Get(h.w, hash, ip).0;
    hide TableOk, PoolsOk, Look;
    forall k | 0 <= k < |h.w.ring| ensures Claim(w', hash, h.w.ring[k]) == Claim(h.w, hash, h.w.ring[k]) {
      var e := h.w.ring[k];
      assert Settled(h.w, hash, e.ip, RefOf(h.w, hash, e.ip));
      assert Settled(w', hash, e.ip, RefOf(h.w, hash, e.ip));
    }
  }

  /** Freeing through a settled address touches only its pool. */
  lemma FreeNowSettled(w: Worker, hash: Hash, ip: nat, port: nat)
    requires |w.table| == N_SLOTS && Settled(w, hash, ip, RefOf(w, hash, ip))
    ensures var ref := RefOf(w, hash, ip);
            FreeNow(w, hash, ip, port) == WithPool(w, ref, PoolOf(w, ref).(avail := PoolOf(w, ref).avail + {port}))
  {
  }

  /** Giving back a port that no other claim names. */
  lemma GiveKeepsSafe(h: History, hash: Hash, ref: Ref, port: nat, held: set<(Ref, nat)>, ring: seq<Entry>)
    requires Safe(h, hash) && Open(h.w, ref) && port < PORTS
    requires held <= h.held && (ref, port) !in held
    requires ring == h.w.ring || (h.w.ring != [] && ring == h.w.ring[1..])
    requires forall k {:trigger ring[k]} :: 0 <= k < |ring| ==> Claim(h.w, hash, ring[k]) != (ref, port)
    ensures var p := PoolOf(h.w, ref);
            Safe(History(WithPool(h.w, ref, p.(avail := p.avail + {port})).(ring := ring), held, h.now), hash)
  {
    var p := PoolOf(h.w, ref);
    var pool := p.(avail := p.avail + {port});
    PoolBounds(h, hash, ref);
    TakenStay(h, hash, ref);
    hide Safe, Get, Look;
    forall k | 0 <= k < |ring| && RefOf(h.w, hash, ring[k].ip) == ref ensures ring[k].port !in pool.avail {
      if ring != h.w.ring { assert ring[k] == h.w.ring[k + 1]; }
      assert Claim(h.w, hash, ring[k]) != (ref, port);
    }
    UpdateKeepsSafe(h, hash, ref, pool, held, ring);
  }

  /** A held claim is not in the ring. */
  lemma HeldNotInRing(h: History, hash: Hash, claim: (Ref, nat))
    requires Safe(h, hash) && claim in h.held
    ensures Taken(h.w, claim)
    ensures forall k :: 0 <= k < |h.w.ring| ==> Claim(h.w, hash, h.w.ring[k]) != claim
  {
    hide TableOk, PoolsOk, TimesOk, Get, Look;
    forall k | 0 <= k < |h.w.ring| ensures Claim(h.w, hash, h.w.ring[k]) != claim {
      assert Claim(h.w, hash, h.w.ring[k]) !in h.held;
    }
  }

  lemma ReleaseNowKeepsSafe(h: History, hash: Hash, ip: nat, port: nat)
    requires Safe(h, hash) && Enabled(h, hash, ReleaseNow(ip, port))
    ensures Safe(Step(h, hash, ReleaseNow(ip, port)), hash)
  {
    var ref := RefOf(h.w, hash, ip);
    HeldNotInRing(h, hash, (ref, port));
    FreeNowSettled(h.w, hash, ip, port);
    var p := PoolOf(h.w, ref);
    var w' := WithPool(h.w, ref, p.(avail := p.avail + {port}));
    assert w'.(ring := h.w.ring) == w';
    hide Safe, Get, Look;
    GiveKeepsSafe(h, hash, ref, port, h.held - {(ref, port)}, h.w.ring);
  }

  lemma ReleaseLaterKeepsSafe(h: History, hash: Hash, ip: nat, port: nat, at: nat)
    requires Safe(h, hash) && Enabled(h, hash, ReleaseLater(ip, port, at))
    ensures Safe(Step(h, hash, ReleaseLater(ip, port, at)), hash)
  {
    ReleaseLaterStep(h, hash, ip, port, at);
    LaterIsSafe(h, hash, at);
    hide *;
    var h1 := h.(now := at);
    if |h.w.ring| >= RING_LIMIT {
      ReleaseNowKeepsSafe(h1, hash, ip, port);
    } else {
      AppendKeepsSafe(h1, hash, Entry(ip, port, at + h.w.hold));
    }
  }

  lemma ReleaseLaterStep(h: History, hash: Hash, ip: nat, port: nat, at: nat)
    requires Enabled(h, hash, ReleaseLater(ip, port, at))
    ensures at >= h.now && Settled(h.w, hash, ip, RefOf(h.w, hash, ip))
    ensures (RefOf(h.w, hash, ip), port) in h.held
    ensures Claim(h.w, hash, Entry(ip, port, at + h.w.hold)) == (RefOf(h.w, hash, ip), port)
    ensures var h1 := h.(now := at);
            && Enabled(h1, hash, ReleaseNow(ip, port))
            && Step(h, hash, ReleaseLater(ip, port, at)) ==
                 if |h.w.ring| >= RING_LIMIT then Step(h1, hash, ReleaseNow(ip, port))
                 else History(h.w.(ring := h.w.ring + [Entry(ip, port, at + h.w.hold)]),
                              h.held - {(RefOf(h.w, hash, ip), port)}, at)
  {
    hide Get, FreeNow;
  }

  lemma AppendKeepsSafe(h: History, hash: Hash, e: Entry)
    requires Safe(h, hash) && Settled(h.w, hash, e.ip, RefOf(h.w, hash, e.ip)) && Claim(h.w, hash, e) in h.held
    requires e.release == h.now + h.w.hold
    ensures Safe(History(h.w.(ring := h.w.ring + [e]), h.held - {Claim(h.w, hash, e)}, h.now), hash)
  {
    var h' := History(h.w.(ring := h.w.ring + [e]), h.held - {Claim(h.w, hash, e)}, h.now);
    hide Look, LookUp;
    HeldNotInRing(h, hash, Claim(h.w, hash, e));
    SameTable(h.w, h'.w, hash);
    assert HeldOk(h') by {
      hide TableOk, PoolsOk, RingOk, TimesOk;
      forall claim <- h'.held ensures Taken(h'.w, claim) { assert Taken(h.w, claim); }
    }
    hide TableOk, PoolsOk, HeldOk;
    AppendKeepsRing(h, h', hash, e);
  }

  /** The ring is no part of the routing table or the pools. */
  lemma SameTable(w: Worker, w': Worker, hash: Hash)
    requires TableOk(w, hash) && PoolsOk(w) && w'.table == w.table && w'.shared == w.shared
    ensures TableOk(w', hash) && PoolsOk(w') && forall ip :: LookUp(w', hash, ip) == LookUp(w, hash, ip)
  {
    hide Look;
    assert forall r :: Open(w', r) <==> Open(w, r);
  }

  lemma AppendKeepsRing(h: History, h': History, hash: Hash, e: Entry)
    requires |h.w.table| == N_SLOTS && RingOk(h, hash) && Taken(h.w, Claim(h.w, hash, e))
    requires Settled(h.w, hash, e.ip, RefOf(h.w, hash, e.ip))
    requires forall k :: 0 <= k < |h.w.ring| ==> Claim(h.w, hash, h.w.ring[k]) != Claim(h.w, hash, e)
    requires h'.w == h.w.(ring := h.w.ring + [e]) && h'.held == h.held - {Claim(h.w, hash, e)}
    requires forall ip :: LookUp(h'.w, hash, ip) == LookUp(h.w, hash, ip)
    ensures RingOk(h', hash)
  {
    hide LookUp;
    forall k | 0 <= k < |h'.w.ring|
      ensures EntryOk(h', hash, h'.w.ring[k]) && Claim(h'.w, hash, h'.w.ring[k]) == Claim(h.w, hash, h'.w.ring[k])
    {
      if k < |h.w.ring| {
        assert h'.w.ring[k] == h.w.ring[k] && EntryOk(h, hash, h.w.ring[k]);
      }
    }
  }

  // ------------------------------------------------------------------ expiry

  /** The first entry's hold-off is over: its port becomes available and it leaves the ring. */
  function Pop(w: Worker, hash: Hash): (w': Worker)
    requires |w.table| == N_SLOTS && w.ring != []
    ensures |w'.table| == N_SLOTS && w'.ring == w.ring[1..]
  {
    FreeNow(w, hash, w.ring[0].ip, w.ring[0].port).(ring := w.ring[1..])
  }

  /** The available ports of a pool gain exactly the given port. */
  ghost predicate Gains(w: Worker, w': Worker, ref: Ref, port: nat) {
    && |w'.table| == |w.table| && Open(w, ref)
    && forall r :: (Open(w', r) <==> Open(w, r)) && (Open(w, r) ==>
         PoolOf(w', r) == PoolOf(w, r).(avail := PoolOf(w, r).avail + if r == ref then {port} else {}))
  }

  lemma PopKeepsSafe(h: History, hash: Hash)
    requires Safe(h, hash) && h.w.ring != []
    ensures var w' := Pop(h.w, hash);
            && Safe(h.(w := w'), hash)
            && Gains(h.w, w', RefOf(h.w, hash, h.w.ring[0].ip), h.w.ring[0].port)
            && forall ip: nat :: RefOf(w', hash, ip) == RefOf(h.w, hash, ip)
  {
    var e := h.w.ring[0];
    var ref := RefOf(h.w, hash, e.ip);
    FirstClaim(h, hash);
    FreeNowSettled(h.w, hash, e.ip, e.port);
    var p := PoolOf(h.w, ref);
    var pool := p.(avail := p.avail + {e.port});
    PopRoutes(h.w, hash, ref, pool);
    assert Pop(h.w, hash) == WithPool(h.w, ref, pool).(ring := h.w.ring[1..]);
    WithPoolGains(h.w, ref, e.port, h.w.ring[1..]);
    hide *;
    GiveKeepsSafe(h, hash, ref, e.port, h.held, h.w.ring[1..]);
  }

  lemma WithPoolGains(w: Worker, ref: Ref, port: nat, ring: seq<Entry>)
    requires Open(w, ref)
    ensures var p := PoolOf(w, ref);
            Gains(w, WithPool(w, ref, p.(avail := p.avail + {port})).(ring := ring), ref, port)
  {
  }

  lemma PopRoutes(w: Worker, hash: Hash, ref: Ref, pool: Pool)
    requires |w.table| == N_SLOTS && Open(w, ref) && w.ring != [] && pool.ip == PoolOf(w, ref).ip
    ensures var w' := WithPool(w, ref, pool).(ring := w.ring[1..]);
            forall ip: nat :: RefOf(w', hash, ip) == RefOf(w, hash, ip)
  {
    var w' := WithPool(w, ref, pool).(ring := w.ring[1..]);
    forall ip: nat ensures RefOf(w', hash, ip) == RefOf(w, hash, ip) {
      WithPoolRoutes(w, hash, ref, pool, ip);
      assert LookUp(w', hash, ip) == LookUp(w, hash, ip);
    }
  }

  /** The first ring entry is settled, unavailable, unheld and not repeated. */
  lemma FirstClaim(h: History, hash: Hash)
    requires Safe(h, hash) && h.w.ring != []
    ensures var e := h.w.ring[0];
            var ref := RefOf(h.w, hash, e.ip);
            && Settled(h.w, hash, e.ip, ref) && Open(h.w, ref) && e.port < PORTS && (ref, e.port) !in h.held
            && forall k :: 0 <= k < |h.w.ring[1..]| ==> Claim(h.w, hash, h.w.ring[1..][k]) != (ref, e.port)
  {
    hide TableOk, PoolsOk, TimesOk, Get, Look;
    var e := h.w.ring[0];
    assert Taken(h.w, Claim(h.w, hash, e));
    forall k | 0 <= k < |h.w.ring[1..]| ensures Claim(h.w, hash, h.w.ring[1..][k]) != Claim(h.w, hash, e) {
      assert h.w.ring[1..][k] == h.w.ring[k + 1];
    }
  }

  /** Expiring to `now` released the first k entries of the ring and nothing else. */
  ghost predicate Released(w: Worker, w': Worker, hash: Hash, now: nat, k: nat) {
    && k <= |w.ring| && w'.ring == w.ring[k..]
    && (forall j :: 0 <= j < |w.ring| ==> (w.ring[j].release <= now <==> j < k))
    && |w.table| == N_SLOTS
    && (forall r :: Open(w, r) ==> GainsAll(w, w', r, Waiting(w, hash, k, r)))
  }

  /** Pool r keeps its cursor and address and gains exactly the given ports. */
  predicate GainsAll(w: Worker, w': Worker, r: Ref, ports: set<nat>)
    requires Open(w, r)
  {
    Open(w', r) && PoolOf(w', r) == PoolOf(w, r).(avail := PoolOf(w, r).avail + ports)
  }

  /** The ports waiting for pool r among the first k ring entries. */
  function Waiting(w: Worker, hash: Hash, k: nat, r: Ref): set<nat>
    requires |w.table| == N_SLOTS
  {
    set j | 0 <= j < k && j < |w.ring| && RefOf(w, hash, w.ring[j].ip) == r :: w.ring[j].port
  }

  /**
   * tcp_port_pool_tick releases exactly the expired entries: the ring keeps
   * exactly those whose release time is still ahead, the others become
   * available in their pools, and nothing else changes.
   */
  lemma {:induction false} ExpireExact(h: History, hash: Hash, now: nat) returns (k: nat)
    requires Safe(h, hash)
    ensures Safe(h.(w := Expire(h.w, hash, now)), hash)
    ensures Released(h.w, Expire(h.w, hash, now), hash, now, k)
    decreases |h.w.ring|
  {
    hide *;
    SafeShape(h, hash);
    ExpireUnfold(h.w, hash, now);
    if h.w.ring == [] || now < h.w.ring[0].release {
      k := 0;
      NothingReleased(h, hash, now);
      assert h.(w := h.w) == h;
    } else {
      var w1 := Pop(h.w, hash);
      PopKeepsSafe(h, hash);
      var k1 := ExpireExact(h.(w := w1), hash, now);
      k := k1 + 1;
      OneMoreReleased(h.w, w1, Expire(w1, hash, now), hash, now, k1, k);
    }
  }

  lemma ExpireUnfold(w: Worker, hash: Hash, now: nat)
    requires |w.table| == N_SLOTS
    ensures Expire(w, hash, now) ==
              if w.ring == [] || now < w.ring[0].release then w else Expire(Pop(w, hash), hash, now)
  {
    hide FreeNow;
  }

  lemma NothingReleased(h: History, hash: Hash, now: nat)
    requires Safe(h, hash) && (h.w.ring == [] || now < h.w.ring[0].release)
    ensures Released(h.w, h.w, hash, now, 0)
  {
    assert |h.w.table| == N_SLOTS;
    hide TableOk, PoolsOk, HeldOk, RingOk;
    assert TimesOk(h) && h.w.ring[0..] == h.w.ring;
    forall r | Open(h.w, r) ensures GainsAll(h.w, h.w, r, Waiting(h.w, hash, 0, r)) {
      assert Waiting(h.w, hash, 0, r) == {};
    }
  }

  lemma OneMoreReleased(w: Worker, w1: Worker, w': Worker, hash: Hash, now: nat, k: nat, n: nat)
    requires n == k + 1
    requires |w.table| == N_SLOTS && w.ring != [] && w.ring[0].release <= now
    requires w1.ring == w.ring[1..] && Gains(w, w1, RefOf(w, hash, w.ring[0].ip), w.ring[0].port)
    requires forall ip: nat :: RefOf(w1, hash, ip) == RefOf(w, hash, ip)
    requires Released(w1, w', hash, now, k)
    ensures Released(w, w', hash, now, n)
  {
    hide Get, Look;
    assert w.ring[k + 1..] == w1.ring[k..];
    forall j | 0 <= j < |w.ring| ensures w.ring[j].release <= now <==> j < k + 1 {
      if j > 0 { assert w.ring[j] == w1.ring[j - 1]; }
    }
    forall r | Open(w, r) ensures GainsAll(w, w', r, Waiting(w, hash, n, r)) {
      WaitingStep(w, w1, hash, k, n, r);
      assert Open(w1, r) && GainsAll(w1, w', r, Waiting(w1, hash, k, r));
    }
  }

  lemma WaitingStep(w: Worker, w1: Worker, hash: Hash, k: nat, n: nat, r: Ref)
    requires n == k + 1 && |w.table| == |w1.table| == N_SLOTS && w.ring != [] && w1.ring == w.ring[1..]
    requires forall ip: nat :: RefOf(w1, hash, ip) == RefOf(w, hash, ip)
    ensures Waiting(w, hash, n, r) ==
              Waiting(w1, hash, k, r) + if RefOf(w, hash, w.ring[0].ip) == r then {w.ring[0].port} else {}
  {
    hide RefOf;
    var first := if RefOf(w, hash, w.ring[0].ip) == r then {w.ring[0].port} else {};
    forall b | b in Waiting(w, hash, n, r) ensures b in Waiting(w1, hash, k, r) + first {
      var j :| 0 <= j < n && j < |w.ring| && RefOf(w, hash, w.ring[j].ip) == r && w.ring[j].port == b;
      if j > 0 { assert w1.ring[j - 1] == w.ring[j]; }
    }
    forall b | b in Waiting(w1, hash, k, r) ensures b in Waiting(w, hash, n, r) {
      var j :| 0 <= j < k && j < |w1.ring| && RefOf(w1, hash, w1.ring[j].ip) == r && w1.ring[j].port == b;
      assert w.ring[j + 1] == w1.ring[j];
    }
    if RefOf(w, hash, w.ring[0].ip) == r { assert w.ring[0].port in Waiting(w, hash, n, r); }
  }

  // -------------------------------------------------------------- whole runs

  /** Every step of a disciplined client keeps the pool safe. */
  lemma StepKeepsSafe(h: History, hash: Hash, e: Event)
    requires Safe(h, hash) && Enabled(h, hash, e)
    ensures Safe(Step(h, hash, e), hash)
  {
    match e
    case Allocate(ip) => AllocateKeepsSafe(h, hash, ip);
    case ReleaseNow(ip, port) => ReleaseNowKeepsSafe(h, hash, ip, port);
    case ReleaseLater(ip, port, at) => ReleaseLaterKeepsSafe(h, hash, ip, port, at);
    case TickAt(now) =>
      var k := ExpireExact(h, hash, now);
      LaterIsSafe(h.(w := Expire(h.w, hash, now)), hash, Max(h.now, now));
  }

  lemma LaterIsSafe(h: History, hash: Hash, now: nat)
    requires Safe(h, hash) && now >= h.now
    ensures Safe(h.(now := now), hash)
  {
    SafeShape(h, hash);
    hide TableOk, PoolsOk, Get, Look;
    assert RingOk(h.(now := now), hash) && HeldOk(h.(now := now));
  }

  ghost function Exec(h: History, hash: Hash, es: seq<Event>): (h': History)
    requires Safe(h, hash)
    ensures Safe(h', hash)
    decreases |es|
  {
    if es == [] then h
    else if Enabled(h, hash, es[0]) then StepKeepsSafe(h, hash, es[0]); Exec(Step(h, hash, es[0]), hash, es[1..])
    else Exec(h, hash, es[1..])
  }

  /** A worker that has served nobody yet, whatever its unclaimed slots hold. */
  predicate Unserved(w: Worker) {
    && |w.table| == N_SLOTS && (forall s :: 0 <= s < N_SLOTS ==> w.table[s].ip == 0) && w.ring == []
    && w.shared.cursor < PORTS && forall b <- w.shared.avail :: b < PORTS
  }

  lemma UnservedIsSafe(w: Worker, now: nat, hash: Hash)
    requires Unserved(w)
    ensures Safe(History(w, {}, now), hash) && Owns(History(w, {}, now), w.shared.avail)
  {
    hide Get;
    assert forall ref :: Open(w, ref) ==> ref == Shared;
  }

  lemma FreshIsSafe(hold: nat, now: nat, hash: Hash)
    ensures Unserved(Fresh(hold)) && Safe(History(Fresh(hold), {}, now), hash)
  {
    UnservedIsSafe(Fresh(hold), now, hash);
    hide Safe;
  }

  /**
   * Port safety over every run from a reset pool: whatever address is served
   * next, the port handed out is neither held by anyone through the same pool
   * nor waiting there in hold-off.
   */
  lemma NeverHandedOutTwice(hold: nat, start: nat, hash: Hash, es: seq<Event>, ip: nat)
    ensures Safe(History(Fresh(hold), {}, start), hash)
    ensures var h := Exec(History(Fresh(hold), {}, start), hash, es);
            && |h.w.table| == N_SLOTS
            && var r := Alloc(h.w, hash, ip).1;
               var ref := RefOf(h.w, hash, ip);
               r.Some? ==> (ref, r.value) !in h.held && r.value < PORTS
                           && forall k :: 0 <= k < |h.w.ring| ==> Claim(h.w, hash, h.w.ring[k]) != (ref, r.value)
  {
    FreshIsSafe(hold, start, hash);
    var h := Exec(History(Fresh(hold), {}, start), hash, es);
    SafeShape(h, hash);
    AllocateKeepsSafe(h, hash, ip);
  }

  // ------------------------------------------------- ownership among workers

  /** Everything this worker can hand out, holds or keeps in hold-off is its own. */
  ghost predicate Owns(h: History, mine: set<nat>) {
    && (forall ref :: Open(h.w, ref) ==> PoolOf(h.w, ref).avail <= mine)
    && (forall claim <- h.held :: claim.1 in mine)
    && (forall k {:trigger h.w.ring[k]} :: 0 <= k < |h.w.ring| ==> h.w.ring[k].port in mine)
  }

  lemma GetKeepsOwns(h: History, hash: Hash, ip: nat, mine: set<nat>)
    requires |h.w.table| == N_SLOTS && Owns(h, mine)
    ensures Owns(h.(w := Get(h.w, hash, ip).0), mine)
  {
    hide Look;
    var w' := Get(h.w, hash, ip).0;
    assert Open(h.w, Shared);
    forall r | Open(w', r) ensures PoolOf(w', r).avail <= mine {
      if Open(h.w, r) { assert PoolOf(h.w, r).avail <= mine; }
    }
  }

  lemma FreeNowKeepsOwns(h: History, hash: Hash, ip: nat, port: nat, mine: set<nat>)
    requires |h.w.table| == N_SLOTS && Owns(h, mine) && port in mine
    ensures Owns(h.(w := FreeNow(h.w, hash, ip, port)), mine)
  {
    GetKeepsOwns(h, hash, ip, mine);
    hide Look, LookUp, Get;
    var g := Get(h.w, hash, ip);
    var w' := FreeNow(h.w, hash, ip, port);
    forall r | Open(w', r) ensures PoolOf(w', r).avail <= mine {
      if r != g.1 { assert Open(g.0, r) && PoolOf(w', r) == PoolOf(g.0, r); }
      else { assert Open(g.0, r); }
    }
  }

  lemma {:induction false} ExpireKeepsOwns(h: History, hash: Hash, now: nat, mine: set<nat>)
    requires |h.w.table| == N_SLOTS && Owns(h, mine)
    ensures Owns(h.(w := Expire(h.w, hash, now)), mine)
    decreases |h.w.ring|
  {
    ExpireUnfold(h.w, hash, now);
    if h.w.ring != [] && now >= h.w.ring[0].release {
      assert h.w.ring[0].port in mine;
      FreeNowKeepsOwns(h, hash, h.w.ring[0].ip, h.w.ring[0].port, mine);
      var h1 := h.(w := Pop(h.w, hash));
      hide Expire, FreeNow, Get, Look;
      assert forall r :: Open(h1.w, r) <==> Open(FreeNow(h.w, hash, h.w.ring[0].ip, h.w.ring[0].port), r);
      forall k | 0 <= k < |h1.w.ring| ensures h1.w.ring[k].port in mine { assert h1.w.ring[k] == h.w.ring[k + 1]; }
      ExpireKeepsOwns(h1, hash, now, mine);
    }
  }

  lemma AllocateKeepsOwns(h: History, hash: Hash, ip: nat, mine: set<nat>)
    requires |h.w.table| == N_SLOTS && Owns(h, mine)
    ensures Owns(Step(h, hash, Allocate(ip)), mine)
  {
    GetKeepsOwns(h, hash, ip, mine);
    AllocateStep(h, hash, ip);
    var g := Get(h.w, hash, ip);
    GetOpensRef(h.w, hash, ip);
    hide Step, Alloc, Get, Look, LookUp;
    var h' := Step(h, hash, Allocate(ip));
    forall r | Open(h'.w, r) ensures PoolOf(h'.w, r).avail <= mine { assert Open(g.0, r); }
    forall claim <- h'.held ensures claim.1 in mine { }
  }

  lemma GetOpensRef(w: Worker, hash: Hash, ip: nat)
    requires |w.table| == N_SLOTS
    ensures Open(Get(w, hash, ip).0, Get(w, hash, ip).1)
  {
  }

  /** No step, disciplined or reset aside, brings in a port that is not the worker's own. */
  lemma StepKeepsOwns(h: History, hash: Hash, e: Event, mine: set<nat>)
    requires Enabled(h, hash, e) && Owns(h, mine)
    ensures Owns(Step(h, hash, e), mine)
  {
    match e
    case Allocate(ip) => AllocateKeepsOwns(h, hash, ip, mine);
    case ReleaseNow(ip, port) =>
      assert port in mine;
      FreeNowKeepsOwns(h, hash, ip, port, mine);
      ShrinkOwns(h.(w := FreeNow(h.w, hash, ip, port)), h.held - {(RefOf(h.w, hash, ip), port)}, h.now, mine);
    case ReleaseLater(ip, port, at) =>
      assert port in mine;
      if |h.w.ring| >= RING_LIMIT {
        FreeNowKeepsOwns(h, hash, ip, port, mine);
        ShrinkOwns(h.(w := FreeNow(h.w, hash, ip, port)), h.held - {(RefOf(h.w, hash, ip), port)}, at, mine);
      } else {
        assert forall r :: Open(Step(h, hash, e).w, r) <==> Open(h.w, r);
      }
    case TickAt(now) =>
      ExpireKeepsOwns(h, hash, now, mine);
      ShrinkOwns(h.(w := Expire(h.w, hash, now)), h.held, Max(h.now, now), mine);
  }

  lemma ShrinkOwns(h: History, held: set<(Ref, nat)>, now: nat, mine: set<nat>)
    requires Owns(h, mine) && held <= h.held
    ensures Owns(History(h.w, held, now), mine)
  {
  }

  lemma {:induction false} RunKeepsOwns(h: History, hash: Hash, es: seq<Event>, mine: set<nat>)
    requires Safe(h, hash) && Owns(h, mine)
    ensures Owns(Exec(h, hash, es), mine)
    decreases |es|
  {
    if es != [] {
      if Enabled(h, hash, es[0]) {
        StepKeepsSafe(h, hash, es[0]);
        StepKeepsOwns(h, hash, es[0], mine);
        RunKeepsOwns(Step(h, hash, es[0]), hash, es[1..], mine);
      } else {
        RunKeepsOwns(h, hash, es[1..], mine);
      }
    }
  }

  // ------------------------------------------------------- stability of routes

  /** Every settled address keeps its pool. */
  ghost predicate RoutesKept(w: Worker, w': Worker, hash: Hash) {
    forall ip: nat, r: Ref :: Settled(w, hash, ip, r) ==> Settled(w', hash, ip, r)
  }

  lemma SameLookUps(w: Worker, w': Worker, hash: Hash)
    requires |w.table| == |w'.table| == N_SLOTS && forall ip :: LookUp(w', hash, ip) == LookUp(w, hash, ip)
    ensures RoutesKept(w, w', hash)
  {
    hide Look, LookUp;
    forall ip: nat, r: Ref | Settled(w, hash, ip, r) ensures Settled(w', hash, ip, r) {
      assert LookUp(w', hash, ip) == LookUp(w, hash, ip);
      if ip != 0 { VacantMoves(w, hash, ip); }
    }
  }

  /** Claiming a vacant slot changes the table. */
  lemma VacantMoves(w: Worker, hash: Hash, ip: nat)
    requires |w.table| == N_SLOTS && ip != 0
    ensures LookUp(w, hash, ip).Vacant? ==> Get(w, hash, ip).0 != w
  {
    var f := LookUp(w, hash, ip);
    if f.Vacant? {
      assert w.table[f.s].ip == 0 && Get(w, hash, ip).0.table[f.s].ip == ip;
    }
  }

  lemma WithPoolKeepsRoutes(w: Worker, hash: Hash, ref: Ref, pool: Pool, ring: seq<Entry>)
    requires |w.table| == N_SLOTS && Open(w, ref) && pool.ip == PoolOf(w, ref).ip
    ensures RoutesKept(w, WithPool(w, ref, pool).(ring := ring), hash)
  {
    var w' := WithPool(w, ref, pool).(ring := ring);
    forall ip ensures LookUp(w', hash, ip) == LookUp(w, hash, ip) { WithPoolRoutes(w, hash, ref, pool, ip); }
    SameLookUps(w, w', hash);
  }

  lemma FreeNowKeepsRoutes(w: Worker, hash: Hash, ip: nat, port: nat, ring: seq<Entry>)
    requires TableOk(w, hash)
    ensures TableOk(FreeNow(w, hash, ip, port).(ring := ring), hash)
    ensures RoutesKept(w, FreeNow(w, hash, ip, port).(ring := ring), hash)
  {
    GetSettles(w, hash, ip);
    GetOpensRef(w, hash, ip);
    var g := Get(w, hash, ip);
    var pool := PoolOf(g.0, g.1).(avail := PoolOf(g.0, g.1).avail + {port});
    WithPoolKeepsRoutes(g.0, hash, g.1, pool, ring);
    forall ip ensures LookUp(WithPool(g.0, g.1, pool).(ring := ring), hash, ip) == LookUp(g.0, hash, ip) {
      WithPoolRoutes(g.0, hash, g.1, pool, ip);
    }
    hide Settled, Look, LookUp, Get;
  }

  lemma {:induction false} ExpireKeepsRoutes(w: Worker, hash: Hash, now: nat)
    requires TableOk(w, hash)
    ensures RoutesKept(w, Expire(w, hash, now), hash)
    decreases |w.ring|
  {
    ExpireUnfold(w, hash, now);
    if w.ring != [] && now >= w.ring[0].release {
      FreeNowKeepsRoutes(w, hash, w.ring[0].ip, w.ring[0].port, w.ring[1..]);
      hide Settled, Look, LookUp, Get, FreeNow, Expire, TableOk;
      ExpireKeepsRoutes(Pop(w, hash), hash, now);
    }
  }

  lemma GetKeepsRoutes(w: Worker, hash: Hash, ip: nat)
    requires TableOk(w, hash)
    ensures |w.table| == N_SLOTS && RoutesKept(w, Get(w, hash, ip).0, hash)
  {
    GetSettles(w, hash, ip);
    hide Settled, Get;
  }

  lemma RoutesTransitive(w: Worker, w1: Worker, w': Worker, hash: Hash)
    requires RoutesKept(w, w1, hash) && RoutesKept(w1, w', hash)
    ensures RoutesKept(w, w', hash)
  {
    hide Settled;
  }

  lemma TakeKeepsRoutes(w: Worker, hash: Hash, ref: Ref, b: nat)
    requires |w.table| == N_SLOTS && Open(w, ref)
    ensures var p := PoolOf(w, ref);
            RoutesKept(w, WithPool(w, ref, p.(avail := p.avail - {b}, cursor := (b + 1) % PORTS)), hash)
  {
    var p := PoolOf(w, ref);
    var pool := p.(avail := p.avail - {b}, cursor := (b + 1) % PORTS);
    assert WithPool(w, ref, pool).(ring := w.ring) == WithPool(w, ref, pool);
    hide RoutesKept;
    WithPoolKeepsRoutes(w, hash, ref, pool, w.ring);
  }

  lemma AllocateKeepsRoutes(h: History, hash: Hash, ip: nat)
    requires TableOk(h.w, hash)
    ensures RoutesKept(h.w, Step(h, hash, Allocate(ip)).w, hash)
  {
    hide *;
    var w := h.w;
    GetKeepsRoutes(w, hash, ip);
    AllocateStep(h, hash, ip);
    GetOpensRef(w, hash, ip);
    var g := Get(w, hash, ip);
    var r := Alloc(w, hash, ip).1;
    if r.Some? {
      TakeKeepsRoutes(g.0, hash, g.1, r.value);
      RoutesTransitive(w, g.0, Step(h, hash, Allocate(ip)).w, hash);
    }
  }

  lemma SettledStays(w: Worker, w': Worker, hash: Hash, ip: nat, ref: Ref)
    requires Settled(w, hash, ip, ref) && RoutesKept(w, w', hash)
    ensures Settled(w', hash, ip, ref) && |w'.table| == N_SLOTS && RefOf(w', hash, ip) == ref
  {
    hide Get;
  }

  lemma GetSettled(w: Worker, hash: Hash, ip: nat)
    requires TableOk(w, hash)
    ensures |w.table| == N_SLOTS && Settled(Get(w, hash, ip).0, hash, ip, Get(w, hash, ip).1)
  {
    GetSettles(w, hash, ip);
    hide Settled, Get;
  }

  /** After handing a port out, the address is settled in the pool it came from. */
  lemma AllocateSettles(h: History, hash: Hash, ip: nat)
    requires TableOk(h.w, hash)
    ensures |h.w.table| == N_SLOTS
    ensures var h' := Step(h, hash, Allocate(ip));
            Alloc(h.w, hash, ip).1.Some? ==>
              Settled(h'.w, hash, ip, RefOf(h.w, hash, ip)) && RefOf(h'.w, hash, ip) == RefOf(h.w, hash, ip)
  {
    hide *;
    GetSettled(h.w, hash, ip);
    GetOpensRef(h.w, hash, ip);
    AllocateStep(h, hash, ip);
    var g := Get(h.w, hash, ip);
    var r := Alloc(h.w, hash, ip).1;
    if r.Some? {
      TakeKeepsRoutes(g.0, hash, g.1, r.value);
      SettledStays(g.0, Step(h, hash, Allocate(ip)).w, hash, ip, g.1);
    }
  }

  lemma ReleaseKeepsRoutes(h: History, hash: Hash, e: Event)
    requires TableOk(h.w, hash) && (e.ReleaseNow? || e.ReleaseLater?)
    ensures RoutesKept(h.w, Step(h, hash, e).w, hash)
  {
    var w := h.w;
    FreeNowKeepsRoutes(w, hash, e.ip, e.port, w.ring);
    var w' := FreeNow(w, hash, e.ip, e.port);
    assert w'.(ring := w.ring) == w';
    var at := if e.ReleaseLater? then e.at else 0;
    var later := w.(ring := w.ring + [Entry(e.ip, e.port, at + w.hold)]);
    assert forall ip :: LookUp(later, hash, ip) == LookUp(w, hash, ip);
    SameLookUps(w, later, hash);
    hide Settled, Look, LookUp, Get, FreeNow, TableOk, RoutesKept;
  }

  /** ip_pool_get routes an address to the same pool for the rest of the run. */
  lemma StepKeepsRoutes(h: History, hash: Hash, e: Event)
    requires TableOk(h.w, hash)
    ensures RoutesKept(h.w, Step(h, hash, e).w, hash)
  {
    hide Settled, Look, LookUp, Get, Alloc, FreeNow, Expire, TableOk, RoutesKept;
    match e
    case Allocate(ip) => AllocateKeepsRoutes(h, hash, ip);
    case ReleaseNow(_, _) => ReleaseKeepsRoutes(h, hash, e);
    case ReleaseLater(_, _, _) => ReleaseKeepsRoutes(h, hash, e);
    case TickAt(now) => ExpireKeepsRoutes(h.w, hash, now);
  }

  /** Over every run an address that has been served keeps its pool. */
  lemma {:induction false} RunKeepsRoutes(h: History, hash: Hash, es: seq<Event>)
    requires Safe(h, hash)
    ensures RoutesKept(h.w, Exec(h, hash, es).w, hash)
    decreases |es|
  {
    hide Settled, Look, LookUp, Get, Step, TableOk, PoolsOk, HeldOk, RingOk, TimesOk;
    if es != [] {
      if Enabled(h, hash, es[0]) {
        StepKeepsSafe(h, hash, es[0]);
        StepKeepsRoutes(h, hash, es[0]);
        RunKeepsRoutes(Step(h, hash, es[0]), hash, es[1..]);
      } else {
        RunKeepsRoutes(h, hash, es[1..]);
      }
    }
  }

  // -------------------------------------------------------- hold-off over runs

  /** An entry of the ring: its port is neither available nor held. */
  lemma WaitingIsTaken(h: History, hash: Hash, x: Entry)
    requires Safe(h, hash) && x in h.w.ring
    ensures |h.w.table| == N_SLOTS && Settled(h.w, hash, x.ip, RefOf(h.w, hash, x.ip))
    ensures Taken(h.w, Claim(h.w, hash, x)) && Claim(h.w, hash, x) !in h.held
  {
    var k :| 0 <= k < |h.w.ring| && h.w.ring[k] == x;
    assert EntryOk(h, hash, h.w.ring[k]);
    hide TableOk, PoolsOk, TimesOk, Get, Look, HeldOk;
  }

  lemma StepKeepsWaiting(h: History, hash: Hash, e: Event, x: Entry)
    requires Safe(h, hash) && Enabled(h, hash, e) && x in h.w.ring && Step(h, hash, e).now < x.release
    ensures x in Step(h, hash, e).w.ring
  {
    SafeShape(h, hash);
    match e
    case Allocate(ip) => AllocKeepsRing(h.w, hash, ip);
    case ReleaseNow(_, _) =>
    case ReleaseLater(_, _, _) =>
    case TickAt(now) =>
      var k :| 0 <= k < |h.w.ring| && h.w.ring[k] == x;
      hide Safe, Expire, Get;
      var n := ExpireExact(h, hash, now);
      assert h.w.ring[n..][k - n] == h.w.ring[k];
  }

  lemma AllocKeepsRing(w: Worker, hash: Hash, ip: nat)
    requires |w.table| == N_SLOTS
    ensures Alloc(w, hash, ip).0.ring == w.ring
  {
    hide Scan;
  }

  /** The clock of a run does not go back. */
  lemma {:induction false} ClockAdvances(h: History, hash: Hash, es: seq<Event>)
    requires Safe(h, hash)
    ensures h.now <= Exec(h, hash, es).now
    decreases |es|
  {
    if es != [] {
      if Enabled(h, hash, es[0]) {
        StepKeepsSafe(h, hash, es[0]);
        assert h.now <= Step(h, hash, es[0]).now;
        hide Safe, Step;
        ClockAdvances(Step(h, hash, es[0]), hash, es[1..]);
      } else {
        hide Safe;
        ClockAdvances(h, hash, es[1..]);
      }
    }
  }

  /**
   * Hold-off over every run: until the clock reaches its release time a port
   * passed to tcp_port_free stays in the ring, whatever is allocated, freed and
   * expired meanwhile; so it is not available, and no address is served with it.
   */
  lemma {:induction false} HeldOffOverRuns(h: History, hash: Hash, es: seq<Event>, x: Entry, ip: nat)
    requires Safe(h, hash) && x in h.w.ring && Exec(h, hash, es).now < x.release
    ensures |h.w.table| == N_SLOTS && |Exec(h, hash, es).w.table| == N_SLOTS
    ensures var z := Exec(h, hash, es);
            && x in z.w.ring && Taken(z.w, Claim(z.w, hash, x))
            && Claim(z.w, hash, x) == Claim(h.w, hash, x)
            && (Alloc(z.w, hash, ip).1.Some? ==> (RefOf(z.w, hash, ip), Alloc(z.w, hash, ip).1.value) != Claim(h.w, hash, x))
  {
    hide *;
    StaysWaiting(h, hash, es, x);
    var z := Exec(h, hash, es);
    WaitingIsTaken(h, hash, x);
    WaitingIsTaken(z, hash, x);
    RunKeepsRoutes(h, hash, es);
    SameClaim(h.w, z.w, hash, x);
    NotServed(z, hash, x, ip);
  }

  lemma {:induction false} StaysWaiting(h: History, hash: Hash, es: seq<Event>, x: Entry)
    requires Safe(h, hash) && x in h.w.ring && Exec(h, hash, es).now < x.release
    ensures x in Exec(h, hash, es).w.ring
    decreases |es|
  {
    if es != [] {
      if Enabled(h, hash, es[0]) {
        StepKeepsSafe(h, hash, es[0]);
        hide Safe, Step, Enabled;
        ClockAdvances(Step(h, hash, es[0]), hash, es[1..]);
        StepKeepsWaiting(h, hash, es[0], x);
        StaysWaiting(Step(h, hash, es[0]), hash, es[1..], x);
      } else {
        hide Safe, Step, Enabled;
        StaysWaiting(h, hash, es[1..], x);
      }
    }
  }

  lemma SameClaim(w: Worker, w': Worker, hash: Hash, x: Entry)
    requires |w.table| == |w'.table| == N_SLOTS && RoutesKept(w, w', hash) && Settled(w, hash, x.ip, RefOf(w, hash, x.ip))
    ensures Claim(w', hash, x) == Claim(w, hash, x)
  {
    SettledStays(w, w', hash, x.ip, RefOf(w, hash, x.ip));
    hide RoutesKept, Settled, RefOf;
  }

  lemma NotServed(h: History, hash: Hash, x: Entry, ip: nat)
    requires Safe(h, hash) && x in h.w.ring
    ensures |h.w.table| == N_SLOTS
    ensures var r := Alloc(h.w, hash, ip).1; r.Some? ==> (RefOf(h.w, hash, ip), r.value) != Claim(h.w, hash, x)
  {
    SafeShape(h, hash);
    var k :| 0 <= k < |h.w.ring| && h.w.ring[k] == x;
    hide Safe, Alloc, RefOf, Claim;
    AllocateKeepsSafe(h, hash, ip);
    assert h.w.ring[k] == x;
  }

  /**
   * The exception is exact: passing a held port to tcp_port_free keeps it
   * unavailable if and only if the ring has room; with a full ring it is available at once.
   */
  lemma HeldOffIffRoom(h: History, hash: Hash, ip: nat, port: nat, at: nat)
    requires Safe(h, hash) && Enabled(h, hash, ReleaseLater(ip, port, at))
    ensures |h.w.table| == N_SLOTS
    ensures var h' := Step(h, hash, ReleaseLater(ip, port, at));
            var claim := (RefOf(h.w, hash, ip), port);
            && Open(h'.w, claim.0)
            && (|h.w.ring| < RING_LIMIT <==> port !in PoolOf(h'.w, claim.0).avail)
            && (|h.w.ring| < RING_LIMIT <==> Entry(ip, port, at + h.w.hold) in h'.w.ring && |h'.w.ring| > |h.w.ring|)
  {
    SafeShape(h, hash);
    ReleaseLaterStep(h, hash, ip, port, at);
    var claim := (RefOf(h.w, hash, ip), port);
    HeldNotInRing(h, hash, claim);
    FreeNowSettled(h.w, hash, ip, port);
    var e := Entry(ip, port, at + h.w.hold);
    assert (h.w.ring + [e])[|h.w.ring|] == e;
    hide Safe, RefOf, Settled, FreeLater;
  }
}
