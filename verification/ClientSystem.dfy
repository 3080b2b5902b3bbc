/**
 * A worker that only opens connections: the TCB store and the port pool
 * together (tx_gen.c, tcp_fsm.c, tcp_timer.c, worker_loop.c). Active opens,
 * closes with and without hold-off, ring expiry and the two resets; no RSS
 * re-filter.
 */
module ClientSystem {
  import opened Basics
  import T = TcbStore
  import P = PortPoolSpec

  const EPHEM_LO: nat := 10000

  datatype Client = Client(store: T.Store, pool: P.History)

  datatype Event =
    | OpenTo(srcIp: nat, dstIp: nat, dstPort: nat)   // tcp_port_alloc, then tcp_fsm_connect
    | CloseNow(idx: int)                             // reset sent or received, FIN exchange complete
    | CloseLater(idx: int, at: nat)                  // LAST_ACK, FIN_WAIT_2 and TIME_WAIT expiry
    | TickAt(now: nat)
    | ResetConnections                               // tcp_fsm_reset_all alone: ports are not returned
    | ResetWorker                                    // CFG_CMD_RESET: connections and ports

  /** The position of an ephemeral port in the bitmap. */
  function PortOf(key: T.Key): nat {
    if key.srcPort >= EPHEM_LO then key.srcPort - EPHEM_LO else 0
  }

  /** The claim of a connection on the port pool. */
  function ClaimOf(w: P.Worker, hash: P.Hash, key: T.Key): (P.Ref, nat)
    requires |w.table| == P.N_SLOTS
  {
    (P.RefOf(w, hash, key.srcIp), PortOf(key))
  }

  function OpenKey(e: Event, port: nat): T.Key
    requires e.OpenTo?
  {
    T.Key(e.srcIp, EPHEM_LO + port, e.dstIp, e.dstPort)
  }

  /** What the port pool is asked to do when a connection goes: at once, or into hold-off at a reading of the clock. */
  function Freeing(ip: nat, port: nat, at: Option<nat>): P.Event {
    if at.Some? then P.ReleaseLater(ip, port, at.value) else P.ReleaseNow(ip, port)
  }

  /** tcp_port_free and tcp_port_free_immediate ignore ports below the ephemeral range. */
  function Close(c: Client, hash: P.Hash, i: int, at: Option<nat>): (c': Client)
    requires |c.pool.w.table| == P.N_SLOTS
    ensures |c'.pool.w.table| == P.N_SLOTS
  {
    if i !in c.store.live then c
    else
      var key := c.store.live[i];
      Client(T.FreeIn(c.store, i),
             if key.srcPort < EPHEM_LO then c.pool else P.Step(c.pool, hash, Freeing(key.srcIp, PortOf(key), at)))
  }

  /** An active open: without a TCB the port goes straight back. */
  function Open(c: Client, hash: P.Hash, e: Event): (c': Client)
    requires |c.pool.w.table| == P.N_SLOTS && e.OpenTo?
    ensures |c'.pool.w.table| == P.N_SLOTS
  {
    var port := P.Alloc(c.pool.w, hash, e.srcIp).1;
    var pool := P.Step(c.pool, hash, P.Allocate(e.srcIp));
    if port.None? then c.(pool := pool)
    else
      var (store, idx) := T.AllocIn(c.store, OpenKey(e, port.value));
      Client(store, if idx.None? then P.Step(pool, hash, P.ReleaseNow(e.srcIp, port.value)) else pool)
  }

  /** The clock does not go back between frees. */
  function Step(c: Client, hash: P.Hash, capacity: nat, e: Event): (c': Client)
    requires |c.pool.w.table| == P.N_SLOTS
    ensures |c'.pool.w.table| == P.N_SLOTS
  {
    match e
    case OpenTo(_, _, _) => Open(c, hash, e)
    case CloseNow(i) => Close(c, hash, i, None)
    case CloseLater(i, at) => if at < c.pool.now then c else Close(c, hash, i, Some(at))
    case TickAt(now) => c.(pool := P.Step(c.pool, hash, P.TickAt(now)))
    case ResetConnections => c.(store := T.Fresh(capacity))
    case ResetWorker => Initial(c.pool.w.hold, c.pool.now, capacity)
  }

  function Initial(hold: nat, now: nat, capacity: nat): (c: Client)
    ensures |c.pool.w.table| == P.N_SLOTS
  {
    Client(T.Fresh(capacity), P.History(P.Fresh(hold), {}, now))
  }

  // --------------------------------------------------------------- invariant

  /** A live connection's source port is out of the pool of its address, on its behalf. */
  ghost predicate Claimed(h: P.History, hash: P.Hash, key: T.Key)
    requires |h.w.table| == P.N_SLOTS
  {
    && key.srcPort >= EPHEM_LO
    && P.Settled(h.w, hash, key.srcIp, P.RefOf(h.w, hash, key.srcIp))
    && ClaimOf(h.w, hash, key) in h.held
  }

  /** Every live connection has its claim, and no two share one. */
  ghost predicate Claims(c: Client, hash: P.Hash) {
    && |c.pool.w.table| == P.N_SLOTS
    && (forall i <- c.store.live :: Claimed(c.pool, hash, c.store.live[i]))
    && (forall i, j {:trigger c.store.live[i], c.store.live[j]} :: i in c.store.live && j in c.store.live && i != j ==>
          ClaimOf(c.pool.w, hash, c.store.live[i]) != ClaimOf(c.pool.w, hash, c.store.live[j]))
  }

  ghost predicate Inv(c: Client, hash: P.Hash, capacity: nat) {
    T.StoreOk(c.store, capacity) && P.Safe(c.pool, hash) && Claims(c, hash)
  }

  /** A settled address keeps its claim through a pool step that keeps routes. */
  lemma ClaimStays(h: P.History, h': P.History, hash: P.Hash, key: T.Key)
    requires |h.w.table| == |h'.w.table| == P.N_SLOTS && P.RoutesKept(h.w, h'.w, hash)
    requires Claimed(h, hash, key) && ClaimOf(h.w, hash, key) in h'.held
    ensures Claimed(h', hash, key) && ClaimOf(h'.w, hash, key) == ClaimOf(h.w, hash, key)
  {
    var ref := P.RefOf(h.w, hash, key.srcIp);
    assert P.Settled(h'.w, hash, key.srcIp, ref);
    hide P.RoutesKept, P.Get;
  }

  /** Claims survive when routes are kept and what is still live is still held. */
  lemma ClaimsKept(c: Client, c': Client, hash: P.Hash)
    requires Claims(c, hash) && |c'.pool.w.table| == P.N_SLOTS && P.RoutesKept(c.pool.w, c'.pool.w, hash)
    requires forall i <- c'.store.live :: i in c.store.live && c'.store.live[i] == c.store.live[i]
                                          && ClaimOf(c.pool.w, hash, c.store.live[i]) in c'.pool.held
    ensures Claims(c', hash)
  {
    hide P.RoutesKept, P.RefOf, P.Settled, Claimed, ClaimOf;
    forall i <- c'.store.live
      ensures Claimed(c'.pool, hash, c'.store.live[i])
      ensures ClaimOf(c'.pool.w, hash, c'.store.live[i]) == ClaimOf(c.pool.w, hash, c.store.live[i])
    {
      ClaimStays(c.pool, c'.pool, hash, c.store.live[i]);
    }
  }

  // -------------------------------------------------------------------- opens

  /** What handing a port out leaves: a new claim, settled, and every old one kept. */
  lemma AllocateClaims(h: P.History, hash: P.Hash, ip: nat)
    requires P.Safe(h, hash)
    ensures |h.w.table| == P.N_SLOTS
    ensures var h' := P.Step(h, hash, P.Allocate(ip));
            var port := P.Alloc(h.w, hash, ip).1;
            && P.Safe(h', hash) && P.RoutesKept(h.w, h'.w, hash)
            && (port.None? ==> h'.held == h.held)
            && (port.Some? ==>
                  && P.Settled(h'.w, hash, ip, P.RefOf(h'.w, hash, ip))
                  && (P.RefOf(h'.w, hash, ip), port.value) !in h.held
                  && h'.held == h.held + {(P.RefOf(h'.w, hash, ip), port.value)})
  {
    hide *;
    P.SafeShape(h, hash);
    SafeTable(h, hash);
    P.AllocateKeepsSafe(h, hash, ip);
    P.AllocateKeepsRoutes(h, hash, ip);
    P.AllocateStep(h, hash, ip);
    P.AllocateSettles(h, hash, ip);
  }

  lemma SafeTable(h: P.History, hash: P.Hash)
    requires P.Safe(h, hash)
    ensures P.TableOk(h.w, hash)
  {
    hide P.TableOk;
  }

  /** A key whose claim nobody holds is not live. */
  lemma UnclaimedIsFresh(c: Client, hash: P.Hash, key: T.Key)
    requires Claims(c, hash) && ClaimOf(c.pool.w, hash, key) !in c.pool.held
    ensures T.FreshKey(c.store, T.DoAlloc(key))
  {
    hide P.Settled, P.RefOf;
    forall i <- c.store.live ensures c.store.live[i] != key { assert Claimed(c.pool, hash, c.store.live[i]); }
  }

  /** An active open never inserts a four-tuple that is already live. */
  lemma OpenIsFresh(c: Client, hash: P.Hash, e: Event)
    requires P.Safe(c.pool, hash) && Claims(c, hash) && e.OpenTo?
    ensures var port := P.Alloc(c.pool.w, hash, e.srcIp).1;
            port.Some? ==> T.FreshKey(c.store, T.DoAlloc(OpenKey(e, port.value)))
  {
    P.AllocateKeepsSafe(c.pool, hash, e.srcIp);
    var port := P.Alloc(c.pool.w, hash, e.srcIp).1;
    assert port.Some? ==> ClaimOf(c.pool.w, hash, OpenKey(e, port.value)) == (P.RefOf(c.pool.w, hash, e.srcIp), port.value);
    hide *;
    if port.Some? { UnclaimedIsFresh(c, hash, OpenKey(e, port.value)); }
  }

  /** What an active open leaves: exactly one more connection, with the addresses asked for and the port taken from the pool. */
  lemma OpenAdds(c: Client, hash: P.Hash, e: Event)
    requires |c.pool.w.table| == P.N_SLOTS && e.OpenTo?
    ensures var port := P.Alloc(c.pool.w, hash, e.srcIp).1;
            var c' := Open(c, hash, e);
            if port.None? || c.store.free == [] then c'.store == c.store
            else var i := c.store.free[|c.store.free| - 1];
                 && c'.store.live == c.store.live[i := T.Key(e.srcIp, 10000 + port.value, e.dstIp, e.dstPort)]
                 && c'.store.free == c.store.free[..|c.store.free| - 1]
  {
    hide P.Alloc, P.Step;
  }

  /**
   * What a close leaves: the connection is gone, and its port is available at
   * once, or waits at the end of the ring for the hold time while there is room.
   */
  lemma CloseFrees(c: Client, hash: P.Hash, i: int, at: nat)
    requires P.Safe(c.pool, hash) && Claims(c, hash) && i in c.store.live
    ensures var key := c.store.live[i];
            var ref := P.RefOf(c.pool.w, hash, key.srcIp);
            var now, later := Close(c, hash, i, None), Close(c, hash, i, Some(at));
            && now.store.live == c.store.live - {i} && later.store.live == c.store.live - {i}
            && (|c.pool.w.ring| < 65535 ==>
                  later.pool.w.ring == c.pool.w.ring + [P.Entry(key.srcIp, key.srcPort - 10000, at + c.pool.w.hold)])
            && now.pool.w.ring == c.pool.w.ring && P.Open(now.pool.w, ref) && key.srcPort - 10000 in P.PoolOf(now.pool.w, ref).avail
  {
    hide P.Get, P.Safe, P.Settled, P.RefOf, P.Open, P.FreeNow, Claimed;
    var key := c.store.live[i];
    ClaimedOpen(c, hash, i);
    hide Claims;
    FreedAtOnce(c.pool.w, hash, key.srcIp, PortOf(key));
    HeldBack(c.pool.w, hash, key.srcIp, PortOf(key), at);
    assert P.Step(c.pool, hash, P.ReleaseNow(key.srcIp, PortOf(key))).w == P.FreeNow(c.pool.w, hash, key.srcIp, PortOf(key));
    assert P.Step(c.pool, hash, P.ReleaseLater(key.srcIp, PortOf(key), at)).w == P.FreeLater(c.pool.w, hash, key.srcIp, PortOf(key), at);
    hide P.FreeLater, P.Step;
  }

  lemma HeldBack(w: P.Worker, hash: P.Hash, ip: nat, port: nat, at: nat)
    requires |w.table| == P.N_SLOTS
    ensures |w.ring| < 65535 ==> P.FreeLater(w, hash, ip, port, at).ring == w.ring + [P.Entry(ip, port, at + w.hold)]
  {
  }

  lemma ClaimedOpen(c: Client, hash: P.Hash, i: int)
    requires P.Safe(c.pool, hash) && Claims(c, hash) && i in c.store.live
    ensures var key := c.store.live[i];
            && key.srcPort >= EPHEM_LO && P.Settled(c.pool.w, hash, key.srcIp, P.RefOf(c.pool.w, hash, key.srcIp))
            && P.Open(c.pool.w, P.RefOf(c.pool.w, hash, key.srcIp))
  {
    var key := c.store.live[i];
    assert Claimed(c.pool, hash, key) && P.HeldOk(c.pool);
    assert P.Taken(c.pool.w, ClaimOf(c.pool.w, hash, key));
    hide P.Get, P.RingOk, P.TableOk, P.PoolsOk, P.TimesOk, P.Settled, P.RefOf;
  }

  lemma FreedAtOnce(w: P.Worker, hash: P.Hash, ip: nat, port: nat)
    requires |w.table| == P.N_SLOTS && P.Settled(w, hash, ip, P.RefOf(w, hash, ip)) && P.Open(w, P.RefOf(w, hash, ip))
    ensures var w' := P.FreeNow(w, hash, ip, port);
            && w'.ring == w.ring && P.Open(w', P.RefOf(w, hash, ip)) && port in P.PoolOf(w', P.RefOf(w, hash, ip)).avail
  {
    hide P.LookUp;
  }

  /** A new connection with a new claim joins the others. */
  lemma JoinClaims(c: Client, c': Client, hash: P.Hash, idx: int, key: T.Key)
    requires Claims(c, hash) && |c'.pool.w.table| == P.N_SLOTS && P.RoutesKept(c.pool.w, c'.pool.w, hash)
    requires idx !in c.store.live && c'.store.live == c.store.live[idx := key] && c.pool.held <= c'.pool.held
    requires Claimed(c'.pool, hash, key) && ClaimOf(c'.pool.w, hash, key) !in c.pool.held
    ensures Claims(c', hash)
  {
    hide P.RoutesKept, P.RefOf, P.Settled, ClaimOf;
    forall i <- c.store.live
      ensures Claimed(c'.pool, hash, c.store.live[i])
      ensures ClaimOf(c'.pool.w, hash, c.store.live[i]) == ClaimOf(c.pool.w, hash, c.store.live[i])
      ensures ClaimOf(c'.pool.w, hash, c.store.live[i]) != ClaimOf(c'.pool.w, hash, key)
    {
      assert Claimed(c.pool, hash, c.store.live[i]);
      ClaimStays(c.pool, c'.pool, hash, c.store.live[i]);
    }
    hide Claimed;
  }

  lemma OpenKeepsClaims(c: Client, hash: P.Hash, capacity: nat, e: Event)
    requires Inv(c, hash, capacity) && e.OpenTo?
    ensures Claims(Open(c, hash, e), hash) && P.Safe(Open(c, hash, e).pool, hash)
  {
    assert P.Safe(c.pool, hash) && Claims(c, hash);
    NextIndexIsFree(c.store, capacity);
    OpenCases(c, hash, e);
    hide *;
    AllocateClaims(c.pool, hash, e.srcIp);
    var h := P.Step(c.pool, hash, P.Allocate(e.srcIp));
    var port := P.Alloc(c.pool.w, hash, e.srcIp).1;
    if port.None? {
      OpenRefused(c, hash, h);
    } else if c.store.free == [] {
      OpenReturnsPort(c, hash, h, e.srcIp, port.value);
    } else {
      OpenSucceeds(c, Open(c, hash, e), hash, h, c.store.free[|c.store.free| - 1], OpenKey(e, port.value));
    }
  }

  lemma NextIndexIsFree(a: T.Store, capacity: nat)
    requires T.StoreOk(a, capacity)
    ensures a.free != [] ==> a.free[|a.free| - 1] !in a.live
  {
  }

  /** The three ways an active open can end. */
  lemma OpenCases(c: Client, hash: P.Hash, e: Event)
    requires |c.pool.w.table| == P.N_SLOTS && e.OpenTo?
    ensures var h := P.Step(c.pool, hash, P.Allocate(e.srcIp));
            var port := P.Alloc(c.pool.w, hash, e.srcIp).1;
            var c' := Open(c, hash, e);
            && (port.None? ==> c' == c.(pool := h))
            && (port.Some? && c.store.free == [] ==>
                  c' == c.(pool := P.Step(h, hash, P.ReleaseNow(e.srcIp, port.value))))
            && (port.Some? && c.store.free != [] ==>
                  && var key := OpenKey(e, port.value);
                  && PortOf(key) == port.value && key.srcIp == e.srcIp && key.srcPort >= EPHEM_LO
                  && c'.pool == h && c'.store.live == c.store.live[c.store.free[|c.store.free| - 1] := key])
  {
    hide P.Step, P.Alloc;
  }

  lemma OpenSucceeds(c: Client, c': Client, hash: P.Hash, h: P.History, idx: int, key: T.Key)
    requires Claims(c, hash) && |h.w.table| == P.N_SLOTS && P.RoutesKept(c.pool.w, h.w, hash) && key.srcPort >= EPHEM_LO
    requires idx !in c.store.live && c'.store.live == c.store.live[idx := key] && c'.pool == h
    requires P.Settled(h.w, hash, key.srcIp, P.RefOf(h.w, hash, key.srcIp))
    requires (P.RefOf(h.w, hash, key.srcIp), PortOf(key)) !in c.pool.held
    requires h.held == c.pool.held + {(P.RefOf(h.w, hash, key.srcIp), PortOf(key))}
    ensures Claims(c', hash)
  {
    hide P.RoutesKept, P.Settled, P.RefOf, PortOf, Claims;
    JoinClaims(c, c', hash, idx, key);
  }

  /** Nothing was opened: the same connections with at least the same claims. */
  lemma OpenRefused(c: Client, hash: P.Hash, h: P.History)
    requires Claims(c, hash) && |h.w.table| == P.N_SLOTS && P.RoutesKept(c.pool.w, h.w, hash) && c.pool.held <= h.held
    ensures Claims(c.(pool := h), hash)
  {
    hide P.RoutesKept, P.RefOf, P.Settled, ClaimOf;
    assert forall i <- c.store.live :: Claimed(c.pool, hash, c.store.live[i]);
    ClaimsKept(c, c.(pool := h), hash);
  }

  lemma ReleaseStep(h: P.History, hash: P.Hash, ip: nat, port: nat, at: Option<nat>)
    requires (at.Some? ==> at.value >= h.now) && P.Safe(h, hash) && |h.w.table| == P.N_SLOTS && P.Settled(h.w, hash, ip, P.RefOf(h.w, hash, ip))
    requires (P.RefOf(h.w, hash, ip), port) in h.held
    ensures var h' := P.Step(h, hash, Freeing(ip, port, at));
            && P.Safe(h', hash) && P.RoutesKept(h.w, h'.w, hash)
            && h'.held == h.held - {(P.RefOf(h.w, hash, ip), port)}
  {
    var e := Freeing(ip, port, at);
    assert P.Enabled(h, hash, e);
    assert P.Step(h, hash, e).held == h.held - {(P.RefOf(h.w, hash, ip), port)};
    SafeTable(h, hash);
    hide *;
    P.StepKeepsSafe(h, hash, e);
    P.StepKeepsRoutes(h, hash, e);
  }

  lemma FreeingNow(ip: nat, port: nat)
    ensures Freeing(ip, port, None) == P.ReleaseNow(ip, port)
  {
  }

  lemma OpenReturnsPort(c: Client, hash: P.Hash, h: P.History, ip: nat, port: nat)
    requires Claims(c, hash) && P.Safe(h, hash) && |h.w.table| == P.N_SLOTS && P.RoutesKept(c.pool.w, h.w, hash)
    requires P.Settled(h.w, hash, ip, P.RefOf(h.w, hash, ip))
    requires (P.RefOf(h.w, hash, ip), port) !in c.pool.held
    requires h.held == c.pool.held + {(P.RefOf(h.w, hash, ip), port)}
    ensures Claims(c.(pool := P.Step(h, hash, P.ReleaseNow(ip, port))), hash)
    ensures P.Safe(P.Step(h, hash, P.ReleaseNow(ip, port)), hash)
  {
    assert |c.pool.w.table| == P.N_SLOTS;
    hide *;
    FreeingNow(ip, port);
    ReleaseStep(h, hash, ip, port, None);
    var h' := P.Step(h, hash, P.ReleaseNow(ip, port));
    assert h'.held == c.pool.held;
    P.RoutesTransitive(c.pool.w, h.w, h'.w, hash);
    OpenRefused(c, hash, h');
  }

  // ------------------------------------------------------------------- closes

  lemma CloseKeepsClaims(c: Client, hash: P.Hash, i: int, at: Option<nat>)
    requires (at.Some? ==> at.value >= c.pool.now) && P.Safe(c.pool, hash) && Claims(c, hash)
    ensures Claims(Close(c, hash, i, at), hash) && P.Safe(Close(c, hash, i, at).pool, hash)
  {
    if i in c.store.live {
      var key := c.store.live[i];
      assert Claimed(c.pool, hash, key);
      hide P.Safe, P.Step, P.RoutesKept, P.RefOf, P.Settled, Claims;
      ReleaseStep(c.pool, hash, key.srcIp, PortOf(key), at);
      LeaveClaims(c, Close(c, hash, i, at), hash, i);
    }
  }

  /** A connection leaves with its claim; nobody else's claim was the same. */
  lemma LeaveClaims(c: Client, c': Client, hash: P.Hash, i: int)
    requires Claims(c, hash) && i in c.store.live && c'.store.live == c.store.live - {i}
    requires |c'.pool.w.table| == P.N_SLOTS && P.RoutesKept(c.pool.w, c'.pool.w, hash)
    requires c'.pool.held == c.pool.held - {ClaimOf(c.pool.w, hash, c.store.live[i])}
    ensures Claims(c', hash)
  {
    hide P.RoutesKept, P.RefOf, P.Settled, ClaimOf;
    assert forall j <- c.store.live :: Claimed(c.pool, hash, c.store.live[j]);
    ClaimsKept(c, c', hash);
  }

  // --------------------------------------------------------------- whole runs

  lemma TickKeepsClaims(c: Client, hash: P.Hash, now: nat)
    requires P.Safe(c.pool, hash) && Claims(c, hash)
    ensures var c' := c.(pool := P.Step(c.pool, hash, P.TickAt(now)));
            Claims(c', hash) && P.Safe(c'.pool, hash)
  {
    assert P.Enabled(c.pool, hash, P.TickAt(now));
    assert P.Step(c.pool, hash, P.TickAt(now)).held == c.pool.held;
    SafeTable(c.pool, hash);
    hide *;
    P.StepKeepsSafe(c.pool, hash, P.TickAt(now));
    P.StepKeepsRoutes(c.pool, hash, P.TickAt(now));
    OpenRefused(c, hash, P.Step(c.pool, hash, P.TickAt(now)));
  }

  /** The store operation an event performs, if any. */
  function StoreOps(c: Client, hash: P.Hash, e: Event): (ops: seq<T.Op>)
    requires |c.pool.w.table| == P.N_SLOTS
    ensures |ops| <= 1
  {
    match e
    case OpenTo(ip, _, _) =>
      var port := P.Alloc(c.pool.w, hash, ip).1;
      if port.None? then [] else [T.DoAlloc(OpenKey(e, port.value))]
    case CloseNow(i) => [T.DoFree(i)]
    case CloseLater(i, at) => if at < c.pool.now then [] else [T.DoFree(i)]
    case TickAt(_) => []
    case ResetConnections => [T.DoReset]
    case ResetWorker => [T.DoReset]
  }

  lemma StepPerforms(c: Client, hash: P.Hash, capacity: nat, e: Event)
    requires |c.pool.w.table| == P.N_SLOTS
    ensures var ops := StoreOps(c, hash, e);
            Step(c, hash, capacity, e).store == if ops == [] then c.store else T.StepStore(c.store, ops[0], capacity)
  {
    hide P.Step, P.Alloc;
  }

  lemma InitialInv(hold: nat, now: nat, capacity: nat, hash: P.Hash)
    ensures Inv(Initial(hold, now, capacity), hash, capacity)
  {
    P.FreshIsSafe(hold, now, hash);
    T.FreshOk(capacity);
    hide P.Safe, T.StoreOk;
  }

  /** Every event keeps the ports of live connections claimed, and allocates only keys that are not live. */
  lemma StepKeepsInv(c: Client, hash: P.Hash, capacity: nat, e: Event)
    requires Inv(c, hash, capacity)
    ensures Inv(Step(c, hash, capacity, e), hash, capacity)
    ensures forall op <- StoreOps(c, hash, e) :: T.FreshKey(c.store, op)
  {
    StepPerforms(c, hash, capacity, e);
    var ops := StoreOps(c, hash, e);
    if ops != [] { T.StepKeepsStore(c.store, ops[0], capacity); }
    InitialInv(c.pool.w.hold, c.pool.now, capacity, hash);
    hide T.StoreOk, T.StepStore, P.Safe, Open, Close, P.Step, Initial;
    match e
    case OpenTo(_, _, _) =>
      OpenKeepsClaims(c, hash, capacity, e);
      OpenIsFresh(c, hash, e);
    case CloseNow(i) => CloseKeepsClaims(c, hash, i, None);
    case CloseLater(i, at) => if at >= c.pool.now { CloseKeepsClaims(c, hash, i, Some(at)); }
    case TickAt(now) => TickKeepsClaims(c, hash, now);
    case ResetConnections =>
    case ResetWorker =>
  }

  function Exec(c: Client, hash: P.Hash, capacity: nat, es: seq<Event>): (c': Client)
    requires |c.pool.w.table| == P.N_SLOTS
    ensures |c'.pool.w.table| == P.N_SLOTS
    decreases |es|
  {
    if es == [] then c else Exec(Step(c, hash, capacity, es[0]), hash, capacity, es[1..])
  }

  /** All store operations of a run, in order. */
  function RunOps(c: Client, hash: P.Hash, capacity: nat, es: seq<Event>): seq<T.Op>
    requires |c.pool.w.table| == P.N_SLOTS
    decreases |es|
  {
    if es == [] then []
    else StoreOps(c, hash, es[0]) + RunOps(Step(c, hash, capacity, es[0]), hash, capacity, es[1..])
  }

  lemma {:induction false} RunKeepsInv(c: Client, hash: P.Hash, capacity: nat, es: seq<Event>)
    requires Inv(c, hash, capacity)
    ensures |c.pool.w.table| == P.N_SLOTS && Inv(Exec(c, hash, capacity, es), hash, capacity)
    ensures T.FreshRun(c.store, RunOps(c, hash, capacity, es), capacity)
    ensures T.ExecStore(c.store, RunOps(c, hash, capacity, es), capacity) == Exec(c, hash, capacity, es).store
    decreases |es|
  {
    assert Claims(c, hash);
    if es != [] {
      hide Inv, Claims, Step, StoreOps, T.StepStore, T.FreshKey, T.FreshRun, T.ExecStore;
      StepKeepsInv(c, hash, capacity, es[0]);
      StepPerforms(c, hash, capacity, es[0]);
      var c1 := Step(c, hash, capacity, es[0]);
      RunKeepsInv(c1, hash, capacity, es[1..]);
      PrependOps(c.store, c1.store, StoreOps(c, hash, es[0]), RunOps(c1, hash, capacity, es[1..]), capacity);
    } else {
      hide Inv, Claims;
    }
  }

  /** At most one fresh store operation in front of a fresh run. */
  lemma PrependOps(a: T.Store, a1: T.Store, ops: seq<T.Op>, rest: seq<T.Op>, capacity: nat)
    requires |ops| <= 1 && (forall op <- ops :: T.FreshKey(a, op)) && T.FreshRun(a1, rest, capacity)
    requires a1 == if ops == [] then a else T.StepStore(a, ops[0], capacity)
    ensures T.FreshRun(a, ops + rest, capacity)
    ensures T.ExecStore(a, ops + rest, capacity) == T.ExecStore(a1, rest, capacity)
  {
    hide T.StepStore, T.FreshKey;
    if ops == [] {
      assert ops + rest == rest;
    } else {
      assert ops[0] in ops;
      assert (ops + rest)[0] == ops[0] && (ops + rest)[1..] == rest;
    }
  }

  /** What the invariant says about a live connection's port and its pair of address and port. */
  lemma LivePorts(c: Client, hash: P.Hash, capacity: nat)
    requires Inv(c, hash, capacity)
    ensures |c.pool.w.table| == P.N_SLOTS
    ensures forall i <- c.store.live :: P.Taken(c.pool.w, ClaimOf(c.pool.w, hash, c.store.live[i]))
    ensures forall i, j :: i in c.store.live && j in c.store.live && i != j ==>
              (c.store.live[i].srcIp, c.store.live[i].srcPort) != (c.store.live[j].srcIp, c.store.live[j].srcPort)
  {
    hide P.Safe, P.HeldOk, T.StoreOk, P.Taken, P.RefOf, P.Settled;
    forall i <- c.store.live ensures P.Taken(c.pool.w, ClaimOf(c.pool.w, hash, c.store.live[i])) {
      assert Claimed(c.pool, hash, c.store.live[i]);
      P.HeldNotInRing(c.pool, hash, ClaimOf(c.pool.w, hash, c.store.live[i]));
    }
    hide Claimed;
    forall i, j | i in c.store.live && j in c.store.live && i != j
      ensures (c.store.live[i].srcIp, c.store.live[i].srcPort) != (c.store.live[j].srcIp, c.store.live[j].srcPort)
    {
      assert ClaimOf(c.pool.w, hash, c.store.live[i]) != ClaimOf(c.pool.w, hash, c.store.live[j]);
    }
  }

  /**
   * The system theorem, over every run from reset tables: each live
   * connection's source port is unavailable in the pool of its address, no two
   * live connections share address and port, and the store refines a finite
   * map from four-tuples because no open ever inserted one that was live.
   */
  lemma ClientRuns(hold: nat, now: nat, capacity: nat, hash: P.Hash, es: seq<Event>)
    ensures var c0 := Initial(hold, now, capacity);
            var c := Exec(c0, hash, capacity, es);
            && (forall i <- c.store.live :: P.Taken(c.pool.w, ClaimOf(c.pool.w, hash, c.store.live[i])))
            && (forall i, j :: i in c.store.live && j in c.store.live && i != j ==>
                  (c.store.live[i].srcIp, c.store.live[i].srcPort) != (c.store.live[j].srcIp, c.store.live[j].srcPort))
            && T.Agrees(T.ExecMap(map[], c0.store, RunOps(c0, hash, capacity, es), capacity), c.store)
  {
    var c0 := Initial(hold, now, capacity);
    assert T.Agrees(map[], c0.store);
    T.FreshOk(capacity);
    assert T.StoreOk(c0.store, capacity);
    hide *;
    InitialInv(hold, now, capacity, hash);
    RunKeepsInv(c0, hash, capacity, es);
    T.RunRefinesMap(map[], c0.store, RunOps(c0, hash, capacity, es), capacity);
    LivePorts(Exec(c0, hash, capacity, es), hash, capacity);
  }

  // ------------------------------------------------------------ conservation

  /** The claim is some live connection's. */
  ghost predicate Covered(c: Client, hash: P.Hash, claim: (P.Ref, nat))
    requires |c.pool.w.table| == P.N_SLOTS
  {
    exists i :: i in c.store.live && ClaimOf(c.pool.w, hash, c.store.live[i]) == claim
  }

  /** No port is lost: whatever is handed out is some live connection's. */
  ghost predicate Tight(c: Client, hash: P.Hash)
    requires |c.pool.w.table| == P.N_SLOTS
  {
    forall claim <- c.pool.held :: Covered(c, hash, claim)
  }

  /** A connection that stays live keeps covering its claim. */
  lemma CoverStays(c: Client, c': Client, hash: P.Hash, i: int)
    requires Claims(c, hash) && |c'.pool.w.table| == P.N_SLOTS && P.RoutesKept(c.pool.w, c'.pool.w, hash)
    requires i in c.store.live && i in c'.store.live && c'.store.live[i] == c.store.live[i]
    requires ClaimOf(c.pool.w, hash, c.store.live[i]) in c'.pool.held
    ensures Covered(c', hash, ClaimOf(c.pool.w, hash, c.store.live[i]))
  {
    hide P.RoutesKept, P.RefOf, P.Settled, ClaimOf;
    assert Claimed(c.pool, hash, c.store.live[i]);
    hide Claimed;
    ClaimStays(c.pool, c'.pool, hash, c.store.live[i]);
  }

  /** No connection went and nothing more is handed out. */
  lemma SameKeepsTight(c: Client, c': Client, hash: P.Hash)
    requires Claims(c, hash) && Tight(c, hash) && |c'.pool.w.table| == P.N_SLOTS && P.RoutesKept(c.pool.w, c'.pool.w, hash)
    requires c'.store.live == c.store.live && c'.pool.held == c.pool.held
    ensures Tight(c', hash)
  {
    assert |c.pool.w.table| == P.N_SLOTS;
    hide P.RoutesKept, ClaimOf, Claims;
    forall claim <- c'.pool.held ensures Covered(c', hash, claim) {
      assert Covered(c, hash, claim);
      var i :| i in c.store.live && ClaimOf(c.pool.w, hash, c.store.live[i]) == claim;
      CoverStays(c, c', hash, i);
    }
  }

  lemma JoinKeepsTight(c: Client, c': Client, hash: P.Hash, idx: int, key: T.Key)
    requires Claims(c, hash) && Tight(c, hash) && |c'.pool.w.table| == P.N_SLOTS && P.RoutesKept(c.pool.w, c'.pool.w, hash)
    requires idx !in c.store.live && c'.store.live == c.store.live[idx := key]
    requires c'.pool.held == c.pool.held + {ClaimOf(c'.pool.w, hash, key)}
    ensures Tight(c', hash)
  {
    assert |c.pool.w.table| == P.N_SLOTS;
    hide P.RoutesKept, ClaimOf, Claims;
    forall claim <- c'.pool.held ensures Covered(c', hash, claim) {
      if claim in c.pool.held {
        assert Covered(c, hash, claim);
        var i :| i in c.store.live && ClaimOf(c.pool.w, hash, c.store.live[i]) == claim;
        CoverStays(c, c', hash, i);
      } else {
        assert c'.store.live[idx] == key;
      }
    }
  }

  lemma LeaveKeepsTight(c: Client, c': Client, hash: P.Hash, i: int)
    requires Claims(c, hash) && Tight(c, hash) && |c'.pool.w.table| == P.N_SLOTS && P.RoutesKept(c.pool.w, c'.pool.w, hash)
    requires i in c.store.live && c'.store.live == c.store.live - {i}
    requires c'.pool.held == c.pool.held - {ClaimOf(c.pool.w, hash, c.store.live[i])}
    ensures Tight(c', hash)
  {
    assert |c.pool.w.table| == P.N_SLOTS;
    hide P.RoutesKept, ClaimOf, Claims;
    forall claim <- c'.pool.held ensures Covered(c', hash, claim) {
      assert Covered(c, hash, claim);
      var j :| j in c.store.live && ClaimOf(c.pool.w, hash, c.store.live[j]) == claim;
      CoverStays(c, c', hash, j);
    }
  }

  lemma OpenKeepsTight(c: Client, hash: P.Hash, capacity: nat, e: Event)
    requires Inv(c, hash, capacity) && Tight(c, hash) && e.OpenTo?
    ensures Tight(Open(c, hash, e), hash)
  {
    assert P.Safe(c.pool, hash) && Claims(c, hash);
    NextIndexIsFree(c.store, capacity);
    OpenCases(c, hash, e);
    hide *;
    AllocateClaims(c.pool, hash, e.srcIp);
    var h := P.Step(c.pool, hash, P.Allocate(e.srcIp));
    var port := P.Alloc(c.pool.w, hash, e.srcIp).1;
    if port.None? {
      SameKeepsTight(c, Open(c, hash, e), hash);
    } else if c.store.free == [] {
      FreeingNow(e.srcIp, port.value);
      ReleaseStep(h, hash, e.srcIp, port.value, None);
      P.RoutesTransitive(c.pool.w, h.w, Open(c, hash, e).pool.w, hash);
      SameKeepsTight(c, Open(c, hash, e), hash);
    } else {
      var key := OpenKey(e, port.value);
      ClaimParts(h.w, hash, key);
      JoinKeepsTight(c, Open(c, hash, e), hash, c.store.free[|c.store.free| - 1], key);
    }
  }

  lemma ClaimParts(w: P.Worker, hash: P.Hash, key: T.Key)
    requires |w.table| == P.N_SLOTS
    ensures ClaimOf(w, hash, key) == (P.RefOf(w, hash, key.srcIp), PortOf(key))
  {
  }

  lemma CloseKeepsTight(c: Client, hash: P.Hash, i: int, at: Option<nat>)
    requires (at.Some? ==> at.value >= c.pool.now) && P.Safe(c.pool, hash) && Claims(c, hash) && Tight(c, hash)
    ensures Tight(Close(c, hash, i, at), hash)
  {
    if i in c.store.live {
      var key := c.store.live[i];
      assert Claimed(c.pool, hash, key);
      hide P.Safe, P.Step, P.RoutesKept, P.RefOf, P.Settled, Claims, Tight;
      ReleaseStep(c.pool, hash, key.srcIp, PortOf(key), at);
      LeaveKeepsTight(c, Close(c, hash, i, at), hash, i);
    }
  }

  lemma TickKeepsTight(c: Client, hash: P.Hash, now: nat)
    requires P.Safe(c.pool, hash) && Claims(c, hash) && Tight(c, hash)
    ensures Tight(c.(pool := P.Step(c.pool, hash, P.TickAt(now))), hash)
  {
    assert P.Step(c.pool, hash, P.TickAt(now)).held == c.pool.held;
    SafeTable(c.pool, hash);
    hide *;
    P.StepKeepsRoutes(c.pool, hash, P.TickAt(now));
    SameKeepsTight(c, c.(pool := P.Step(c.pool, hash, P.TickAt(now))), hash);
  }

  ghost predicate AnyLive(c: Client) { exists i :: i in c.store.live }

  /** Resetting the connections alone, as serving, stopping a server and a first flow that is not TCP do. */
  lemma ResetTightIff(c: Client, hash: P.Hash, capacity: nat)
    requires Claims(c, hash) && Tight(c, hash)
    ensures Tight(c.(store := T.Fresh(capacity)), hash) <==> !AnyLive(c)
  {
    hide P.RefOf, P.Settled;
    forall claim ensures claim in c.pool.held ==> AnyLive(c) {
      if claim in c.pool.held { assert Covered(c, hash, claim); }
    }
    if AnyLive(c) {
      var i :| i in c.store.live;
      assert Claimed(c.pool, hash, c.store.live[i]);
      assert !Covered(c.(store := T.Fresh(capacity)), hash, ClaimOf(c.pool.w, hash, c.store.live[i]));
    }
  }

  /**
   * The port pool reset alone: the first TCP flow resets all pools before its
   * workers hear of it and reset their connections (cli.c:760-764, worker_loop.c:202-203).
   */
  function PoolReset(c: Client): Client {
    c.(pool := P.History(P.Fresh(c.pool.w.hold), {}, c.pool.now))
  }

  /** It is harmless exactly while no connection is live. */
  lemma PoolResetKeepsInvIff(c: Client, hash: P.Hash, capacity: nat)
    requires Inv(c, hash, capacity)
    ensures Inv(PoolReset(c), hash, capacity) <==> !AnyLive(c)
  {
    P.FreshIsSafe(c.pool.w.hold, c.pool.now, hash);
    hide P.Safe, T.StoreOk, P.Settled, P.RefOf, P.Fresh;
    if AnyLive(c) {
      var i :| i in c.store.live;
      assert !Claimed(PoolReset(c).pool, hash, c.store.live[i]);
    }
  }

  /** A connection that closes into hold-off between the two resets leaves a ring entry whose port is available. */
  lemma CloseAfterPoolReset(c: Client, hash: P.Hash, capacity: nat, i: int, at: nat)
    requires Inv(c, hash, capacity) && i in c.store.live && at >= c.pool.now
    ensures var z := Close(PoolReset(c), hash, i, Some(at)).pool;
            && z.w.ring == [P.Entry(c.store.live[i].srcIp, PortOf(c.store.live[i]), at + c.pool.w.hold)]
            && !P.Taken(z.w, P.Claim(z.w, hash, z.w.ring[0])) && !P.Safe(z, hash)
  {
    var key := c.store.live[i];
    assert Claimed(c.pool, hash, key) && P.HeldOk(c.pool);
    var claim := ClaimOf(c.pool.w, hash, key);
    assert P.Taken(c.pool.w, claim);
    hide P.Get, P.TableOk, P.PoolsOk, P.TimesOk, P.Settled, Claims, T.StoreOk;
    var z := Close(PoolReset(c), hash, i, Some(at)).pool;
    assert z.w == P.Fresh(c.pool.w.hold).(ring := [P.Entry(key.srcIp, PortOf(key), at + c.pool.w.hold)]);
    assert !P.EntryOk(z, hash, z.w.ring[0]);
  }

  /**
   * Ports are conserved by every event but one: resetting the connections
   * without the pool loses exactly the ports of the connections live at that moment.
   */
  lemma StepKeepsTightIff(c: Client, hash: P.Hash, capacity: nat, e: Event)
    requires Inv(c, hash, capacity) && |c.pool.w.table| == P.N_SLOTS && Tight(c, hash)
    ensures Tight(Step(c, hash, capacity, e), hash) <==> !(e.ResetConnections? && AnyLive(c))
  {
    assert P.Safe(c.pool, hash) && Claims(c, hash);
    hide Inv, P.Safe, Claims, Open, Close, P.Step, Covered, AnyLive;
    match e
    case OpenTo(_, _, _) => OpenKeepsTight(c, hash, capacity, e);
    case CloseNow(i) => CloseKeepsTight(c, hash, i, None);
    case CloseLater(i, at) => if at >= c.pool.now { CloseKeepsTight(c, hash, i, Some(at)); }
    case TickAt(now) => TickKeepsTight(c, hash, now);
    case ResetConnections => ResetTightIff(c, hash, capacity);
    case ResetWorker =>
  }

  /** No event of the run resets live connections without the pool. */
  ghost predicate NoLossyReset(c: Client, hash: P.Hash, capacity: nat, es: seq<Event>)
    requires |c.pool.w.table| == P.N_SLOTS
    decreases |es|
  {
    es == [] || (!(es[0].ResetConnections? && AnyLive(c)) && NoLossyReset(Step(c, hash, capacity, es[0]), hash, capacity, es[1..]))
  }

  /**
   * Over every run without such a reset each port handed out is a live
   * connection's, and a run with one has lost a port right after it.
   */
  lemma {:induction false} RunKeepsTight(c: Client, hash: P.Hash, capacity: nat, es: seq<Event>)
    requires Inv(c, hash, capacity) && |c.pool.w.table| == P.N_SLOTS && Tight(c, hash)
    ensures NoLossyReset(c, hash, capacity, es) <==> forall k :: 0 <= k <= |es| ==> TightAfter(c, hash, capacity, es, k)
    decreases |es|
  {
    hide Inv, Tight, Step, AnyLive;
    if es == [] {
      forall k | 0 <= k <= |es| ensures TightAfter(c, hash, capacity, es, k) {}
    } else {
      StepKeepsInv(c, hash, capacity, es[0]);
      StepKeepsTightIff(c, hash, capacity, es[0]);
      var c1 := Step(c, hash, capacity, es[0]);
      if Tight(c1, hash) { RunKeepsTight(c1, hash, capacity, es[1..]); }
      TightShifts(c, hash, capacity, es);
    }
  }

  /** No port is lost after the first k events. */
  ghost predicate TightAfter(c: Client, hash: P.Hash, capacity: nat, es: seq<Event>, k: nat)
    requires |c.pool.w.table| == P.N_SLOTS && k <= |es|
  {
    Tight(Exec(c, hash, capacity, es[..k]), hash)
  }

  lemma TightShifts(c: Client, hash: P.Hash, capacity: nat, es: seq<Event>)
    requires |c.pool.w.table| == P.N_SLOTS && es != [] && Tight(c, hash)
    ensures var c1 := Step(c, hash, capacity, es[0]);
            && (TightAfter(c, hash, capacity, es, 1) <==> Tight(c1, hash))
            && ((forall k :: 0 <= k <= |es| ==> TightAfter(c, hash, capacity, es, k))
                <==> forall k :: 0 <= k <= |es[1..]| ==> TightAfter(c1, hash, capacity, es[1..], k))
  {
    hide Tight, Step;
    var c1 := Step(c, hash, capacity, es[0]);
    forall k: nat | 1 <= k <= |es| ensures TightAfter(c, hash, capacity, es, k) <==> TightAfter(c1, hash, capacity, es[1..], k - 1) {
      assert es[..k][1..] == es[1..][..k - 1];
    }
    assert TightAfter(c, hash, capacity, es, 0);
    assert es[1..][..0] == [];
    if forall k :: 0 <= k <= |es| ==> TightAfter(c, hash, capacity, es, k) {
      forall k | 0 <= k <= |es[1..]| ensures TightAfter(c1, hash, capacity, es[1..], k) {
        assert TightAfter(c, hash, capacity, es, k + 1);
      }
    }
    if forall k :: 0 <= k <= |es[1..]| ==> TightAfter(c1, hash, capacity, es[1..], k) {
      forall k | 0 <= k <= |es| ensures TightAfter(c, hash, capacity, es, k) {
        if k > 0 { assert TightAfter(c1, hash, capacity, es[1..], k - 1); }
      }
    }
  }
}
