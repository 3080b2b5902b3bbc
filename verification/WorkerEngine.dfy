/**
 * One worker as a whole: the client system (TCB store and port pool) and the
 * timer wheel over the same records. Opening a connection makes its record
 * known to the wheel, and whoever frees a TCB, timer callbacks included, takes
 * it off the wheel, out of the store and gives its port back (tcp_tcb.c,
 * tcp_timer.c, tcp_fsm.c).
 */
module WorkerEngine {
  import opened Basics
  import C = ClientSystem
  import W = WheelSpec
  import T = TcbStore
  import P = PortPoolSpec

  datatype Engine = Engine(client: C.Client, wheel: W.Wheel)

  datatype Event =
    | Connect(open: C.Event, acts: seq<W.Action>)       // tcp_fsm_connect, and the timers it sets
    | Disconnect(close: C.Event)                        // a close outside the timer tick
    | Work(idx: nat, acts: seq<W.Action>)               // a handler that frees nothing
    | TimerTick(tick: W.Event, how: nat -> Option<nat>) // how its callbacks free a port: at once, or when into hold-off
    | PortTick(now: nat)
    | Reset(kind: C.Event)                              // tcp_fsm_reset_all, with or without the ports

  // -------------------------------------------------------------------- shape

  predicate IsClose(e: C.Event) { e.CloseNow? || e.CloseLater? }

  predicate NoRelease(acts: seq<W.Action>) { forall k :: 0 <= k < |acts| ==> !acts[k].DoRelease? }

  function Indices(closes: seq<C.Event>): set<int> {
    set k | 0 <= k < |closes| && IsClose(closes[k]) :: closes[k].idx
  }

  /** Readings of the clock by successive frees do not go back. */
  predicate InOrder(closes: seq<C.Event>, clock: nat)
    decreases |closes|
  {
    closes == [] ||
    (IsClose(closes[0]) && (closes[0].CloseLater? ==> closes[0].at >= clock)
     && InOrder(closes[1..], if closes[0].CloseLater? then closes[0].at else clock))
  }

  // ----------------------------------------------------- what a tick releases

  /** The records the callbacks of a walk release, in the order of their visits. */
  function WalkReleases(w: W.Wheel, chain: seq<nat>, react: W.Reactions): seq<nat>
    requires W.Shape(w) && forall p :: 0 <= p < |chain| ==> chain[p] < |w.records|
    decreases |chain|
  {
    if chain == [] then []
    else
      var i := chain[0];
      (if w.records[i].inUse && !NoRelease(react(i).acts) then [i] else [])
      + WalkReleases(W.Visit(w, i, react(i)), chain[1..], react)
  }

  ghost function AdvanceReleases(w: W.Wheel, n: nat, reacts: nat -> W.Reactions, s: nat): seq<nat>
    requires W.WheelOk(w) && n <= W.SLOTS
    decreases n
  {
    if n == 0 then []
    else
      W.ShapeOf(w);
      W.TurnOk(w);
      WalkReleases(W.Turn(w), W.Due(w), reacts(s)) + AdvanceReleases(W.Advance(w, reacts(s)), n - 1, reacts, s + 1)
  }

  /** Of a whole tick; the overflow chain is re-hashed without callbacks. */
  ghost function TickReleases(w: W.Wheel, tick: W.Event): seq<nat>
    requires W.WheelOk(w) && tick.TickAt?
  {
    W.ShapeOf(w);
    var n := W.SlotsToAdvance(w, tick.now);
    W.TickedOk(w, n);
    if n == 0 then [] else AdvanceReleases(W.Ticked(w, n), n, tick.reacts, 0)
  }

  /** The closes that go with them. */
  function Closes(released: seq<nat>, how: nat -> Option<nat>): (closes: seq<C.Event>)
    ensures |closes| == |released|
  {
    seq(|released|, k requires 0 <= k < |released| =>
      if how(k).Some? then C.CloseLater(released[k], how(k).value) else C.CloseNow(released[k]))
  }

  lemma ClosesIndices(released: seq<nat>, how: nat -> Option<nat>)
    ensures forall i: int :: i in Indices(Closes(released, how)) <==> i >= 0 && i in released
  {
    var closes := Closes(released, how);
    forall i: int ensures i in Indices(closes) <==> i >= 0 && i in released {
      if i >= 0 && i in released {
        var k :| 0 <= k < |released| && released[k] == i;
        assert IsClose(closes[k]) && closes[k].idx == i;
      }
    }
  }

  ghost predicate Enabled(g: Engine, hash: P.Hash, e: Event) {
    && W.WheelOk(g.wheel) && |g.client.pool.w.table| == P.N_SLOTS
    && match e
       case Connect(open, acts) => open.OpenTo? && NoRelease(acts)
       case Disconnect(close) =>
         IsClose(close) && close.idx in g.client.store.live && (close.CloseLater? ==> close.at >= g.client.pool.now)
       case Work(_, acts) => NoRelease(acts)
       case TimerTick(tick, how) => tick.TickAt? && InOrder(Closes(TickReleases(g.wheel, tick), how), g.client.pool.now)
       case PortTick(_) => true
       case Reset(kind) => kind.ResetConnections? || kind.ResetWorker?
  }

  /** The index a successful open takes. */
  function NewIndex(c: C.Client, hash: P.Hash, e: C.Event): Option<int>
    requires e.OpenTo? && |c.pool.w.table| == P.N_SLOTS
  {
    if P.Alloc(c.pool.w, hash, e.srcIp).1.None? || c.store.free == [] then None else Some(c.store.free[|c.store.free| - 1])
  }

  ghost function Step(g: Engine, hash: P.Hash, capacity: nat, e: Event): Engine
    requires Enabled(g, hash, e)
  {
    match e
    case Connect(open, acts) =>
      var i := NewIndex(g.client, hash, open);
      var client := C.Step(g.client, hash, capacity, open);
      if i.None? || i.value < 0 then Engine(client, g.wheel)
      else
        var w1 := W.StepWheel(g.wheel, W.Open(i.value)).0;
        Engine(client, W.StepWheel(w1, W.Touch(i.value, acts)).0)
    case Disconnect(close) =>
      Engine(C.Step(g.client, hash, capacity, close),
             if close.idx < 0 then g.wheel else W.StepWheel(g.wheel, W.Touch(close.idx, [W.DoRelease])).0)
    case Work(i, acts) => g.(wheel := W.StepWheel(g.wheel, W.Touch(i, acts)).0)
    case TimerTick(tick, how) =>
      Engine(C.Exec(g.client, hash, capacity, Closes(TickReleases(g.wheel, tick), how)), W.StepWheel(g.wheel, tick).0)
    case PortTick(now) => g.(client := C.Step(g.client, hash, capacity, C.TickAt(now)))
    case Reset(kind) => Engine(C.Step(g.client, hash, capacity, kind), W.StepWheel(g.wheel, W.ResetAll).0)
  }

  // --------------------------------------------------------------- invariant

  /** Store and wheel agree on which records are in use. */
  predicate Agree(store: T.Store, w: W.Wheel) {
    forall i :: 0 <= i < |w.records| ==> (i in store.live <==> w.records[i].inUse)
  }

  ghost predicate Inv(g: Engine, hash: P.Hash, capacity: nat) {
    C.Inv(g.client, hash, capacity) && W.WheelOk(g.wheel) && |g.wheel.records| == capacity && Agree(g.client.store, g.wheel)
  }

  // ------------------------------------------------- what the wheel does to use

  lemma {:induction false} FireUse(w: W.Wheel, i: nat, acts: seq<W.Action>)
    requires W.WheelOk(w) && i < |w.records|
    ensures W.Shape(w)
    ensures forall j :: 0 <= j < |w.records| ==>
              (W.Fire(w, i, acts).records[j].inUse <==> w.records[j].inUse && (j == i ==> NoRelease(acts)))
    decreases |acts|
  {
    W.ShapeOf(w);
    if acts != [] && w.records[i].inUse {
      var w1 := OneAct(w, i, acts[0]);
      hide W.WheelOk;
      FireUse(w1, i, acts[1..]);
      assert NoRelease(acts) <==> NoRelease(acts[1..]) && !acts[0].DoRelease?;
    }
  }

  /** One action, and what it does to the records. */
  lemma OneAct(w: W.Wheel, i: nat, a: W.Action) returns (w1: W.Wheel)
    requires W.WheelOk(w) && i < |w.records| && w.records[i].inUse
    ensures W.Shape(w) && W.WheelOk(w1) && |w1.records| == |w.records|
    ensures forall acts: seq<W.Action> :: acts != [] && acts[0] == a ==> W.Fire(w, i, acts) == W.Fire(w1, i, acts[1..])
    ensures forall j :: 0 <= j < |w.records| && j != i ==> w1.records[j] == w.records[j]
    ensures w1.records[i].inUse <==> !a.DoRelease?
  {
    W.ShapeOf(w);
    match a {
      case SetTimers(t) =>
        w1 := w.(records := w.records[i := W.Record(true, t)]);
        W.FireOk(w, i, [a]);
        assert [a][1..] == [] && W.Fire(w, i, [a]) == w1;
      case DoResched(t0, t1) =>
        W.ReschedOk(w, i, t0, t1);
        w1 := W.Resched(w, i, t0, t1);
      case DoRelease =>
        W.ReleaseOk(w, i);
        w1 := W.Release(w, i);
    }
  }

  lemma VisitUse(w: W.Wheel, i: nat, r: W.Reaction)
    requires W.WheelOk(w) && i < |w.records|
    ensures W.Shape(w) && W.WheelOk(W.Visit(w, i, r))
    ensures forall j :: 0 <= j < |w.records| ==>
              (W.Visit(w, i, r).records[j].inUse <==> w.records[j].inUse && (j == i ==> NoRelease(r.acts)))
  {
    W.ShapeOf(w);
    W.VisitOk(w, i, r);
    FireUse(w, i, r.acts);
    W.FireOk(w, i, r.acts);
    var w1 := W.Fire(w, i, r.acts);
    hide W.Fire, NoRelease;
    if w1.records[i].inUse { W.ReschedOk(w1, i, r.t0, r.t1); }
  }

  /** A walk takes exactly the released records out of use. */
  lemma {:induction false} WalkUse(w: W.Wheel, chain: seq<nat>, react: W.Reactions)
    requires W.WheelOk(w) && forall p :: 0 <= p < |chain| ==> chain[p] < |w.records|
    ensures W.Shape(w)
    ensures forall j :: 0 <= j < |w.records| ==>
              (W.VisitAll(w, chain, react).records[j].inUse <==> w.records[j].inUse && j !in WalkReleases(w, chain, react))
    decreases |chain|
  {
    W.ShapeOf(w);
    if chain != [] {
      var i := chain[0];
      VisitUse(w, i, react(i));
      hide W.WheelOk, W.Visit, NoRelease;
      WalkUse(W.Visit(w, i, react(i)), chain[1..], react);
    }
  }

  lemma AdvanceUse(w: W.Wheel, react: W.Reactions)
    requires W.WheelOk(w)
    ensures W.Shape(w) && forall p :: 0 <= p < |W.Due(w)| ==> W.Due(w)[p] < |W.Turn(w).records|
    ensures forall j :: 0 <= j < |w.records| ==>
              (W.Advance(w, react).records[j].inUse <==> w.records[j].inUse && j !in WalkReleases(W.Turn(w), W.Due(w), react))
  {
    W.ShapeOf(w);
    W.TurnOk(w);
    hide W.WheelOk, W.VisitAll, WalkReleases;
    WalkUse(W.Turn(w), W.Due(w), react);
  }

  lemma {:induction false} AdvanceManyUse(w: W.Wheel, n: nat, reacts: nat -> W.Reactions, s: nat)
    requires W.WheelOk(w) && n <= W.SLOTS
    ensures forall j :: 0 <= j < |w.records| ==>
              (W.AdvanceMany(w, n, reacts, s).0.records[j].inUse <==> w.records[j].inUse && j !in AdvanceReleases(w, n, reacts, s))
    decreases n
  {
    if n > 0 {
      AdvanceUse(w, reacts(s));
      hide W.WheelOk, W.Advance, WalkReleases, W.Due, W.Turn;
      AdvanceManyUse(W.Advance(w, reacts(s)), n - 1, reacts, s + 1);
    }
  }

  lemma {:induction false} RehashReleases(w: W.Wheel, chain: seq<nat>, times: nat -> (nat, nat))
    requires W.WheelOk(w) && forall p :: 0 <= p < |chain| ==> chain[p] < |w.records|
    ensures W.Shape(w) && WalkReleases(w, chain, W.Rehash(times)) == []
    decreases |chain|
  {
    W.ShapeOf(w);
    if chain != [] {
      VisitUse(w, chain[0], W.Rehash(times)(chain[0]));
      hide W.WheelOk, W.Visit;
      RehashReleases(W.Visit(w, chain[0], W.Rehash(times)(chain[0])), chain[1..], times);
    }
  }

  lemma DrainUse(w: W.Wheel, times: nat -> (nat, nat))
    requires W.WheelOk(w)
    ensures forall j :: 0 <= j < |w.records| ==> (W.DrainOverflow(w, times).records[j].inUse <==> w.records[j].inUse)
  {
    W.ShapeOf(w);
    W.UnhookOk(w);
    hide W.WheelOk, W.VisitAll, W.Rehash;
    WalkUse(W.Unhook(w), w.chains[W.OVERFLOW], W.Rehash(times));
    RehashReleases(W.Unhook(w), w.chains[W.OVERFLOW], times);
  }

  /** A tick takes exactly the records its callbacks release out of use. */
  lemma TickUse(w: W.Wheel, e: W.Event)
    requires W.WheelOk(w) && e.TickAt?
    ensures forall j :: 0 <= j < |w.records| ==>
              (W.StepWheel(w, e).0.records[j].inUse <==> w.records[j].inUse && j !in TickReleases(w, e))
  {
    W.ShapeOf(w);
    var n := W.SlotsToAdvance(w, e.now);
    if n == 0 {
      assert W.StepWheel(w, e).0 == w;
    } else {
      hide W.WheelOk, W.AdvanceMany, W.DrainOverflow, W.SlotsToAdvance, W.StepWheel, AdvanceReleases;
      W.TickUnfold(w, e);
      W.TickedOk(w, n);
      AdvanceManyUse(W.Ticked(w, n), n, e.reacts, 0);
      DrainUse(W.AdvanceMany(W.Ticked(w, n), n, e.reacts, 0).0, e.times);
    }
  }

  // ------------------------------------------------------------- preservation

  lemma CloseEffect(c: C.Client, hash: P.Hash, capacity: nat, e: C.Event)
    requires |c.pool.w.table| == P.N_SLOTS && IsClose(e) && (e.CloseLater? ==> e.at >= c.pool.now)
    ensures var c' := C.Step(c, hash, capacity, e);
            && c'.store.live == c.store.live - {e.idx}
            && c'.pool.now <= if e.CloseLater? then e.at else c.pool.now
  {
    hide P.FreeNow, P.FreeLater, P.Get;
    assert e.idx !in c.store.live ==> c.store.live - {e.idx} == c.store.live;
  }

  /** The closes of a tick take exactly their connections out of the store. */
  lemma {:induction false} ClosesEffect(c: C.Client, hash: P.Hash, capacity: nat, closes: seq<C.Event>, clock: nat)
    requires |c.pool.w.table| == P.N_SLOTS && InOrder(closes, clock) && c.pool.now <= clock
    ensures C.Exec(c, hash, capacity, closes).store.live == c.store.live - Indices(closes)
    decreases |closes|
  {
    if closes == [] {
      assert Indices(closes) == {} && c.store.live - {} == c.store.live;
    } else {
      var e := closes[0];
      CloseEffect(c, hash, capacity, e);
      FirstIndex(closes);
      hide C.Step, Indices;
      var c1 := C.Step(c, hash, capacity, e);
      ClosesEffect(c1, hash, capacity, closes[1..], if e.CloseLater? then e.at else clock);
      assert c.store.live - {e.idx} - Indices(closes[1..]) == c.store.live - Indices(closes);
    }
  }

  lemma FirstIndex(closes: seq<C.Event>)
    requires closes != [] && IsClose(closes[0])
    ensures Indices(closes) == {closes[0].idx} + Indices(closes[1..])
  {
    forall i | i in Indices(closes) ensures i in {closes[0].idx} + Indices(closes[1..]) {
      var k :| 0 <= k < |closes| && IsClose(closes[k]) && closes[k].idx == i;
      if k > 0 { assert closes[1..][k - 1] == closes[k]; }
    }
    forall i | i in Indices(closes[1..]) ensures i in Indices(closes) {
      var k :| 0 <= k < |closes[1..]| && IsClose(closes[1..][k]) && closes[1..][k].idx == i;
      assert closes[k + 1] == closes[1..][k];
    }
    assert closes[0].idx in Indices(closes);
  }

  lemma TimerKeepsInv(g: Engine, hash: P.Hash, capacity: nat, e: Event)
    requires Inv(g, hash, capacity) && Enabled(g, hash, e) && e.TimerTick?
    ensures Inv(Step(g, hash, capacity, e), hash, capacity)
  {
    var released := TickReleases(g.wheel, e.tick);
    var closes := Closes(released, e.how);
    hide C.Inv, W.WheelOk, W.StepWheel, C.Exec, InOrder, Indices, Closes, TickReleases;
    C.RunKeepsInv(g.client, hash, capacity, closes);
    TickUse(g.wheel, e.tick);
    assert |g.client.pool.w.table| == P.N_SLOTS;
    ClosesEffect(g.client, hash, capacity, closes, g.client.pool.now);
    ClosesIndices(released, e.how);
    var w' := W.StepWheel(g.wheel, e.tick).0;
    forall i: int | 0 <= i < |w'.records|
      ensures i in g.client.store.live && i !in Indices(closes) <==> w'.records[i].inUse
    {
      assert i in g.client.store.live <==> g.wheel.records[i].inUse;
    }
  }

  lemma WorkKeepsInv(g: Engine, hash: P.Hash, capacity: nat, e: Event)
    requires Inv(g, hash, capacity) && Enabled(g, hash, e) && e.Work?
    ensures Inv(Step(g, hash, capacity, e), hash, capacity)
  {
    if e.idx < |g.wheel.records| {
      FireUse(g.wheel, e.idx, e.acts);
      W.FireOk(g.wheel, e.idx, e.acts);
    }
    hide C.Inv, W.WheelOk, W.Fire, NoRelease;
  }

  lemma ConnectKeepsInv(g: Engine, hash: P.Hash, capacity: nat, e: Event)
    requires Inv(g, hash, capacity) && Enabled(g, hash, e) && e.Connect?
    ensures Inv(Step(g, hash, capacity, e), hash, capacity)
  {
    assert T.StoreOk(g.client.store, capacity);
    C.StepKeepsInv(g.client, hash, capacity, e.open);
    StoreOpens(g.client, hash, capacity, e.open);
    hide C.Inv, C.Step, T.StoreOk, NewIndex, W.WheelOk, W.StepWheel, NoRelease;
    var i := NewIndex(g.client, hash, e.open);
    if i.Some? { WheelOpens(g.wheel, i.value, e.acts); }
  }

  /** A successful open takes the top of the free stack. */
  lemma StoreOpens(c: C.Client, hash: P.Hash, capacity: nat, open: C.Event)
    requires open.OpenTo? && |c.pool.w.table| == P.N_SLOTS && T.StoreOk(c.store, capacity)
    ensures var i := NewIndex(c, hash, open);
            var c' := C.Step(c, hash, capacity, open);
            && (i.None? ==> c'.store.live == c.store.live)
            && (i.Some? ==> 0 <= i.value < capacity && i.value !in c.store.live
                            && c'.store.live.Keys == c.store.live.Keys + {i.value})
  {
    C.OpenCases(c, hash, open);
    hide P.Alloc, P.Step, C.Open;
  }

  lemma WheelOpens(w: W.Wheel, i: nat, acts: seq<W.Action>)
    requires W.WheelOk(w) && i < |w.records| && !w.records[i].inUse && NoRelease(acts)
    ensures var w1 := W.StepWheel(w, W.Open(i)).0;
            var w' := W.StepWheel(w1, W.Touch(i, acts)).0;
            && W.WheelOk(w') && |w'.records| == |w.records|
            && forall j :: 0 <= j < |w.records| ==> (w'.records[j].inUse <==> j == i || w.records[j].inUse)
  {
    W.OpenOk(w, i);
    var w1 := W.Opened(w, i);
    W.FireOk(w1, i, acts);
    FireUse(w1, i, acts);
    hide W.WheelOk, W.Fire, NoRelease;
  }

  lemma DisconnectKeepsInv(g: Engine, hash: P.Hash, capacity: nat, e: Event)
    requires Inv(g, hash, capacity) && Enabled(g, hash, e) && e.Disconnect?
    ensures Inv(Step(g, hash, capacity, e), hash, capacity)
  {
    C.StepKeepsInv(g.client, hash, capacity, e.close);
    CloseEffect(g.client, hash, capacity, e.close);
    assert T.StoreOk(g.client.store, capacity);
    var i := e.close.idx;
    assert 0 <= i < capacity;
    hide C.Inv, T.StoreOk, C.Step;
    WheelReleases(g.wheel, i);
  }

  lemma WheelReleases(w: W.Wheel, i: nat)
    requires W.WheelOk(w) && i < |w.records| && w.records[i].inUse
    ensures var w' := W.StepWheel(w, W.Touch(i, [W.DoRelease])).0;
            && W.WheelOk(w') && |w'.records| == |w.records| && (forall c :: !W.On(w', c, i))
            && forall j :: 0 <= j < |w.records| ==> (w'.records[j].inUse <==> j != i && w.records[j].inUse)
  {
    W.ShapeOf(w);
    W.ReleaseOk(w, i);
    assert [W.DoRelease][1..] == [];
    assert W.Fire(w, i, [W.DoRelease]) == W.Release(w, i);
    hide W.WheelOk, W.Fire;
  }

  lemma ResetKeepsInv(g: Engine, hash: P.Hash, capacity: nat, e: Event)
    requires Inv(g, hash, capacity) && Enabled(g, hash, e) && e.Reset?
    ensures Inv(Step(g, hash, capacity, e), hash, capacity)
  {
    C.StepKeepsInv(g.client, hash, capacity, e.kind);
    ResetEmpties(g.client, hash, capacity, e.kind);
    hide C.Inv, W.WheelOk, C.Step;
    W.ClearedOk(g.wheel);
    assert W.StepWheel(g.wheel, W.ResetAll).0 == W.Cleared(g.wheel);
  }

  lemma ResetEmpties(c: C.Client, hash: P.Hash, capacity: nat, kind: C.Event)
    requires |c.pool.w.table| == P.N_SLOTS && (kind.ResetConnections? || kind.ResetWorker?)
    ensures C.Step(c, hash, capacity, kind).store.live == map[]
  {
  }

  /** Every event of the worker keeps store, pool and wheel together. */
  lemma StepKeepsInv(g: Engine, hash: P.Hash, capacity: nat, e: Event)
    requires Inv(g, hash, capacity) && Enabled(g, hash, e)
    ensures Inv(Step(g, hash, capacity, e), hash, capacity)
  {
    match e
    case Connect(_, _) => ConnectKeepsInv(g, hash, capacity, e);
    case Disconnect(_) => DisconnectKeepsInv(g, hash, capacity, e);
    case Work(_, _) => WorkKeepsInv(g, hash, capacity, e);
    case TimerTick(_, _) => TimerKeepsInv(g, hash, capacity, e);
    case PortTick(now) =>
      C.StepKeepsInv(g.client, hash, capacity, C.TickAt(now));
      hide C.Inv, W.WheelOk, P.Step;
    case Reset(_) => ResetKeepsInv(g, hash, capacity, e);
  }

  // --------------------------------------------------------------- whole runs

  ghost function Exec(g: Engine, hash: P.Hash, capacity: nat, es: seq<Event>): (z: Engine)
    requires Inv(g, hash, capacity)
    ensures Inv(z, hash, capacity)
    decreases |es|
  {
    if es == [] then g
    else if Enabled(g, hash, es[0]) then
      StepKeepsInv(g, hash, capacity, es[0]); Exec(Step(g, hash, capacity, es[0]), hash, capacity, es[1..])
    else Exec(g, hash, capacity, es[1..])
  }

  lemma StartInv(hold: nat, now: nat, capacity: nat, hash: P.Hash, w: W.Wheel)
    requires W.Initial(w) && |w.records| == capacity
    ensures Inv(Engine(C.Initial(hold, now, capacity), w), hash, capacity)
  {
    C.InitialInv(hold, now, capacity, hash);
    assert forall c: int, i: nat :: !W.On(w, c, i);
    hide C.Inv;
  }

  /**
   * The worker theorem, over every run from reset tables: a record on any
   * wheel chain is on one only and belongs to a live connection, whose source
   * port is unavailable in the pool of its address; and a freed TCB is on no
   * chain and in no slot of the store.
   */
  lemma WorkerRuns(hold: nat, now: nat, capacity: nat, hash: P.Hash, w: W.Wheel, es: seq<Event>)
    requires W.Initial(w) && |w.records| == capacity
    ensures Inv(Engine(C.Initial(hold, now, capacity), w), hash, capacity)
    ensures var z := Exec(Engine(C.Initial(hold, now, capacity), w), hash, capacity, es);
            && |z.client.pool.w.table| == P.N_SLOTS
            && (forall c: int, i: nat :: W.On(z.wheel, c, i) ==>
                  i in z.client.store.live && P.Taken(z.client.pool.w, C.ClaimOf(z.client.pool.w, hash, z.client.store.live[i])))
            && (forall c: int, i: nat :: i !in z.client.store.live ==> !W.On(z.wheel, c, i))
            && (forall c: int, d: int, i: nat :: W.On(z.wheel, c, i) && W.On(z.wheel, d, i) ==> c == d)
  {
    StartInv(hold, now, capacity, hash, w);
    var z := Exec(Engine(C.Initial(hold, now, capacity), w), hash, capacity, es);
    hide Exec, C.Inv, W.Initial;
    C.LivePorts(z.client, hash, capacity);
  }
}
