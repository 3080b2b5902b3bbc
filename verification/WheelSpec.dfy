/**
 * Value-level specification of the timer wheel of tcp_timer.c: 4096 slot
 * chains and an overflow chain over the records of the TCB array. The links of
 * the chains are the subject of module TimerWheel; here a chain is a sequence.
 *
 * Every clock reading is an input, and so is what timer_fire does to the
 * record it is called on: an arbitrary list of timer updates and reschedulings
 * of that record, possibly ended by its release.
 */
module WheelSpec {
  import opened Basics

  const SLOTS: int := 4096
  const OVERFLOW: int := 4096        // index of the overflow chain
  const U32: int := 0x1_0000_0000
  const HTTP_TIMEOUT_US: int := 5_000_000
  const TLS_TIMEOUT_S: int := 5

  /** The fields of a TCB that decide its deadline; 0 is a disarmed timer. */
  datatype Timers = Timers(rto: nat, timewait: nat, think: nat, httpSent: nat, established: bool, app: nat)

  const DISARMED: Timers := Timers(0, 0, 0, 0, false, 0)

  datatype Record = Record(inUse: bool, timers: Timers)

  datatype Wheel = Wheel(current: nat, lastTick: nat, perSlot: nat, hz: nat,
                         chains: seq<seq<nat>>, records: seq<Record>)

  // --------------------------------------------------------------- deadlines

  function Sooner(a: Option<nat>, armed: bool, d: nat): Option<nat> {
    if armed && (a.None? || d < a.value) then Some(d) else a
  }

  function HttpDeadline(t: Timers, hz: nat): nat { t.httpSent + HTTP_TIMEOUT_US * (hz / 1_000_000) }

  /** tcb_earliest_deadline; None when no timer is active. */
  function Earliest(t: Timers, hz: nat, now: nat): Option<nat> {
    var a := Sooner(None, t.rto != 0, t.rto);
    var b := Sooner(a, t.timewait != 0, t.timewait);
    var c := Sooner(b, t.think != 0, t.think);
    var d := if t.httpSent != 0 && (c.None? || t.httpSent < c.value) then Sooner(c, true, HttpDeadline(t, hz)) else c;
    var e := Sooner(d, t.established && (t.app == 1 || t.app == 2) && t.timewait != 0, t.timewait + TLS_TIMEOUT_S * hz);
    Sooner(e, t.established && t.app == 12, now)
  }

  /** The deadlines a record is waiting for. */
  predicate Awaits(t: Timers, hz: nat, now: nat, d: nat) {
    || (t.rto != 0 && d == t.rto)
    || (t.timewait != 0 && d == t.timewait)
    || (t.think != 0 && d == t.think)
    || (t.httpSent != 0 && d == t.httpSent + 5 * (1_000_000 * (hz / 1_000_000)))    // 5 s of cycles, in whole cycles per us
    || (t.established && t.app == 12 && d == now)
  }

  /**
   * The earliest deadline is the minimum of the retransmission, TIME_WAIT, think,
   * HTTP and streaming deadlines; the TLS branch never contributes, because
   * the creation time it adds to is itself already a deadline.
   */
  lemma EarliestIsMinimum(t: Timers, hz: nat, now: nat)
    ensures var e := Earliest(t, hz, now);
            && (e.None? <==> forall d: nat :: !Awaits(t, hz, now, d))
            && (e.Some? ==> Awaits(t, hz, now, e.value) && forall d: nat :: Awaits(t, hz, now, d) ==> e.value <= d)
  {
    var e := Earliest(t, hz, now);
    assert HTTP_TIMEOUT_US * (hz / 1_000_000) >= 0 && TLS_TIMEOUT_S * hz >= 0;
    if e.Some? { assert Awaits(t, hz, now, e.value); }
  }

  // -------------------------------------------------------------- operations

  function Without(chain: seq<nat>, i: nat): seq<nat>
    decreases |chain|
  {
    if chain == [] then []
    else if chain[0] == i then Without(chain[1..], i)
    else [chain[0]] + Without(chain[1..], i)
  }

  predicate Shape(w: Wheel) { |w.chains| == SLOTS + 1 && w.current < SLOTS && w.perSlot > 0 }

  /** wheel_remove */
  function Detach(w: Wheel, i: nat): (w': Wheel)
    requires Shape(w)
    ensures Shape(w') && w' == w.(chains := w'.chains)
  {
    w.(chains := seq(SLOTS + 1, c requires 0 <= c < |w.chains| => Without(w.chains[c], i)))
  }

  /** wheel_insert_slot */
  function Insert(w: Wheel, i: nat, c: nat): (w': Wheel)
    requires Shape(w) && c <= OVERFLOW
    ensures Shape(w')
  {
    w.(chains := w.chains[c := [i] + w.chains[c]])
  }

  function SlotsAhead(deadline: nat, now: nat, perSlot: nat): nat
    requires perSlot > 0
  {
    ((if deadline > now then deadline - now else 0) / perSlot) % U32
  }

  function Target(w: Wheel, deadline: nat, now: nat): (c: nat)
    requires Shape(w)
    ensures c <= OVERFLOW
  {
    var ahead := SlotsAhead(deadline, now, w.perSlot);
    if ahead >= SLOTS then OVERFLOW else (w.current + ahead) % SLOTS
  }

  /** tcp_timer_schedule */
  function Schedule(w: Wheel, i: nat, deadline: nat, now: nat): (w': Wheel)
    requires Shape(w)
    ensures Shape(w')
  {
    Insert(Detach(w, i), i, Target(w, deadline, now))
  }

  /** tcp_timer_resched; the two clock readings are those of tcb_earliest_deadline and tcp_timer_schedule. */
  function Resched(w: Wheel, i: nat, t0: nat, t1: nat): (w': Wheel)
    requires Shape(w) && i < |w.records|
    ensures Shape(w')
  {
    match Earliest(w.records[i].timers, w.hz, t0)
    case None => Detach(w, i)
    case Some(d) => Schedule(w, i, d, t1)
  }

  /** tcb_free as far as the wheel is concerned. */
  function Release(w: Wheel, i: nat): (w': Wheel)
    requires Shape(w) && i < |w.records|
    ensures Shape(w')
  {
    var d := Detach(w, i);
    d.(records := d.records[i := Record(false, DISARMED)])
  }

  /** What timer_fire, and the handlers it calls, may do to the visited record. */
  datatype Action = SetTimers(timers: Timers) | DoResched(t0: nat, t1: nat) | DoRelease

  function Fire(w: Wheel, i: nat, acts: seq<Action>): (w': Wheel)
    requires Shape(w) && i < |w.records|
    ensures Shape(w') && |w'.records| == |w.records|
    decreases |acts|
  {
    if acts == [] || !w.records[i].inUse then w
    else
      var w1 :=
        match acts[0]
        case SetTimers(t) => w.(records := w.records[i := Record(true, t)])
        case DoResched(t0, t1) => Resched(w, i, t0, t1)
        case DoRelease => Release(w, i);
      Fire(w1, i, acts[1..])
  }

  datatype Reaction = Reaction(acts: seq<Action>, t0: nat, t1: nat)

  /** One visit of the tick: fire, then reschedule if the record is still in use. */
  function Visit(w: Wheel, i: nat, r: Reaction): (w': Wheel)
    requires Shape(w) && i < |w.records|
    ensures Shape(w') && |w'.records| == |w.records|
  {
    var w1 := Fire(w, i, r.acts);
    if w1.records[i].inUse then Resched(w1, i, r.t0, r.t1) else w1
  }

  type Reactions = nat -> Reaction

  function VisitAll(w: Wheel, chain: seq<nat>, react: Reactions): (w': Wheel)
    requires Shape(w) && forall p :: 0 <= p < |chain| ==> chain[p] < |w.records|
    ensures Shape(w') && |w'.records| == |w.records|
    decreases |chain|
  {
    if chain == [] then w else VisitAll(Visit(w, chain[0], react(chain[0])), chain[1..], react)
  }

  function NextSlot(current: nat): (c: nat)
    ensures c < SLOTS
  {
    (current + 1) % SLOTS
  }

  /** The current slot after k advances. */
  function SlotAfter(from: nat, k: nat): (c: nat)
    ensures c < SLOTS
  {
    (from + k) % SLOTS
  }

  lemma SlotAfterNext(current: nat, n: nat)
    ensures n > 0 ==> SlotAfter(NextSlot(current), n - 1) == SlotAfter(current, n)
    ensures current < SLOTS ==> SlotAfter(current, 0) == current
  {
  }

  /** tcp_timer_tick without its chain walks: one slot forward, its chain detached. */
  function Turn(w: Wheel): (w': Wheel)
    requires Shape(w)
    ensures Shape(w')
  {
    var c := NextSlot(w.current);
    w.(current := c, chains := w.chains[c := []])
  }

  /** The chain the next slot advance will visit. */
  function Due(w: Wheel): seq<nat>
    requires Shape(w)
  {
    w.chains[NextSlot(w.current)]
  }

  // --------------------------------------------------------------- structure

  ghost predicate Distinct(chain: seq<nat>) {
    forall p, q :: 0 <= p < q < |chain| ==> chain[p] != chain[q]
  }

  ghost predicate On(w: Wheel, c: int, i: nat) { 0 <= c < |w.chains| && i in w.chains[c] }

  /**
   * Every chained index is a record in use, on one chain only and only once
   * there; no released record is on any chain.
   */
  ghost predicate WheelOk(w: Wheel) {
    && Shape(w)
    && (forall c :: 0 <= c <= OVERFLOW ==> Distinct(w.chains[c]))
    && (forall c: int, i: nat :: On(w, c, i) ==> i < |w.records| && w.records[i].inUse)
    && (forall c: int, c': int, i: nat :: On(w, c, i) && On(w, c', i) ==> c == c')
  }

  /** An operation on record i: other records keep their chain, and the clockwork stands still. */
  ghost predicate OnlyTouches(w: Wheel, w': Wheel, i: nat) {
    && |w'.chains| == |w.chains| && |w'.records| == |w.records|
    && w'.current == w.current && w'.lastTick == w.lastTick && w'.perSlot == w.perSlot && w'.hz == w.hz
    && (forall c, j :: j != i ==> (On(w', c, j) <==> On(w, c, j)))
    && (forall j :: 0 <= j < |w.records| && j != i ==> w'.records[j] == w.records[j])
  }

  lemma OnlyTouchesTransitive(a: Wheel, b: Wheel, c: Wheel, i: nat)
    requires OnlyTouches(a, b, i) && OnlyTouches(b, c, i)
    ensures OnlyTouches(a, c, i)
  {
    forall s, j | j != i ensures On(c, s, j) <==> On(a, s, j) { assert On(b, s, j) <==> On(a, s, j); }
  }

  lemma {:induction false} WithoutElements(chain: seq<nat>, i: nat)
    ensures forall j :: j in Without(chain, i) <==> j in chain && j != i
    decreases |chain|
  {
    if chain != [] { WithoutElements(chain[1..], i); }
  }

  lemma {:induction false} WithoutAbsent(chain: seq<nat>, i: nat)
    requires i !in chain
    ensures Without(chain, i) == chain
    decreases |chain|
  {
    if chain != [] { WithoutAbsent(chain[1..], i); }
  }

  /** Removing from a chain without repeats takes out the one occurrence. */
  lemma {:induction false} WithoutAt(chain: seq<nat>, p: nat)
    requires Distinct(chain) && p < |chain|
    ensures Without(chain, chain[p]) == chain[..p] + chain[p + 1..]
    decreases |chain|
  {
    var i := chain[p];
    if p == 0 {
      WithoutAbsent(chain[1..], i);
      assert chain[..0] + chain[1..] == chain[1..];
    } else {
      WithoutAt(chain[1..], p - 1);
      assert chain[1..][..p - 1] == chain[1..p];
      assert chain[1..][p - 1 + 1..] == chain[p + 1..];
      assert [chain[0]] + chain[1..p] == chain[..p];
    }
  }

  lemma {:induction false} WithoutDistinct(chain: seq<nat>, i: nat)
    requires Distinct(chain)
    ensures Distinct(Without(chain, i))
  {
    if i in chain {
      var p :| 0 <= p < |chain| && chain[p] == i;
      WithoutAt(chain, p);
    } else {
      WithoutAbsent(chain, i);
    }
  }

  lemma DetachOk(w: Wheel, i: nat)
    requires WheelOk(w)
    ensures WheelOk(Detach(w, i)) && OnlyTouches(w, Detach(w, i), i)
    ensures forall c :: !On(Detach(w, i), c, i)
  {
    var w' := Detach(w, i);
    forall c, j ensures On(w', c, j) <==> On(w, c, j) && j != i {
      if 0 <= c <= OVERFLOW { WithoutElements(w.chains[c], i); }
    }
    forall c | 0 <= c <= OVERFLOW ensures Distinct(w'.chains[c]) { WithoutDistinct(w.chains[c], i); }
  }

  lemma InsertOk(w: Wheel, i: nat, c: nat)
    requires WheelOk(w) && c <= OVERFLOW && i < |w.records| && w.records[i].inUse
    requires forall d :: !On(w, d, i)
    ensures WheelOk(Insert(w, i, c)) && OnlyTouches(w, Insert(w, i, c), i)
    ensures On(Insert(w, i, c), c, i)
  {
    var w' := Insert(w, i, c);
    assert !On(w, c, i);
    assert w'.chains[c][0] == i;
    forall d, j ensures On(w', d, j) <==> On(w, d, j) || (d == c && j == i) {
      if d == c { assert w'.chains[c] == [i] + w.chains[c]; }
    }
  }

  lemma ScheduleOk(w: Wheel, i: nat, deadline: nat, now: nat)
    requires WheelOk(w) && i < |w.records| && w.records[i].inUse
    ensures WheelOk(Schedule(w, i, deadline, now)) && OnlyTouches(w, Schedule(w, i, deadline, now), i)
    ensures On(Schedule(w, i, deadline, now), Target(w, deadline, now), i)
  {
    var d := Detach(w, i);
    DetachOk(w, i);
    InsertOk(d, i, Target(w, deadline, now));
    OnlyTouchesTransitive(w, d, Insert(d, i, Target(w, deadline, now)), i);
  }

  lemma ReschedOk(w: Wheel, i: nat, t0: nat, t1: nat)
    requires WheelOk(w) && i < |w.records| && w.records[i].inUse
    ensures WheelOk(Resched(w, i, t0, t1)) && OnlyTouches(w, Resched(w, i, t0, t1), i)
    ensures Resched(w, i, t0, t1).records == w.records
    ensures var e := Earliest(w.records[i].timers, w.hz, t0);
            e.Some? ==> On(Resched(w, i, t0, t1), Target(w, e.value, t1), i)
    ensures (forall d: nat :: !Awaits(w.records[i].timers, w.hz, t0, d)) ==> forall c :: !On(Resched(w, i, t0, t1), c, i)
  {
    EarliestIsMinimum(w.records[i].timers, w.hz, t0);
    hide Awaits;
    match Earliest(w.records[i].timers, w.hz, t0)
    case None => DetachOk(w, i);
    case Some(d) => ScheduleOk(w, i, d, t1);
  }

  lemma ReleaseOk(w: Wheel, i: nat)
    requires WheelOk(w) && i < |w.records|
    ensures WheelOk(Release(w, i)) && OnlyTouches(w, Release(w, i), i)
    ensures forall c :: !On(Release(w, i), c, i)
  {
    var d := Detach(w, i);
    DetachOk(w, i);
    var w' := Release(w, i);
    assert forall c, j :: On(w', c, j) <==> On(d, c, j);
  }

  /** Whatever the callback does to its record, the structure survives and other records are untouched. */
  lemma {:induction false} FireOk(w: Wheel, i: nat, acts: seq<Action>)
    requires WheelOk(w) && i < |w.records|
    ensures WheelOk(Fire(w, i, acts)) && OnlyTouches(w, Fire(w, i, acts), i)
    decreases |acts|
  {
    if acts != [] && w.records[i].inUse {
      var w1 :=
        match acts[0]
        case SetTimers(t) => w.(records := w.records[i := Record(true, t)])
        case DoResched(t0, t1) => Resched(w, i, t0, t1)
        case DoRelease => Release(w, i);
      match acts[0] {
        case SetTimers(t) => assert forall c, j :: On(w1, c, j) <==> On(w, c, j);
        case DoResched(t0, t1) => ReschedOk(w, i, t0, t1);
        case DoRelease => ReleaseOk(w, i);
      }
      FireOk(w1, i, acts[1..]);
      OnlyTouchesTransitive(w, w1, Fire(w1, i, acts[1..]), i);
    }
  }

  lemma VisitOk(w: Wheel, i: nat, r: Reaction)
    requires WheelOk(w) && i < |w.records|
    ensures WheelOk(Visit(w, i, r)) && OnlyTouches(w, Visit(w, i, r), i)
  {
    var w1 := Fire(w, i, r.acts);
    FireOk(w, i, r.acts);
    if w1.records[i].inUse {
      ReschedOk(w1, i, r.t0, r.t1);
      OnlyTouchesTransitive(w, w1, Resched(w1, i, r.t0, r.t1), i);
    }
  }

  /** A walk of a detached chain keeps every record that is not on it. */
  ghost predicate Keeps(w: Wheel, w': Wheel, i: nat) {
    && |w'.chains| == |w.chains| && |w'.records| == |w.records|
    && w'.current == w.current && w'.lastTick == w.lastTick && w'.perSlot == w.perSlot && w'.hz == w.hz
    && (forall c :: On(w', c, i) <==> On(w, c, i))
    && (i < |w.records| ==> w'.records[i] == w.records[i])
  }

  lemma {:induction false} VisitAllOk(w: Wheel, chain: seq<nat>, react: Reactions)
    requires WheelOk(w) && forall p :: 0 <= p < |chain| ==> chain[p] < |w.records|
    ensures WheelOk(VisitAll(w, chain, react))
    ensures forall i :: i !in chain ==> Keeps(w, VisitAll(w, chain, react), i)
    decreases |chain|
  {
    if chain != [] {
      var w1 := Visit(w, chain[0], react(chain[0]));
      VisitOk(w, chain[0], react(chain[0]));
      VisitAllOk(w1, chain[1..], react);
      forall i | i !in chain ensures Keeps(w, VisitAll(w, chain, react), i) {
        assert i !in chain[1..] && i != chain[0];
        assert Keeps(w1, VisitAll(w1, chain[1..], react), i);
      }
    }
  }

  lemma TurnOk(w: Wheel)
    requires WheelOk(w)
    ensures WheelOk(Turn(w))
    ensures forall p :: 0 <= p < |Due(w)| ==> Due(w)[p] < |w.records|
    ensures forall c, i :: On(Turn(w), c, i) <==> On(w, c, i) && c != NextSlot(w.current)
  {
    var c0 := NextSlot(w.current);
    forall p | 0 <= p < |Due(w)| ensures Due(w)[p] < |w.records| { assert On(w, c0, Due(w)[p]); }
    var w' := Turn(w);
    forall c: int, i: nat ensures On(w', c, i) <==> On(w, c, i) && c != c0 {
      if 0 <= c <= OVERFLOW { assert w'.chains[c] == if c == c0 then [] else w.chains[c]; }
    }
  }

  // ------------------------------------------------------------------- ticks

  ghost function Advance(w: Wheel, react: Reactions): (w': Wheel)
    requires WheelOk(w)
    ensures WheelOk(w') && |w'.records| == |w.records|
    ensures w'.current == NextSlot(w.current) && w'.lastTick == w.lastTick && w'.perSlot == w.perSlot && w'.hz == w.hz
  {
    TurnOk(w);
    VisitAllOk(Turn(w), Due(w), react);
    VisitAllClock(Turn(w), Due(w), react);
    VisitAll(Turn(w), Due(w), react)
  }

  lemma {:induction false} VisitAllClock(w: Wheel, chain: seq<nat>, react: Reactions)
    requires WheelOk(w) && forall p :: 0 <= p < |chain| ==> chain[p] < |w.records|
    ensures var w' := VisitAll(w, chain, react);
            w'.current == w.current && w'.lastTick == w.lastTick && w'.perSlot == w.perSlot && w'.hz == w.hz
    decreases |chain|
  {
    if chain != [] {
      VisitOk(w, chain[0], react(chain[0]));
      VisitAllClock(Visit(w, chain[0], react(chain[0])), chain[1..], react);
    }
  }

  /** The slot loop of the tick: the wheel after n advances, and the chain visited by each. */
  ghost function AdvanceMany(w: Wheel, n: nat, reacts: nat -> Reactions, s: nat): (r: (Wheel, seq<seq<nat>>))
    requires WheelOk(w) && n <= SLOTS
    ensures WheelOk(r.0) && |r.0.records| == |w.records| && |r.1| == n
    ensures r.0.current == SlotAfter(w.current, n)
    ensures r.0.lastTick == w.lastTick && r.0.perSlot == w.perSlot && r.0.hz == w.hz
    decreases n
  {
    SlotAfterNext(w.current, n);
    if n == 0 then (w, [])
    else
      var (w', rest) := AdvanceMany(Advance(w, reacts(s)), n - 1, reacts, s + 1);
      (w', [Due(w)] + rest)
  }

  /** The overflow chain detached from the wheel. */
  function Unhook(w: Wheel): (w': Wheel)
    requires Shape(w)
    ensures Shape(w')
  {
    w.(chains := w.chains[OVERFLOW := []])
  }

  lemma UnhookOk(w: Wheel)
    requires WheelOk(w)
    ensures WheelOk(Unhook(w))
    ensures forall p :: 0 <= p < |w.chains[OVERFLOW]| ==> w.chains[OVERFLOW][p] < |w.records|
    ensures forall c: int, i: nat :: On(Unhook(w), c, i) <==> On(w, c, i) && c != OVERFLOW
  {
    var w' := Unhook(w);
    forall p | 0 <= p < |w.chains[OVERFLOW]| ensures w.chains[OVERFLOW][p] < |w.records| {
      assert On(w, OVERFLOW, w.chains[OVERFLOW][p]);
    }
    forall c: int, i: nat ensures On(w', c, i) <==> On(w, c, i) && c != OVERFLOW {
      if 0 <= c <= OVERFLOW { assert w'.chains[c] == if c == OVERFLOW then [] else w.chains[c]; }
    }
  }

  /** A record re-hashed from the overflow chain is rescheduled and not fired. */
  function Rehash(times: nat -> (nat, nat)): Reactions { (i: nat) => Reaction([], times(i).0, times(i).1) }

  ghost function DrainOverflow(w: Wheel, times: nat -> (nat, nat)): (w': Wheel)
    requires WheelOk(w)
    ensures WheelOk(w') && |w'.records| == |w.records|
    ensures w'.current == w.current && w'.lastTick == w.lastTick && w'.perSlot == w.perSlot && w'.hz == w.hz
  {
    UnhookOk(w);
    VisitAllOk(Unhook(w), w.chains[OVERFLOW], Rehash(times));
    VisitAllClock(Unhook(w), w.chains[OVERFLOW], Rehash(times));
    VisitAll(Unhook(w), w.chains[OVERFLOW], Rehash(times))
  }

  function SlotsToAdvance(w: Wheel, now: nat): (n: nat)
    requires Shape(w)
    ensures n <= SLOTS
  {
    Min((if now < w.lastTick then 0 else (now - w.lastTick) / w.perSlot) % U32, SLOTS)
  }

  function Ticked(w: Wheel, n: nat): Wheel { w.(lastTick := w.lastTick + n * w.perSlot) }

  lemma TickedOk(w: Wheel, n: nat)
    requires WheelOk(w)
    ensures WheelOk(Ticked(w, n))
    ensures Ticked(w, n).current == w.current && Ticked(w, n).hz == w.hz && Ticked(w, n).records == w.records
    ensures forall c: int, i: nat :: On(Ticked(w, n), c, i) <==> On(w, c, i)
  {
    assert forall c: int, i: nat :: On(Ticked(w, n), c, i) <==> On(w, c, i);
  }

  /** tcp_timer_tick up to the delayed-ACK flush. */
  ghost function Tick(w: Wheel, now: nat, reacts: nat -> Reactions, times: nat -> (nat, nat)): (r: (Wheel, seq<seq<nat>>))
    requires WheelOk(w)
    ensures WheelOk(r.0) && |r.0.records| == |w.records| && |r.1| == SlotsToAdvance(w, now)
    ensures r.0.current == SlotAfter(w.current, SlotsToAdvance(w, now))
  {
    ShapeOf(w);
    hide *;
    var n := SlotsToAdvance(w, now);
    if n == 0 then WrapZero(w.current); (w, [])
    else
      TickedOk(w, n);
      var (w2, visits) := AdvanceMany(Ticked(w, n), n, reacts, 0);
      (if w2.current < n then DrainOverflow(w2, times) else w2, visits)
  }

  lemma WrapZero(current: nat)
    requires current < SLOTS
    ensures current == SlotAfter(current, 0)
  {
  }

  /** The drain condition `current < slots_to_advance` holds exactly when the tick passed slot 0. */
  lemma DrainsExactlyOnWrap(from: nat, n: nat)
    requires from < SLOTS && 1 <= n <= SLOTS
    ensures SlotAfter(from, n) < n <==> exists k: nat :: 1 <= k <= n && SlotAfter(from, k) == 0
  {
    if from + n >= SLOTS {
      assert SlotAfter(from, SLOTS - from) == 0;
    }
  }

  // -------------------------------------------------------------- whole runs

  datatype Event =
    | TickAt(now: nat, reacts: nat -> Reactions, times: nat -> (nat, nat))
    | Touch(idx: nat, acts: seq<Action>)      // a handler working on a record outside the tick
    | Open(newIdx: nat)                       // tcb_alloc
    | ResetAll                                // tcb_store_reset

  ghost function StepWheel(w: Wheel, e: Event): (r: (Wheel, seq<seq<nat>>))
    requires WheelOk(w)
    ensures WheelOk(r.0) && Shape(r.0) && |r.0.records| == |w.records|
  {
    match e
    case TickAt(now, reacts, times) => Tick(w, now, reacts, times)
    case Touch(i, acts) =>
      if i >= |w.records| then (w, []) else FireOk(w, i, acts); (Fire(w, i, acts), [])
    case Open(i) =>
      if i >= |w.records| || w.records[i].inUse then (w, []) else OpenOk(w, i); (Opened(w, i), [])
    case ResetAll => ClearedOk(w); (Cleared(w), [])
  }

  /** tcb_alloc: the record is in use, with no timer armed and on no chain. */
  function Opened(w: Wheel, i: nat): Wheel
    requires i < |w.records|
  {
    w.(records := w.records[i := Record(true, DISARMED)])
  }

  lemma OpenOk(w: Wheel, i: nat)
    requires WheelOk(w) && i < |w.records| && !w.records[i].inUse
    ensures WheelOk(Opened(w, i)) && OnlyTouches(w, Opened(w, i), i)
    ensures forall c :: !On(Opened(w, i), c, i)
  {
    var w' := Opened(w, i);
    assert forall c, j :: On(w', c, j) <==> On(w, c, j);
  }

  /** tcb_store_reset: every chain emptied and every record zeroed; the clockwork keeps its position. */
  function Cleared(w: Wheel): (w': Wheel)
    ensures |w'.chains| == |w.chains| && |w'.records| == |w.records|
  {
    w.(chains := seq(|w.chains|, _ => []), records := seq(|w.records|, _ => Record(false, DISARMED)))
  }

  lemma ClearedOk(w: Wheel)
    requires WheelOk(w)
    ensures WheelOk(Cleared(w)) && forall c, i :: !On(Cleared(w), c, i)
  {
    hide On, Distinct;
    assert forall c, i :: !On(Cleared(w), c, i) by { NoneOn(Cleared(w)); }
    assert forall c :: 0 <= c <= OVERFLOW ==> Distinct(Cleared(w).chains[c]) by { NoneOn(Cleared(w)); }
  }

  lemma NoneOn(w: Wheel)
    requires forall c :: 0 <= c < |w.chains| ==> w.chains[c] == []
    ensures forall c, i :: !On(w, c, i)
    ensures forall c :: 0 <= c < |w.chains| ==> Distinct(w.chains[c])
  {
  }

  /** The wheel after a run, and the chains its slot advances visited, one entry per advance. */
  ghost function Exec(w: Wheel, es: seq<Event>): (r: (Wheel, seq<seq<nat>>))
    requires WheelOk(w)
    ensures WheelOk(r.0) && |r.0.records| == |w.records|
    decreases |es|
  {
    if es == [] then (w, [])
    else
      var (w1, v1) := StepWheel(w, es[0]);
      var (w2, v2) := Exec(w1, es[1..]);
      (w2, v1 + v2)
  }

  /** tcp_timer_init over records none of which is in use. */
  predicate Initial(w: Wheel) {
    && Shape(w) && (forall c :: 0 <= c <= OVERFLOW ==> w.chains[c] == [])
    && (forall i :: 0 <= i < |w.records| ==> !w.records[i].inUse)
  }

  /**
   * Wheel structure over every run of ticks with arbitrary callbacks, handler
   * work, allocations and resets of the store: every chained record is in use and on exactly one
   * chain exactly once.
   */
  lemma RunKeepsStructure(w: Wheel, es: seq<Event>)
    requires Initial(w)
    ensures WheelOk(w)
    ensures var w' := Exec(w, es).0;
            && (forall c :: 0 <= c <= OVERFLOW ==> Distinct(w'.chains[c]))
            && (forall c: int, i: nat :: On(w', c, i) ==> i < |w'.records| && w'.records[i].inUse)
            && (forall c: int, c': int, i: nat :: On(w', c, i) && On(w', c', i) ==> c == c')
  {
    assert forall c: int, i: nat :: !On(w, c, i);
  }

  // ---------------------------------------------------------------- lateness

  /** The number of advances until slot c is visited. */
  function Distance(current: nat, c: nat): (d: nat)
    ensures 1 <= d <= SLOTS
  {
    (c - current - 1) % SLOTS + 1
  }

  /** Where scheduling puts a record: k slots ahead is visited by the k-th advance, 0 ahead by the 4096th. */
  lemma PlacedAhead(w: Wheel, deadline: nat, now: nat)
    requires Shape(w)
    ensures var ahead := SlotsAhead(deadline, now, w.perSlot);
            var c := Target(w, deadline, now);
            && (c == OVERFLOW <==> ahead >= SLOTS)
            && (c < SLOTS ==> Distance(w.current, c) == if ahead == 0 then SLOTS else ahead)
  {
  }

  ghost predicate Untouched(e: Event, i: nat) {
    match e
    case TickAt(_, _, _) => true
    case Touch(j, _) => j != i
    case Open(j) => j != i
    case ResetAll => false
  }

  ghost predicate AllUntouched(es: seq<Event>, i: nat) { forall k :: 0 <= k < |es| ==> Untouched(es[k], i) }

  lemma AdvanceVisits(w: Wheel, react: Reactions, i: nat, c: nat)
    requires WheelOk(w) && On(w, c, i)
    ensures i in Due(w) <==> c == NextSlot(w.current)
    ensures i !in Due(w) ==> On(Advance(w, react), c, i) && Advance(w, react).records[i] == w.records[i]
  {
    TurnOk(w);
    VisitAllOk(Turn(w), Due(w), react);
    assert i in Due(w) <==> On(w, NextSlot(w.current), i);
    if i !in Due(w) {
      assert On(Turn(w), c, i);
      assert Keeps(Turn(w), VisitAll(Turn(w), Due(w), react), i);
    }
  }

  ghost predicate NotIn(visits: seq<seq<nat>>, i: nat, k: nat) {
    forall j :: 0 <= j < |visits| && j < k ==> i !in visits[j]
  }

  /** What one event does to a chained record it leaves alone: visited exactly at its distance. */
  ghost predicate VisitsInTime(w: Wheel, w': Wheel, visits: seq<seq<nat>>, i: nat, c: nat)
    requires i < |w.records| && |w'.records| == |w.records|
  {
    var d := Distance(w.current, c);
    && NotIn(visits, i, d - 1)
    && (|visits| >= d ==> i in visits[d - 1])
    && (|visits| < d ==> On(w', c, i) && w'.records[i] == w.records[i] && Distance(w'.current, c) == d - |visits|)
  }

  lemma NotInCons(first: seq<nat>, rest: seq<seq<nat>>, i: nat, k: nat)
    requires i !in first && NotIn(rest, i, k)
    ensures NotIn([first] + rest, i, k + 1)
  {
  }

  /** The slot loop visits a chained record exactly at its distance, and leaves it alone before. */
  lemma {:induction false} AdvanceManyVisits(w: Wheel, n: nat, reacts: nat -> Reactions, s: nat, i: nat, c: nat)
    requires WheelOk(w) && n <= SLOTS && c < SLOTS && On(w, c, i) && i < |w.records|
    ensures var r := AdvanceMany(w, n, reacts, s); VisitsInTime(w, r.0, r.1, i, c)
    decreases n
  {
    hide On, NotIn, Distance, Due, Shape, WheelOk, Advance;
    ShapeOf(w);
    if n > 0 {
      AdvanceVisits(w, reacts(s), i, c);
      var w1 := Advance(w, reacts(s));
      var d := Distance(w.current, c);
      NextDistance(w.current, c);
      var rest := AdvanceMany(w1, n - 1, reacts, s + 1);
      if d > 1 {
        AdvanceManyVisits(w1, n - 1, reacts, s + 1, i, c);
        NotInCons(Due(w), rest.1, i, d - 2);
      } else {
        NotInNone([Due(w)] + rest.1, i);
      }
    } else {
      NotInEmpty(i, Distance(w.current, c) - 1);
    }
  }

  lemma NotInNone(visits: seq<seq<nat>>, i: nat)
    ensures NotIn(visits, i, 0)
  {
  }

  lemma NotInEmpty(i: nat, k: nat)
    ensures NotIn([], i, k)
  {
  }

  lemma NextDistance(current: nat, c: nat)
    requires c < SLOTS
    ensures Distance(current, c) == 1 <==> c == NextSlot(current)
    ensures Distance(current, c) > 1 ==> Distance(NextSlot(current), c) == Distance(current, c) - 1
  {
  }

  lemma {:induction false} AdvanceManyOverflow(w: Wheel, n: nat, reacts: nat -> Reactions, s: nat, i: nat)
    requires WheelOk(w) && n <= SLOTS && On(w, OVERFLOW, i)
    ensures var (w', visits) := AdvanceMany(w, n, reacts, s);
            NotIn(visits, i, n) && On(w', OVERFLOW, i) && w'.records[i] == w.records[i]
    decreases n
  {
    if n > 0 {
      hide WheelOk, On, Advance, Due;
      AdvanceVisits(w, reacts(s), i, OVERFLOW);
      AdvanceManyOverflow(Advance(w, reacts(s)), n - 1, reacts, s + 1, i);
    }
  }

  lemma DrainKeeps(w: Wheel, times: nat -> (nat, nat), i: nat, c: nat)
    requires WheelOk(w) && c < SLOTS && On(w, c, i)
    ensures On(DrainOverflow(w, times), c, i) && DrainOverflow(w, times).records[i] == w.records[i]
  {
    UnhookOk(w);
    VisitAllOk(Unhook(w), w.chains[OVERFLOW], Rehash(times));
    assert !On(w, OVERFLOW, i) && On(Unhook(w), c, i);
    assert Keeps(Unhook(w), DrainOverflow(w, times), i);
  }

  lemma TickVisits(w: Wheel, e: Event, i: nat, c: nat)
    requires WheelOk(w) && c < SLOTS && On(w, c, i) && e.TickAt?
    ensures var (w', visits) := StepWheel(w, e); VisitsInTime(w, w', visits, i, c)
  {
    assert i < |w.records|;
    var n := SlotsToAdvance(w, e.now);
    if n > 0 {
      var w1 := Ticked(w, n);
      TickedOk(w, n);
      AdvanceManyVisits(w1, n, e.reacts, 0, i, c);
      var (w2, visits) := AdvanceMany(w1, n, e.reacts, 0);
      TickUnfold(w, e);
      hide WheelOk, Distance, DrainOverflow, AdvanceMany, On, NotIn, StepWheel, SlotsToAdvance;
      if w2.current < n && On(w2, c, i) { DrainKeeps(w2, e.times, i, c); }
    }
  }

  lemma StepVisits(w: Wheel, e: Event, i: nat, c: nat)
    requires WheelOk(w) && c < SLOTS && On(w, c, i) && Untouched(e, i)
    ensures var (w', visits) := StepWheel(w, e); VisitsInTime(w, w', visits, i, c)
  {
    hide Distance;
    match e
    case Touch(j, acts) => if j < |w.records| { FireOk(w, j, acts); }
    case Open(j) => if j < |w.records| && !w.records[j].inUse { OpenOk(w, j); }
    case TickAt(_, _, _) => TickVisits(w, e, i, c);
  }

  lemma TailUntouched(es: seq<Event>, i: nat)
    requires AllUntouched(es, i) && es != []
    ensures Untouched(es[0], i) && AllUntouched(es[1..], i)
  {
    forall k | 0 <= k < |es[1..]| ensures Untouched(es[1..][k], i) { assert es[1..][k] == es[k + 1]; }
  }

  /**
   * No lost timer: in every run that leaves a chained record alone, the record
   * is visited at exactly the advance given by its distance, and not before.
   */
  lemma {:induction false} VisitedExactlyWhenDue(w: Wheel, es: seq<Event>, i: nat, c: nat)
    requires WheelOk(w) && c < SLOTS && On(w, c, i) && AllUntouched(es, i)
    ensures var visits := Exec(w, es).1;
            var d := Distance(w.current, c);
            NotIn(visits, i, d - 1) && (|visits| >= d ==> i in visits[d - 1])
    decreases |es|
  {
    hide *;
    var d := Distance(w.current, c);
    if es == [] {
      ExecNothing(w, es);
      NotInEmpty(i, d - 1);
    } else {
      OnRecord(w, c, i);
      TailUntouched(es, i);
      StepVisits(w, es[0], i, c);
      ExecCons(w, es[0], es);
      var w1, v1 := StepWheel(w, es[0]).0, StepWheel(w, es[0]).1;
      VisitsMeaning(w, w1, v1, i, c);
      if |v1| < d {
        VisitedExactlyWhenDue(w1, es[1..], i, c);
        NotInAppend(v1, Exec(w1, es[1..]).1, i, d - 1);
      } else {
        NotInFront(v1, Exec(w1, es[1..]).1, i, d - 1);
      }
    }
  }

  lemma OnRecord(w: Wheel, c: int, i: nat)
    requires WheelOk(w) && On(w, c, i)
    ensures i < |w.records| && w.records[i].inUse
  {
  }

  lemma VisitsMeaning(w: Wheel, w': Wheel, visits: seq<seq<nat>>, i: nat, c: nat)
    requires i < |w.records| && |w'.records| == |w.records| && VisitsInTime(w, w', visits, i, c)
    ensures var d := Distance(w.current, c);
            && NotIn(visits, i, d - 1)
            && (|visits| >= d ==> i in visits[d - 1])
            && (|visits| < d ==> On(w', c, i) && w'.records[i] == w.records[i] && Distance(w'.current, c) == d - |visits|)
  {
    hide NotIn, Distance, On;
  }

  lemma ExecNothing(w: Wheel, es: seq<Event>)
    requires WheelOk(w) && es == []
    ensures Exec(w, es) == (w, [])
  {
    hide WheelOk;
  }

  lemma NotInAppend(v1: seq<seq<nat>>, v2: seq<seq<nat>>, i: nat, k: nat)
    requires NotIn(v1, i, k) && |v1| <= k && NotIn(v2, i, k - |v1|)
    ensures NotIn(v1 + v2, i, k)
  {
  }

  lemma NotInFront(v1: seq<seq<nat>>, v2: seq<seq<nat>>, i: nat, k: nat)
    requires NotIn(v1, i, k) && k <= |v1|
    ensures NotIn(v1 + v2, i, k)
  {
  }

  // ---------------------------------------------------------- overflow chain

  /** Record i's earliest deadline has passed whenever the tick looks at it. */
  ghost predicate OverdueAt(w: Wheel, e: Event, i: nat)
    requires i < |w.records|
  {
    e.TickAt? ==> Overdue(w, i, e.times(i))
  }

  /** Looked at with the readings t, record i has an earliest deadline and it has passed. */
  predicate Overdue(w: Wheel, i: nat, t: (nat, nat))
    requires i < |w.records|
  {
    var d := Earliest(w.records[i].timers, w.hz, t.0);
    d.Some? && d.value <= t.1
  }

  lemma OverdueTarget(w: Wheel, deadline: nat, now: nat)
    requires Shape(w) && deadline < now + w.perSlot
    ensures Target(w, deadline, now) == w.current
  {
    assert SlotsAhead(deadline, now, w.perSlot) == 0;
  }

  /** Re-hashing an overdue record puts it into the slot just passed. */
  lemma RehashOne(w: Wheel, times: nat -> (nat, nat), i: nat)
    requires WheelOk(w) && i < |w.records| && w.records[i].inUse
    requires Overdue(w, i, times(i))
    ensures var w' := Visit(w, i, Rehash(times)(i)); On(w', w.current, i) && w'.records[i] == w.records[i]
  {
    var (t0, t1) := times(i);
    assert Fire(w, i, []) == w;
    assert Rehash(times)(i) == Reaction([], t0, t1);
    hide WheelOk, Earliest, On, Without, Resched;
    ReschedOk(w, i, t0, t1);
    assert Visit(w, i, Reaction([], t0, t1)) == Resched(w, i, t0, t1);
    OverdueTarget(w, Earliest(w.records[i].timers, w.hz, t0).value, t1);
  }

  lemma {:induction false} RehashPlaces(w: Wheel, chain: seq<nat>, times: nat -> (nat, nat), i: nat)
    requires WheelOk(w) && Distinct(chain) && i in chain
    requires forall p :: 0 <= p < |chain| ==> chain[p] < |w.records|
    requires w.records[i].inUse
    requires Overdue(w, i, times(i))
    ensures var w' := VisitAll(w, chain, Rehash(times));
            On(w', w.current, i) && w'.records[i] == w.records[i]
    decreases |chain|
  {
    var react := Rehash(times);
    var w1 := Visit(w, chain[0], react(chain[0]));
    VisitOk(w, chain[0], react(chain[0]));
    if chain[0] == i {
      hide WheelOk, Overdue, Visit, Rehash;
      RehashOne(w, times, i);
      assert i !in chain[1..];
      VisitAllOk(w1, chain[1..], react);
      assert Keeps(w1, VisitAll(w1, chain[1..], react), i);
    } else {
      hide WheelOk, Earliest, On, Visit, Rehash;
      RehashPlaces(w1, chain[1..], times, i);
    }
  }

  /** One tick on an overdue record of the overflow chain: still there, or one revolution ahead after a wrap. */
  ghost predicate OverflowStep(w: Wheel, w': Wheel, visits: seq<seq<nat>>, i: nat)
    requires i < |w.records| && |w'.records| == |w.records|
  {
    && NotIn(visits, i, |visits|) && w'.records[i] == w.records[i] && w'.hz == w.hz
    && (w.current + |visits| < SLOTS ==> On(w', OVERFLOW, i) && w'.current == w.current + |visits|)
    && (w.current + |visits| >= SLOTS ==> On(w', w'.current, i))
  }

  lemma TickOverflow(w: Wheel, e: Event, i: nat)
    requires WheelOk(w) && On(w, OVERFLOW, i) && i < |w.records| && e.TickAt? && OverdueAt(w, e, i)
    ensures var r := StepWheel(w, e); OverflowStep(w, r.0, r.1, i)
  {
    hide *;
    ShapeOf(w);
    var n := SlotsToAdvance(w, e.now);
    if n == 0 {
      TickIdle(w, e, i);
    } else {
      TickUnfold(w, e);
      WrapCases(w.current, n);
      if w.current + n < SLOTS { OverflowStays(w, e, i, n); } else { OverflowWraps(w, e, i, n); }
    }
  }

  lemma ShapeOf(w: Wheel)
    requires WheelOk(w)
    ensures Shape(w) && w.current < SLOTS && |w.chains| == SLOTS + 1
  {
  }

  lemma TickIdle(w: Wheel, e: Event, i: nat)
    requires WheelOk(w) && On(w, OVERFLOW, i) && i < |w.records| && e.TickAt? && SlotsToAdvance(w, e.now) == 0
    ensures var r := StepWheel(w, e); OverflowStep(w, r.0, r.1, i)
  {
    assert StepWheel(w, e) == (w, []);
  }

  lemma OverflowStays(w: Wheel, e: Event, i: nat, n: nat)
    requires WheelOk(w) && On(w, OVERFLOW, i) && i < |w.records| && e.TickAt?
    requires 0 < n <= SLOTS && w.current + n < SLOTS
    ensures WheelOk(Ticked(w, n))
    ensures var r := AdvanceMany(Ticked(w, n), n, e.reacts, 0); OverflowStep(w, r.0, r.1, i)
  {
    TickedOk(w, n);
    hide WheelOk, AdvanceMany, On, NotIn;
    AdvanceManyOverflow(Ticked(w, n), n, e.reacts, 0, i);
    WrapCases(w.current, n);
  }

  lemma OverflowWraps(w: Wheel, e: Event, i: nat, n: nat)
    requires WheelOk(w) && On(w, OVERFLOW, i) && i < |w.records| && e.TickAt? && OverdueAt(w, e, i)
    requires 0 < n <= SLOTS && w.current + n >= SLOTS
    ensures WheelOk(Ticked(w, n))
    ensures var r := AdvanceMany(Ticked(w, n), n, e.reacts, 0);
            OverflowStep(w, DrainOverflow(r.0, e.times), r.1, i)
  {
    TickedOk(w, n);
    AdvanceManyOverflow(Ticked(w, n), n, e.reacts, 0, i);
    hide WheelOk, AdvanceMany, On, NotIn, Earliest, DrainOverflow;
    DrainPlaces(AdvanceMany(Ticked(w, n), n, e.reacts, 0).0, e.times, i);
  }

  lemma DrainPlaces(w: Wheel, times: nat -> (nat, nat), i: nat)
    requires WheelOk(w) && On(w, OVERFLOW, i) && i < |w.records|
    requires Overdue(w, i, times(i))
    ensures var w' := DrainOverflow(w, times); On(w', w.current, i) && w'.records[i] == w.records[i]
  {
    UnhookOk(w);
    assert w.records[i].inUse && Distinct(w.chains[OVERFLOW]);
    hide WheelOk, Earliest, Rehash, VisitAll;
    RehashPlaces(Unhook(w), w.chains[OVERFLOW], times, i);
  }

  lemma WrapCases(from: nat, n: nat)
    requires from < SLOTS && 1 <= n <= SLOTS
    ensures SlotAfter(from, n) == if from + n < SLOTS then from + n else from + n - SLOTS
  {
  }

  lemma TickUnfold(w: Wheel, e: Event)
    requires WheelOk(w) && e.TickAt? && SlotsToAdvance(w, e.now) > 0
    ensures var n := SlotsToAdvance(w, e.now);
            && WheelOk(Ticked(w, n))
            && var (w2, visits) := AdvanceMany(Ticked(w, n), n, e.reacts, 0);
               && |visits| == n && w2.current == SlotAfter(w.current, n) && w2.hz == w.hz
               && StepWheel(w, e) == (if w2.current < n then DrainOverflow(w2, e.times) else w2, visits)
  {
    hide WheelOk, AdvanceMany, DrainOverflow, Ticked, SlotsToAdvance, On, Shape;
    ShapeOf(w);
    TickedOk(w, SlotsToAdvance(w, e.now));
  }

  /** The record is among those visited by the first `bound` advances. */
  ghost predicate VisitedWithin(visits: seq<seq<nat>>, i: nat, bound: nat) {
    exists k :: 0 <= k < |visits| && k < bound && i in visits[k]
  }

  lemma FullTurn(current: nat)
    ensures Distance(current, current) == SLOTS
  {
  }

  lemma VisitedSooner(visits: seq<seq<nat>>, i: nat, a: nat, b: nat)
    requires VisitedWithin(visits, i, a) && a <= b
    ensures VisitedWithin(visits, i, b)
  {
    var k :| 0 <= k < |visits| && k < a && i in visits[k];
  }

  lemma SlotReached(w: Wheel, es: seq<Event>, i: nat, c: nat)
    requires WheelOk(w) && On(w, c, i) && c < SLOTS && AllUntouched(es, i)
    ensures |Exec(w, es).1| >= SLOTS ==> VisitedWithin(Exec(w, es).1, i, SLOTS)
  {
    hide WheelOk, On, Exec, AllUntouched, Distance;
    ShapeOf(w);
    VisitedExactlyWhenDue(w, es, i, c);
    var d := Distance(w.current, c);
    var visits := Exec(w, es).1;
    if |visits| >= SLOTS { assert i in visits[d - 1]; }
  }

  /** A tick moves last_tick_tsc by the slots it advanced. */
  lemma TickClock(w: Wheel, e: Event)
    requires WheelOk(w) && e.TickAt?
    ensures Shape(w)
    ensures var n := SlotsToAdvance(w, e.now);
            var r := StepWheel(w, e);
            |r.1| == n && r.0.lastTick == w.lastTick + n * w.perSlot && r.0.perSlot == w.perSlot
  {
    ShapeOf(w);
    var n := SlotsToAdvance(w, e.now);
    TickedOk(w, n);
    hide WheelOk, AdvanceMany, DrainOverflow, SlotsToAdvance, On;
  }

  lemma ExecCons(w: Wheel, e: Event, es: seq<Event>)
    requires WheelOk(w) && es != [] && e == es[0]
    ensures Exec(w, es).1 == StepWheel(w, e).1 + Exec(StepWheel(w, e).0, es[1..]).1
  {
    hide WheelOk, StepWheel;
  }

  // ------------------------------------------------- consequences of 0 ahead

  /**
   * A deadline less than one slot away is visited a whole revolution later; so
   * is every deadline of a record whose creation time is still in
   * timewait_deadline_tsc, as tcp_fsm_connect leaves it, whatever its retransmission deadline.
   */
  lemma NearDeadlineCostsRevolution(w: Wheel, i: nat, t0: nat, t1: nat)
    requires WheelOk(w) && i < |w.records| && w.records[i].inUse
    requires var t := w.records[i].timers;
             || (t.timewait != 0 && t.timewait < t1 + w.perSlot)
             || (t.rto != 0 && t.rto < t1 + w.perSlot)
    ensures On(Resched(w, i, t0, t1), w.current, i)
    ensures Distance(w.current, w.current) == SLOTS
  {
    var t := w.records[i].timers;
    EarliestIsMinimum(t, w.hz, t0);
    assert t.timewait != 0 ==> Awaits(t, w.hz, t0, t.timewait);
    assert t.rto != 0 ==> Awaits(t, w.hz, t0, t.rto);
    ReschedOk(w, i, t0, t1);
    FullTurn(w.current);
    hide WheelOk, Earliest, On, Awaits, Resched;
    var d := Earliest(t, w.hz, t0).value;
    OverdueTarget(w, d, t1);
  }
}
