/**
 * The timer wheel under a clock that does not go back (tcp_timer.c). Every
 * reading of an event lies between the clock before and the clock after it,
 * and a record is rescheduled after its timers change. A record then goes to the overflow
 * chain only with a deadline beyond the revolution the wheel is in, which is
 * why no deadline in overflow passes before the tick that re-hashes it.
 */
module WheelClock {
  import opened Basics
  import opened WheelSpec

  // ------------------------------------------------------------------ readings

  predicate ActsIn(acts: seq<Action>, lo: nat, hi: nat) {
    forall k :: 0 <= k < |acts| && acts[k].DoResched? ==> lo <= acts[k].t0 <= acts[k].t1 <= hi
  }

  predicate ReactionIn(r: Reaction, lo: nat, hi: nat) { ActsIn(r.acts, lo, hi) && lo <= r.t0 <= r.t1 <= hi }

  ghost predicate ReactionsIn(react: Reactions, lo: nat, hi: nat) { forall i :: ReactionIn(react(i), lo, hi) }

  /** The event reads the clock between `clock` and `next`; within a tick, not before the tick's own reading. */
  ghost predicate Timely(e: Event, clock: nat, next: nat) {
    match e
    case TickAt(now, reacts, times) =>
      && clock <= now <= next
      && (forall s :: ReactionsIn(reacts(s), now, next))
      && (forall i :: now <= times(i).0 <= times(i).1 <= next)
    case Touch(_, acts) => clock <= next && ActsIn(acts, clock, next)
    case Open(_) => clock <= next
    case ResetAll => clock <= next
  }

  /** clocks[k] is the clock before the k-th event. */
  ghost predicate Clocked(es: seq<Event>, clocks: seq<nat>) {
    |clocks| == |es| + 1 && forall k :: 0 <= k < |es| ==> Timely(es[k], clocks[k], clocks[k + 1])
  }

  /** Handlers that change the timers of record i reschedule it, or release it, afterwards. */
  predicate Disciplined(e: Event, i: nat) {
    e.Touch? && e.idx == i && e.acts != [] ==> !e.acts[|e.acts| - 1].SetTimers?
  }

  // ----------------------------------------------------------------- invariant

  /** The deadline does not depend on the clock and is not before h. */
  predicate Far(t: Timers, hz: nat, h: int) {
    !(t.established && t.app == 12) && Earliest(t, hz, 0).Some? && Earliest(t, hz, 0).value >= h
  }

  ghost predicate FarAt(w: Wheel, i: nat, h: int) {
    On(w, OVERFLOW, i) && i < |w.records| ==> Far(w.records[i].timers, w.hz, h)
  }

  /** When the current slot wraps next. */
  function Horizon(w: Wheel): int { w.lastTick + (SLOTS - w.current) * w.perSlot }

  /** Everything the overflow chain needs to know about record i. */
  ghost predicate ClockOk(w: Wheel, i: nat, clock: nat) {
    WheelOk(w) && w.lastTick <= clock && FarAt(w, i, Horizon(w))
  }

  lemma SameDeadline(t: Timers, hz: nat, a: nat, b: nat)
    requires !(t.established && t.app == 12)
    ensures Earliest(t, hz, a) == Earliest(t, hz, b)
  {
  }

  lemma StreamingIsNow(t: Timers, hz: nat, now: nat)
    requires t.established && t.app == 12
    ensures Earliest(t, hz, now).Some? && Earliest(t, hz, now).value <= now
  {
  }

  lemma AheadMeans(d: nat, now: nat, perSlot: nat)
    requires perSlot > 0 && SlotsAhead(d, now, perSlot) >= SLOTS
    ensures d >= now + SLOTS * perSlot
  {
    var delta := if d > now then d - now else 0;
    var q := delta / perSlot;
    assert q % U32 <= q;
    QuotientWithin(delta, perSlot);
    MulMonotone(SLOTS, q, perSlot);
  }

  /** Rescheduling puts a record into overflow only for a whole revolution or more. */
  lemma ReschedFar(w: Wheel, i: nat, t0: nat, t1: nat, h: int)
    requires WheelOk(w) && i < |w.records| && w.records[i].inUse && t0 <= t1 && h <= t1 + SLOTS * w.perSlot
    ensures FarAt(Resched(w, i, t0, t1), i, h)
  {
    ReschedOk(w, i, t0, t1);
    var w' := Resched(w, i, t0, t1);
    var t := w.records[i].timers;
    var e := Earliest(t, w.hz, t0);
    if e.None? {
      DetachOk(w, i);
    } else {
      assert On(w', Target(w, e.value, t1), i);
      if On(w', OVERFLOW, i) {
        assert Target(w, e.value, t1) == OVERFLOW;
        hide WheelOk, On, Resched;
        TargetOverflow(w, e.value, t1);
        AheadMeans(e.value, t1, w.perSlot);
        DeadlineFar(t, w.hz, t0, h);
      }
    }
  }

  lemma TargetOverflow(w: Wheel, deadline: nat, now: nat)
    requires Shape(w) && Target(w, deadline, now) == OVERFLOW
    ensures SlotsAhead(deadline, now, w.perSlot) >= SLOTS
  {
  }

  lemma DeadlineFar(t: Timers, hz: nat, t0: nat, h: int)
    requires Earliest(t, hz, t0).Some? && Earliest(t, hz, t0).value > t0 && h <= Earliest(t, hz, t0).value
    ensures Far(t, hz, h)
  {
    if t.established && t.app == 12 { StreamingIsNow(t, hz, t0); } else { SameDeadline(t, hz, t0, 0); }
  }

  // -------------------------------------------------------------- preservation

  lemma {:induction false} FireSnoc(w: Wheel, i: nat, acts: seq<Action>, a: Action)
    requires Shape(w) && i < |w.records|
    ensures var w1 := Fire(w, i, acts);
            Fire(w, i, acts + [a]) == if !w1.records[i].inUse then w1 else Fire(w1, i, [a])
    decreases |acts|
  {
    if acts == [] {
      assert acts + [a] == [a];
    } else if w.records[i].inUse {
      assert (acts + [a])[0] == acts[0] && (acts + [a])[1..] == acts[1..] + [a];
      var w1 :=
        match acts[0]
        case SetTimers(t) => w.(records := w.records[i := Record(true, t)])
        case DoResched(t0, t1) => Resched(w, i, t0, t1)
        case DoRelease => Release(w, i);
      assert Shape(w1) && |w1.records| == |w.records|;
      hide Resched, Release, Shape;
      FireSnoc(w1, i, acts[1..], a);
    }
  }

  lemma FireOne(w: Wheel, i: nat, a: Action)
    requires Shape(w) && i < |w.records| && w.records[i].inUse
    ensures a.DoResched? ==> Fire(w, i, [a]) == Resched(w, i, a.t0, a.t1)
    ensures a.DoRelease? ==> Fire(w, i, [a]) == Release(w, i)
  {
    hide Resched, Release;
    assert [a][1..] == [];
  }

  lemma NotInUseFar(w: Wheel, i: nat, h: int)
    requires WheelOk(w) && i < |w.records| && !w.records[i].inUse
    ensures FarAt(w, i, h)
  {
  }

  /** A handler that ends with a rescheduling or a release leaves no near deadline in overflow. */
  lemma FireFar(w: Wheel, i: nat, acts: seq<Action>, lo: nat, hi: nat, h: int)
    requires WheelOk(w) && i < |w.records| && FarAt(w, i, h) && h <= lo + SLOTS * w.perSlot && ActsIn(acts, lo, hi)
    requires acts != [] ==> !acts[|acts| - 1].SetTimers?
    ensures FarAt(Fire(w, i, acts), i, h)
  {
    ShapeOf(w);
    if acts != [] {
      var n := |acts| - 1;
      var front, a := acts[..n], acts[n];
      assert acts == front + [a];
      FireSnoc(w, i, front, a);
      FireOk(w, i, front);
      var w1 := Fire(w, i, front);
      ShapeOf(w1);
      hide WheelOk, FarAt, Fire;
      if !w1.records[i].inUse {
        NotInUseFar(w1, i, h);
      } else {
        FireOne(w1, i, a);
        if a.DoResched? { ReschedFar(w1, i, a.t0, a.t1, h); } else { ReleasedFar(w1, i, h); }
      }
    }
  }

  lemma ReleasedFar(w: Wheel, i: nat, h: int)
    requires WheelOk(w) && i < |w.records|
    ensures FarAt(Release(w, i), i, h)
  {
    ReleaseOk(w, i);
    hide Release;
  }

  lemma OthersFar(w: Wheel, w': Wheel, j: nat, i: nat, h: int)
    requires OnlyTouches(w, w', j) && i != j && FarAt(w, i, h)
    ensures FarAt(w', i, h)
  {
    hide On, Far;
  }

  /** A visit ends with a rescheduling, whatever the callback did. */
  lemma VisitFar(w: Wheel, j: nat, r: Reaction, i: nat, lo: nat, hi: nat, h: int)
    requires WheelOk(w) && j < |w.records| && FarAt(w, i, h) && h <= lo + SLOTS * w.perSlot && ReactionIn(r, lo, hi)
    ensures FarAt(Visit(w, j, r), i, h)
  {
    VisitOk(w, j, r);
    if i != j {
      hide Visit, WheelOk;
      OthersFar(w, Visit(w, j, r), j, i, h);
    } else {
      FireOk(w, i, r.acts);
      var w1 := Fire(w, i, r.acts);
      hide WheelOk, FarAt, Fire, Resched;
      if w1.records[i].inUse { ReschedFar(w1, i, r.t0, r.t1, h); } else { NotInUseFar(w1, i, h); }
    }
  }

  lemma {:induction false} VisitAllFar(w: Wheel, chain: seq<nat>, react: Reactions, i: nat, lo: nat, hi: nat, h: int)
    requires WheelOk(w) && (forall p :: 0 <= p < |chain| ==> chain[p] < |w.records|)
    requires FarAt(w, i, h) && h <= lo + SLOTS * w.perSlot && ReactionsIn(react, lo, hi)
    ensures FarAt(VisitAll(w, chain, react), i, h)
    decreases |chain|
  {
    ShapeOf(w);
    if chain != [] {
      VisitOk(w, chain[0], react(chain[0]));
      assert ReactionIn(react(chain[0]), lo, hi);
      hide WheelOk, FarAt, Visit, Shape;
      VisitFar(w, chain[0], react(chain[0]), i, lo, hi, h);
      VisitAllFar(Visit(w, chain[0], react(chain[0])), chain[1..], react, i, lo, hi, h);
    }
  }

  lemma AdvanceFar(w: Wheel, react: Reactions, i: nat, lo: nat, hi: nat, h: int)
    requires WheelOk(w) && FarAt(w, i, h) && h <= lo + SLOTS * w.perSlot && ReactionsIn(react, lo, hi)
    ensures FarAt(Advance(w, react), i, h)
  {
    ShapeOf(w);
    TurnOk(w);
    assert FarAt(Turn(w), i, h) by { hide Far, WheelOk; }
    hide WheelOk, FarAt, VisitAll;
    VisitAllFar(Turn(w), Due(w), react, i, lo, hi, h);
  }

  lemma {:induction false} AdvanceManyFar(w: Wheel, n: nat, reacts: nat -> Reactions, s: nat, i: nat, lo: nat, hi: nat, h: int)
    requires WheelOk(w) && n <= SLOTS && FarAt(w, i, h) && h <= lo + SLOTS * w.perSlot
    requires forall s :: ReactionsIn(reacts(s), lo, hi)
    ensures FarAt(AdvanceMany(w, n, reacts, s).0, i, h)
    decreases n
  {
    hide WheelOk, FarAt, Advance, ReactionsIn;
    if n > 0 {
      ShapeOf(w);
      AdvanceFar(w, reacts(s), i, lo, hi, h);
      AdvanceManyFar(Advance(w, reacts(s)), n - 1, reacts, s + 1, i, lo, hi, h);
    }
  }

  lemma DrainFar(w: Wheel, times: nat -> (nat, nat), i: nat, lo: nat, hi: nat, h: int)
    requires WheelOk(w) && h <= lo + SLOTS * w.perSlot && forall i :: lo <= times(i).0 <= times(i).1 <= hi
    ensures FarAt(DrainOverflow(w, times), i, h)
  {
    hide WheelOk, VisitAll, On;
    ShapeOf(w);
    UnhookOk(w);
    assert FarAt(Unhook(w), i, h);
    forall j ensures ReactionIn(Rehash(times)(j), lo, hi) {}
    hide FarAt;
    VisitAllFar(Unhook(w), w.chains[OVERFLOW], Rehash(times), i, lo, hi, h);
  }

  /** last_tick_tsc never passes the clock. */
  lemma TickNotAhead(w: Wheel, now: nat)
    requires Shape(w) && w.lastTick <= now
    ensures w.lastTick + SlotsToAdvance(w, now) * w.perSlot <= now
  {
    var q := (now - w.lastTick) / w.perSlot;
    QuotientWithin(now - w.lastTick, w.perSlot);
    assert q % U32 <= q;
    MulMonotone(SlotsToAdvance(w, now), q, w.perSlot);
  }

  lemma HorizonMoves(w: Wheel, w': Wheel, n: nat)
    requires w'.lastTick == w.lastTick + n * w.perSlot && w'.perSlot == w.perSlot && w'.current == w.current + n
    ensures Horizon(w') == Horizon(w)
  {
    var k := SLOTS - w.current;
    assert (k - n) * w.perSlot == k * w.perSlot - n * w.perSlot;
  }

  lemma HorizonBound(w: Wheel, now: nat)
    requires w.lastTick <= now && w.current <= SLOTS
    ensures Horizon(w) <= now + SLOTS * w.perSlot
  {
    MulMonotone(SLOTS - w.current, SLOTS, w.perSlot);
  }

  lemma TickKeepsClock(w: Wheel, e: Event, i: nat, clock: nat, next: nat)
    requires ClockOk(w, i, clock) && Timely(e, clock, next) && e.TickAt?
    ensures ClockOk(StepWheel(w, e).0, i, next)
  {
    ShapeOf(w);
    var n := SlotsToAdvance(w, e.now);
    TickNotAhead(w, e.now);
    if n == 0 {
      assert StepWheel(w, e).0 == w;
    } else {
      hide FarAt, SlotsToAdvance, StepWheel, AdvanceMany, DrainOverflow, WheelOk, Horizon, ReactionsIn, SlotAfter;
      TickUnfold(w, e);
      TickedFar(w, n, i, Horizon(w));
      WrapCases(w.current, n);
      var w1 := Ticked(w, n);
      var w2 := AdvanceMany(w1, n, e.reacts, 0).0;
      if w.current + n < SLOTS {
        HorizonBound(w, e.now);
        AdvanceManyFar(w1, n, e.reacts, 0, i, e.now, next, Horizon(w));
        HorizonMoves(w, w2, n);
      } else {
        var w3 := DrainOverflow(w2, e.times);
        HorizonBound(w3, e.now);
        DrainFar(w2, e.times, i, e.now, next, Horizon(w3));
      }
    }
  }

  lemma TickedFar(w: Wheel, n: nat, i: nat, h: int)
    requires WheelOk(w) && FarAt(w, i, h)
    ensures FarAt(Ticked(w, n), i, h)
  {
    TickedOk(w, n);
    hide WheelOk, On, Far;
  }

  lemma StepKeepsClock(w: Wheel, e: Event, i: nat, clock: nat, next: nat)
    requires ClockOk(w, i, clock) && Timely(e, clock, next) && Disciplined(e, i)
    ensures ClockOk(StepWheel(w, e).0, i, next)
  {
    ShapeOf(w);
    match e
    case TickAt(_, _, _) => TickKeepsClock(w, e, i, clock, next);
    case Touch(j, acts) =>
      if j < |w.records| {
        FireOk(w, j, acts);
        HorizonBound(w, clock);
        hide WheelOk, FarAt, Fire, Far;
        if j == i { FireFar(w, i, acts, clock, next, Horizon(w)); } else { OthersFar(w, Fire(w, j, acts), j, i, Horizon(w)); }
      }
    case Open(j) =>
      if j < |w.records| && !w.records[j].inUse {
        OpenOk(w, j);
        hide WheelOk;
        if j != i { OthersFar(w, Opened(w, j), j, i, Horizon(w)); }
      }
    case ResetAll => ClearedOk(w);
  }

  lemma ClockedTail(es: seq<Event>, clocks: seq<nat>)
    requires Clocked(es, clocks) && es != []
    ensures Timely(es[0], clocks[0], clocks[1]) && Clocked(es[1..], clocks[1..]) && clocks[1..][0] == clocks[1]
    ensures clocks[1..][|es[1..]|] == clocks[|es|]
  {
    hide Timely;
    forall k | 0 <= k < |es[1..]| ensures Timely(es[1..][k], clocks[1..][k], clocks[1..][k + 1]) {
      assert es[1..][k] == es[k + 1];
    }
  }

  predicate AllDisciplined(es: seq<Event>, i: nat) { forall k :: 0 <= k < |es| ==> Disciplined(es[k], i) }

  lemma {:induction false} RunKeepsClock(w: Wheel, es: seq<Event>, clocks: seq<nat>, i: nat)
    requires Clocked(es, clocks) && AllDisciplined(es, i) && ClockOk(w, i, clocks[0])
    ensures ClockOk(Exec(w, es).0, i, clocks[|es|])
    decreases |es|
  {
    if es != [] {
      ClockedTail(es, clocks);
      assert Disciplined(es[0], i) && AllDisciplined(es[1..], i);
      StepKeepsClock(w, es[0], i, clocks[0], clocks[1]);
      assert Exec(w, es).0 == Exec(StepWheel(w, es[0]).0, es[1..]).0;
      hide StepWheel, Timely, Disciplined, FarAt, Exec, WheelOk;
      RunKeepsClock(StepWheel(w, es[0]).0, es[1..], clocks[1..], i);
    }
  }

  lemma InitialClock(w: Wheel, i: nat)
    requires Initial(w)
    ensures ClockOk(w, i, w.lastTick)
  {
    assert forall c: int, j: nat :: !On(w, c, j);
  }

  // ---------------------------------------------------------- two revolutions

  /** Record i has a deadline, and it has passed at every tick of the run. */
  ghost predicate OverdueThroughout(w: Wheel, es: seq<Event>, i: nat)
    requires i < |w.records|
  {
    forall k :: 0 <= k < |es| && es[k].TickAt? ==> PastDue(w.records[i].timers, w.hz, es[k].now)
  }

  predicate PastDue(t: Timers, hz: nat, now: nat) {
    Earliest(t, hz, now).Some? && Earliest(t, hz, now).value <= now
  }

  /** The wheel was not stalled for 2^32 slots: the 32-bit count of elapsed slots is exact. */
  predicate Prompt(w: Wheel, now: nat)
    requires w.perSlot > 0
  {
    now < w.lastTick + U32 * w.perSlot
  }

  /** A deadline in overflow passes only when the wheel is about to wrap. */
  lemma OverdueWraps(w: Wheel, i: nat, clock: nat, now: nat)
    requires ClockOk(w, i, clock) && On(w, OVERFLOW, i) && clock <= now && w.perSlot > 0 && Prompt(w, now)
    requires i < |w.records| && PastDue(w.records[i].timers, w.hz, now)
    ensures Shape(w) && SlotsToAdvance(w, now) > 0 && w.current + SlotsToAdvance(w, now) >= SLOTS
  {
    ShapeOf(w);
    var t := w.records[i].timers;
    assert Far(t, w.hz, Horizon(w));
    SameDeadline(t, w.hz, now, 0);
    hide Earliest, WheelOk, On;
    var k := SLOTS - w.current;
    assert now >= w.lastTick + k * w.perSlot;
    var q := (now - w.lastTick) / w.perSlot;
    QuotientAtLeast(now - w.lastTick, w.perSlot, k);
    QuotientBelow(now - w.lastTick, w.perSlot, U32);
    assert q % U32 == q;
  }

  lemma QuotientBelow(x: nat, d: nat, m: nat)
    requires d > 0 && x < m * d
    ensures x / d < m
  {
    QuotientWithin(x, d);
    if m <= x / d { MulMonotone(m, x / d, d); }
  }

  /** The first tick of the run, if any. */
  function FirstTick(es: seq<Event>): nat {
    if es == [] || es[0].TickAt? then 0 else 1 + FirstTick(es[1..])
  }

  /**
   * No timer is lost: an overdue record nobody touches reaches timer_fire
   * within one revolution of advances from a slot, and from the overflow chain
   * at exactly the revolution after the first tick, which takes at most two revolutions in all.
   */
  lemma OverdueReached(w: Wheel, es: seq<Event>, clocks: seq<nat>, i: nat, c: nat)
    requires Clocked(es, clocks) && ClockOk(w, i, clocks[0]) && On(w, c, i) && AllUntouched(es, i)
    requires i < |w.records| && OverdueThroughout(w, es, i) && w.perSlot > 0
    requires FirstTick(es) < |es| ==> es[FirstTick(es)].TickAt? && Prompt(w, es[FirstTick(es)].now)
    ensures var visits := Exec(w, es).1;
            && (c < SLOTS && |visits| >= SLOTS ==> VisitedWithin(visits, i, SLOTS))
            && (c == OVERFLOW && |visits| >= 2 * SLOTS ==> VisitedWithin(visits, i, 2 * SLOTS))
  {
    assert WheelOk(w);
    if c < SLOTS {
      hide WheelOk, On, Exec, VisitedWithin, ClockOk;
      SlotReached(w, es, i, c);
    } else {
      assert c == OVERFLOW;
      hide WheelOk, On, Exec, VisitedWithin, ClockOk, OverdueThroughout;
      OverflowReached(w, es, clocks, i);
    }
  }

  lemma {:induction false} OverflowReached(w: Wheel, es: seq<Event>, clocks: seq<nat>, i: nat)
    requires Clocked(es, clocks) && ClockOk(w, i, clocks[0]) && On(w, OVERFLOW, i) && AllUntouched(es, i)
    requires i < |w.records| && OverdueThroughout(w, es, i) && w.perSlot > 0
    requires FirstTick(es) < |es| ==> es[FirstTick(es)].TickAt? && Prompt(w, es[FirstTick(es)].now)
    ensures WheelOk(w)
    ensures |Exec(w, es).1| >= 2 * SLOTS ==> VisitedWithin(Exec(w, es).1, i, 2 * SLOTS)
    decreases |es|
  {
    assert WheelOk(w);
    if es == [] {
      ExecNothing(w, es);
    } else {
      ClockedTail(es, clocks);
      TailUntouched(es, i);
      OverdueTail(w, es, i);
      UntouchedDisciplined(es[0], i);
      StepKeepsClock(w, es[0], i, clocks[0], clocks[1]);
      ExecCons(w, es[0], es);
      if es[0].TickAt? {
        FirstTickReaches(w, es, clocks[0], clocks[1], i);
      } else {
        QuietStep(w, es[0], i);
        hide StepWheel, Timely, Exec, ClockOk, On, WheelOk, VisitedWithin, OverdueThroughout, AllUntouched, Untouched;
        var w1 := StepWheel(w, es[0]).0;
        OverdueSame(w, w1, es[1..], i);
        OverflowReached(w1, es[1..], clocks[1..], i);
        assert [] + Exec(w1, es[1..]).1 == Exec(w1, es[1..]).1;
      }
    }
  }

  lemma UntouchedDisciplined(e: Event, i: nat)
    requires Untouched(e, i)
    ensures Disciplined(e, i)
  {
  }

  lemma OverdueTail(w: Wheel, es: seq<Event>, i: nat)
    requires i < |w.records| && OverdueThroughout(w, es, i) && es != []
    ensures OverdueThroughout(w, es[1..], i) && (es[0].TickAt? ==> PastDue(w.records[i].timers, w.hz, es[0].now))
  {
    hide PastDue;
    forall k | 0 <= k < |es[1..]| && es[1..][k].TickAt? ensures PastDue(w.records[i].timers, w.hz, es[1..][k].now) {
      assert es[1..][k] == es[k + 1];
    }
  }

  lemma OverdueSame(w: Wheel, w1: Wheel, es: seq<Event>, i: nat)
    requires i < |w.records| == |w1.records| && w1.records[i] == w.records[i] && w1.hz == w.hz && OverdueThroughout(w, es, i)
    ensures OverdueThroughout(w1, es, i)
  {
    hide PastDue;
  }

  /** An event that is no tick leaves an untouched record and the clockwork alone. */
  lemma QuietStep(w: Wheel, e: Event, i: nat)
    requires WheelOk(w) && On(w, OVERFLOW, i) && Untouched(e, i) && !e.TickAt?
    ensures var r := StepWheel(w, e);
            && r.1 == [] && On(r.0, OVERFLOW, i) && i < |w.records| && r.0.records[i] == w.records[i]
            && r.0.hz == w.hz && r.0.perSlot == w.perSlot && r.0.lastTick == w.lastTick && r.0.current == w.current
  {
    match e
    case Touch(j, acts) => if j < |w.records| { FireOk(w, j, acts); }
    case Open(j) => if j < |w.records| && !w.records[j].inUse { OpenOk(w, j); }
  }

  /**
   * The first tick, of n slots, re-hashes the record into the slot just passed:
   * it is visited at exactly advance n + 4096.
   */
  lemma VisitedAfterRehash(w: Wheel, es: seq<Event>, clock: nat, next: nat, i: nat)
    requires WheelOk(w) && ClockOk(w, i, clock) && On(w, OVERFLOW, i) && es != [] && es[0].TickAt?
    requires Timely(es[0], clock, next) && AllUntouched(es[1..], i) && w.perSlot > 0 && Prompt(w, es[0].now)
    requires i < |w.records| && PastDue(w.records[i].timers, w.hz, es[0].now)
    ensures Shape(w)
    ensures var n := SlotsToAdvance(w, es[0].now);
            var visits := Exec(w, es).1;
            && SLOTS - w.current <= n <= SLOTS
            && NotIn(visits, i, n + SLOTS - 1) && (|visits| >= n + SLOTS ==> i in visits[n + SLOTS - 1])
  {
    assert SLOTS == 4096;
    hide *;
    var e := es[0];
    RehashedInto(w, e, clock, next, i);
    ExecCons(w, e, es);
    var r := StepWheel(w, e);
    var rest := Exec(r.0, es[1..]).1;
    FullTurn(r.0.current);
    CurrentInRange(r.0);
    VisitedExactlyWhenDue(r.0, es[1..], i, r.0.current);
    NotInMore(r.1, i, |r.1| + SLOTS - 1);
    NotInAppend(r.1, rest, i, |r.1| + SLOTS - 1);
  }

  lemma RehashedInto(w: Wheel, e: Event, clock: nat, next: nat, i: nat)
    requires WheelOk(w) && ClockOk(w, i, clock) && On(w, OVERFLOW, i) && e.TickAt?
    requires Timely(e, clock, next) && w.perSlot > 0 && Prompt(w, e.now)
    requires i < |w.records| && PastDue(w.records[i].timers, w.hz, e.now)
    ensures Shape(w)
    ensures var n := SlotsToAdvance(w, e.now);
            var r := StepWheel(w, e);
            && SLOTS - w.current <= n <= SLOTS && |r.1| == n
            && NotIn(r.1, i, n) && On(r.0, r.0.current, i)
  {
    assert clock <= e.now && e.now <= e.times(i).0 <= e.times(i).1;
    OverdueWraps(w, i, clock, e.now);
    var t := w.records[i].timers;
    assert Far(t, w.hz, Horizon(w));
    SameDeadline(t, w.hz, e.now, e.times(i).0);
    assert OverdueAt(w, e, i);
    hide WheelOk, ClockOk, Timely, Earliest, On, NotIn, StepWheel, SlotsToAdvance, PastDue;
    TickOverflow(w, e, i);
    TickClock(w, e);
  }

  lemma CurrentInRange(w: Wheel)
    requires WheelOk(w)
    ensures w.current < SLOTS
  {
  }

  lemma NotInMore(visits: seq<seq<nat>>, i: nat, k: nat)
    requires NotIn(visits, i, |visits|)
    ensures NotIn(visits, i, k)
  {
  }

  lemma FirstTickReaches(w: Wheel, es: seq<Event>, clock: nat, next: nat, i: nat)
    requires WheelOk(w) && ClockOk(w, i, clock) && On(w, OVERFLOW, i) && es != [] && es[0].TickAt?
    requires Timely(es[0], clock, next) && AllUntouched(es[1..], i) && w.perSlot > 0 && Prompt(w, es[0].now)
    requires i < |w.records| && PastDue(w.records[i].timers, w.hz, es[0].now)
    ensures |Exec(w, es).1| >= 2 * SLOTS ==> VisitedWithin(Exec(w, es).1, i, 2 * SLOTS)
  {
    hide WheelOk, ClockOk, Timely, AllUntouched, PastDue, Exec, NotIn, On, Prompt;
    VisitedAfterRehash(w, es, clock, next, i);
    var n := SlotsToAdvance(w, es[0].now);
    var visits := Exec(w, es).1;
    if |visits| >= 2 * SLOTS { assert i in visits[n + SLOTS - 1]; }
  }

  /**
   * The same from initialisation: after any clocked run in which record i is
   * rescheduled whenever its timers change, if i is on the wheel and overdue it
   * is visited within two revolutions of slot advances.
   */
  lemma TwoRevolutions(w: Wheel, es: seq<Event>, clocks: seq<nat>, fs: seq<Event>, times: seq<nat>, i: nat, c: nat)
    requires Initial(w) && Clocked(es, clocks) && clocks[0] == w.lastTick && AllDisciplined(es, i)
    ensures WheelOk(w)
    ensures var w1 := Exec(w, es).0;
            Clocked(fs, times) && times[0] == clocks[|es|] && On(w1, c, i) && i < |w1.records| && AllUntouched(fs, i)
            && w1.perSlot > 0 && OverdueThroughout(w1, fs, i)
            && (FirstTick(fs) < |fs| ==> fs[FirstTick(fs)].TickAt? && Prompt(w1, fs[FirstTick(fs)].now))
            && |Exec(w1, fs).1| >= 2 * SLOTS
            ==> VisitedWithin(Exec(w1, fs).1, i, 2 * SLOTS)
  {
    InitialClock(w, i);
    RunKeepsClock(w, es, clocks, i);
    var w1 := Exec(w, es).0;
    if Clocked(fs, times) && times[0] == clocks[|es|] && On(w1, c, i) && i < |w1.records| && AllUntouched(fs, i)
       && w1.perSlot > 0 && OverdueThroughout(w1, fs, i)
       && (FirstTick(fs) < |fs| ==> fs[FirstTick(fs)].TickAt? && Prompt(w1, fs[FirstTick(fs)].now))
       && |Exec(w1, fs).1| >= 2 * SLOTS
    {
      assert c <= OVERFLOW == SLOTS;
      hide Exec, Initial, Clocked, OverdueThroughout, AllUntouched, VisitedWithin, On, WheelOk, ClockOk;
      OverdueReached(w1, fs, times, i, c);
      if c < SLOTS { VisitedSooner(Exec(w1, fs).1, i, SLOTS, 2 * SLOTS); }
    }
  }

  // ------------------------------------------------------- without discipline

  /**
   * k events end with the first tick that wraps, with the current slot at e;
   * the record is visited at exactly advance 2 * 4096 - current + e.
   */
  ghost predicate AfterWrap(w: Wheel, es: seq<Event>, i: nat, k: nat)
    requires WheelOk(w)
  {
    && k <= |es|
    && var x := Exec(w, es[..k]);
       var visits := Exec(w, es).1;
       && |x.1| == SLOTS - w.current + x.0.current
       && NotIn(visits, i, |x.1| + SLOTS - 1)
       && (|visits| >= |x.1| + SLOTS ==> i in visits[|x.1| + SLOTS - 1])
  }

  /**
   * A handler that changes timers without rescheduling, as the first request of a
   * connection and the start of streaming do (tcp_fsm.c:803, 827, 987;
   * server.c:249), can make a record in overflow overdue at once. Then it waits for the first tick that
   * wraps and a revolution more: two revolutions in all suffice if and only if
   * that tick leaves the wheel at or before the slot it started from.
   */
  lemma {:induction false} VisitedAfterWrap(w: Wheel, es: seq<Event>, i: nat) returns (k: nat)
    requires WheelOk(w) && On(w, OVERFLOW, i) && i < |w.records| && AllUntouched(es, i)
    requires forall j :: 0 <= j < |es| ==> OverdueAt(w, es[j], i)
    requires |Exec(w, es).1| >= SLOTS - w.current
    ensures AfterWrap(w, es, i, k)
    ensures var x := Exec(w, es[..k]); |x.1| + SLOTS <= 2 * SLOTS <==> x.0.current <= w.current
    decreases |es|
  {
    k := FindWrap(w, es, i);
    hide Exec, NotIn, WheelOk;
  }

  lemma {:induction false} FindWrap(w: Wheel, es: seq<Event>, i: nat) returns (k: nat)
    requires WheelOk(w) && On(w, OVERFLOW, i) && i < |w.records| && AllUntouched(es, i)
    requires forall j :: 0 <= j < |es| ==> OverdueAt(w, es[j], i)
    requires |Exec(w, es).1| >= SLOTS - w.current
    ensures AfterWrap(w, es, i, k)
    decreases |es|
  {
    ShapeOf(w);
    ExecLength(w, es);
    assert OverdueAt(w, es[0], i);
    OverdueLater(w, es, i);
    TailUntouched(es, i);
    hide WheelOk, On, OverdueAt, StepWheel, Exec, AfterWrap, NotIn, AllUntouched, Untouched;
    ExecCons(w, es[0], es);
    OverflowEither(w, es[0], i);
    var r := StepWheel(w, es[0]);
    if w.current + |r.1| < SLOTS {
      OverdueMoved(w, r.0, es[1..], i);
      var k1 := FindWrap(r.0, es[1..], i);
      k := k1 + 1;
      WrapLater(w, es, i, k1, k);
    } else {
      k := 1;
      WrapNow(w, es, i);
    }
  }

  lemma WrapLater(w: Wheel, es: seq<Event>, i: nat, k1: nat, k: nat)
    requires WheelOk(w) && es != [] && k == k1 + 1
    requires var r := StepWheel(w, es[0]);
             NotIn(r.1, i, |r.1|) && r.0.current == w.current + |r.1| && AfterWrap(r.0, es[1..], i, k1)
    ensures AfterWrap(w, es, i, k)
  {
    hide WheelOk, StepWheel, Exec, NotIn;
    ExecCons(w, es[0], es);
    ExecPrefix(w, es, k);
    var r := StepWheel(w, es[0]);
    var x := Exec(r.0, es[1..][..k1]);
    var rest := Exec(r.0, es[1..]).1;
    NotInMore(r.1, i, |r.1| + |x.1| + SLOTS - 1);
    NotInAppend(r.1, rest, i, |r.1| + |x.1| + SLOTS - 1);
  }

  lemma WrapNow(w: Wheel, es: seq<Event>, i: nat)
    requires WheelOk(w) && es != [] && AllUntouched(es[1..], i)
    requires var r := StepWheel(w, es[0]);
             NotIn(r.1, i, |r.1|) && On(r.0, r.0.current, i) && r.0.current == w.current + |r.1| - SLOTS
    ensures AfterWrap(w, es, i, 1)
  {
    hide WheelOk, StepWheel, Exec, NotIn, On, AllUntouched, Distance;
    ExecCons(w, es[0], es);
    ExecPrefix(w, es, 1);
    var r := StepWheel(w, es[0]);
    ExecNothing(r.0, es[1..][..0]);
    FullTurn(r.0.current);
    CurrentInRange(r.0);
    VisitedExactlyWhenDue(r.0, es[1..], i, r.0.current);
    NotInMore(r.1, i, |r.1| + SLOTS - 1);
    NotInAppend(r.1, Exec(r.0, es[1..]).1, i, |r.1| + SLOTS - 1);
  }

  lemma ExecLength(w: Wheel, es: seq<Event>)
    requires WheelOk(w) && |Exec(w, es).1| >= SLOTS - w.current && w.current < SLOTS
    ensures es != []
  {
    hide WheelOk;
  }

  lemma OverdueLater(w: Wheel, es: seq<Event>, i: nat)
    requires i < |w.records| && forall j :: 0 <= j < |es| ==> OverdueAt(w, es[j], i)
    ensures es != [] ==> forall j :: 0 <= j < |es[1..]| ==> OverdueAt(w, es[1..][j], i)
  {
    hide OverdueAt;
    if es != [] {
      forall j | 0 <= j < |es[1..]| ensures OverdueAt(w, es[1..][j], i) { assert es[1..][j] == es[j + 1]; }
    }
  }

  lemma OverdueMoved(w: Wheel, w1: Wheel, es: seq<Event>, i: nat)
    requires i < |w.records| == |w1.records| && w1.records[i] == w.records[i] && w1.hz == w.hz
    requires forall j :: 0 <= j < |es| ==> OverdueAt(w, es[j], i)
    ensures forall j :: 0 <= j < |es| ==> OverdueAt(w1, es[j], i)
  {
    forall j | 0 <= j < |es| ensures OverdueAt(w1, es[j], i) { assert OverdueAt(w, es[j], i); }
  }

  lemma ExecPrefix(w: Wheel, es: seq<Event>, k: nat)
    requires WheelOk(w) && 0 < k <= |es|
    ensures var r := StepWheel(w, es[0]);
            var x := Exec(r.0, es[1..][..k - 1]);
            Exec(w, es[..k]) == (x.0, r.1 + x.1)
  {
    hide WheelOk, StepWheel;
    assert es[..k][1..] == es[1..][..k - 1];
  }

  /** One event on an overdue record of the overflow chain: still there, or in the slot just passed after a wrap. */
  lemma OverflowEither(w: Wheel, e: Event, i: nat)
    requires WheelOk(w) && On(w, OVERFLOW, i) && i < |w.records| && Untouched(e, i) && OverdueAt(w, e, i)
    ensures var r := StepWheel(w, e);
            && NotIn(r.1, i, |r.1|) && r.0.records[i] == w.records[i] && r.0.hz == w.hz && |r.1| <= SLOTS
            && (w.current + |r.1| < SLOTS ==> On(r.0, OVERFLOW, i) && r.0.current == w.current + |r.1|)
            && (w.current + |r.1| >= SLOTS ==> On(r.0, r.0.current, i) && r.0.current == w.current + |r.1| - SLOTS)
  {
    ShapeOf(w);
    if e.TickAt? {
      TickOverflow(w, e, i);
      TickClock(w, e);
      hide WheelOk, On, NotIn, Earliest, OverdueAt;
      TickCurrent(w, e);
    } else {
      QuietStep(w, e, i);
      NotInEmpty(i, 0);
    }
  }

  lemma TickCurrent(w: Wheel, e: Event)
    requires WheelOk(w) && e.TickAt?
    ensures var r := StepWheel(w, e);
            |r.1| <= SLOTS && w.current < SLOTS
            && r.0.current == if w.current + |r.1| < SLOTS then w.current + |r.1| else w.current + |r.1| - SLOTS
  {
    hide WheelOk, SlotsToAdvance, Tick;
    ShapeOf(w);
    var n := SlotsToAdvance(w, e.now);
    var r := StepWheel(w, e);
    assert r.0.current == SlotAfter(w.current, n) && |r.1| == n;
    hide StepWheel;
    if n > 0 { WrapCases(w.current, n); } else { WrapZero(w.current); }
  }

  // ------------------------------------------------------ two are not enough

  /** A tick during which the clock stands still and no callback does anything. */
  function TickNow(now: nat): Event {
    TickAt(now, (s: nat) => ((i: nat) => Reaction([], now, now)), (i: nat) => (now, now))
  }

  lemma TickNowTimely(clock: nat, now: nat)
    requires clock <= now
    ensures Timely(TickNow(now), clock, now)
  {
  }

  lemma TickNowCount(w: Wheel, n: nat)
    requires Shape(w) && n <= SLOTS
    ensures SlotsToAdvance(w, w.lastTick + n * w.perSlot) == n
  {
    QuotientUnique(n * w.perSlot, w.perSlot, n, 0);
  }

  /** A connection that serves, with its retransmission timer 5000 slots ahead; and the same while streaming. */
  function Waiting(w: Wheel): Timers { Timers(w.lastTick + 5000 * w.perSlot + 1, 0, 0, 0, true, 11) }

  function Pumping(w: Wheel): Timers { Waiting(w).(app := 12) }

  /** A record opened, armed and rescheduled, whose connection then starts to stream. */
  function LateStart(w: Wheel): seq<Event> {
    [Open(0), Touch(0, [SetTimers(Waiting(w)), DoResched(w.lastTick, w.lastTick)]), Touch(0, [SetTimers(Pumping(w))])]
  }

  /** Two ticks that are about a revolution apart, and one more. */
  function LateTicks(w: Wheel): seq<Event> {
    [TickNow(w.lastTick + 4000 * w.perSlot), TickNow(w.lastTick + 8096 * w.perSlot), TickNow(w.lastTick + 12192 * w.perSlot)]
  }

  lemma WaitingIsFar(w: Wheel)
    requires Shape(w)
    ensures Earliest(Waiting(w), w.hz, w.lastTick) == Some(w.lastTick + 5000 * w.perSlot + 1)
    ensures Target(w, w.lastTick + 5000 * w.perSlot + 1, w.lastTick) == OVERFLOW
  {
    FarTarget(w, w.lastTick + 5000 * w.perSlot + 1, w.lastTick);
    hide Target;
  }

  lemma FarTarget(w: Wheel, d: nat, now: nat)
    requires Shape(w) && d == now + 5000 * w.perSlot + 1
    ensures Target(w, d, now) == OVERFLOW
  {
    QuotientAtLeast(d - now, w.perSlot, 5000);
    QuotientAtMost(d - now, w.perSlot, 5001);
    var ahead := (d - now) / w.perSlot;
    assert ahead % U32 == ahead;
  }

  lemma LateStartPlaces(w: Wheel) returns (w': Wheel)
    requires Initial(w) && |w.records| > 0
    ensures WheelOk(w) && Exec(w, LateStart(w)) == (w', []) && WheelOk(w') && On(w', OVERFLOW, 0)
    ensures |w'.records| == |w.records| && w'.records[0] == Record(true, Pumping(w))
    ensures w' == w.(chains := w'.chains, records := w'.records)
  {
    assert forall c: int, i: nat :: !On(w, c, i);
    var w1 := Opened(w, 0);
    OpenOk(w, 0);
    var w2 := Armed(w1, Waiting(w), w.lastTick);
    WaitingIsFar(w);
    w' := w2.(records := w2.records[0 := Record(true, Pumping(w))]);
    FireOk(w2, 0, [SetTimers(Pumping(w))]);
    assert [SetTimers(Pumping(w))][1..] == [];
    assert Fire(w2, 0, [SetTimers(Pumping(w))]) == w';
    assert On(w', OVERFLOW, 0);
    hide WheelOk, On, Initial, Resched, Earliest, Fire;
    var es := LateStart(w);
    assert es[1..][1..] == es[2..] && es[2..][1..] == [];
    ExecOne(w, es, w1);
    ExecOne(w1, es[1..], w2);
    ExecOne(w2, es[2..], w');
  }

  /** A handler that sets the timers of record 0 and reschedules it. */
  lemma Armed(w: Wheel, t: Timers, now: nat) returns (w': Wheel)
    requires WheelOk(w) && |w.records| > 0 && w.records[0].inUse && Earliest(t, w.hz, now).Some?
    ensures StepWheel(w, Touch(0, [SetTimers(t), DoResched(now, now)])) == (w', []) && WheelOk(w') && Shape(w)
    ensures On(w', Target(w, Earliest(t, w.hz, now).value, now), 0)
    ensures |w'.records| == |w.records| && w'.records[0] == Record(true, t)
    ensures w' == w.(chains := w'.chains, records := w'.records)
  {
    ShapeOf(w);
    var acts := [SetTimers(t), DoResched(now, now)];
    FireOk(w, 0, acts[..1]);
    var w1 := w.(records := w.records[0 := Record(true, t)]);
    assert acts[..1][1..] == [] && Fire(w, 0, acts[..1]) == w1;
    ReschedOk(w1, 0, now, now);
    w' := Resched(w1, 0, now, now);
    hide WheelOk, On, Earliest;
    assert acts[1..][0] == DoResched(now, now) && acts[1..][1..] == [];
    assert Fire(w', 0, []) == w' && Fire(w1, 0, acts[1..]) == w';
  }

  lemma ExecOne(w: Wheel, es: seq<Event>, w': Wheel)
    requires WheelOk(w) && es != [] && StepWheel(w, es[0]) == (w', []) && WheelOk(w')
    ensures Exec(w, es) == Exec(w', es[1..])
  {
    hide WheelOk, StepWheel;
    var r := Exec(w', es[1..]);
    assert [] + r.1 == r.1;
  }

  /** One tick of the late run. */
  lemma LateTick(w: Wheel, now: nat, n: nat) returns (w': Wheel)
    requires WheelOk(w) && n <= SLOTS && now == w.lastTick + n * w.perSlot
    ensures StepWheel(w, TickNow(now)).0 == w' && |StepWheel(w, TickNow(now)).1| == n
    ensures WheelOk(w') && w'.lastTick == now && w'.perSlot == w.perSlot
  {
    ShapeOf(w);
    TickNowCount(w, n);
    hide WheelOk, StepWheel, SlotsToAdvance;
    TickClock(w, TickNow(now));
    w' := StepWheel(w, TickNow(now)).0;
  }

  lemma ExecLengths(w: Wheel, es: seq<Event>, k: nat)
    requires WheelOk(w) && 0 < k <= |es|
    ensures |Exec(w, es[..k]).1| == |StepWheel(w, es[0]).1| + |Exec(StepWheel(w, es[0]).0, es[1..][..k - 1]).1|
  {
    hide WheelOk, StepWheel, Exec;
    ExecPrefix(w, es, k);
  }

  /** How far the wheel is after each tick. */
  lemma LateLengths(w: Wheel, fs: seq<Event>, p: nat)
    requires WheelOk(w) && p == w.perSlot && |fs| == 3 && fs[0] == TickNow(w.lastTick + 4000 * p)
    requires fs[1] == TickNow(w.lastTick + 8096 * p) && fs[2] == TickNow(w.lastTick + 12192 * p)
    ensures |Exec(w, fs[..0]).1| == 0 && |Exec(w, fs[..1]).1| == 4000
    ensures |Exec(w, fs[..2]).1| == 8096 && |Exec(w, fs[..3]).1| == 12192
  {
    hide WheelOk, StepWheel, Exec;
    var w1 := LateTick(w, w.lastTick + 4000 * p, 4000);
    var w2 := LateTick(w1, w.lastTick + 8096 * p, 4096);
    var w3 := LateTick(w2, w.lastTick + 12192 * p, 4096);
    ExecNothing(w, fs[..0]);
    ExecNothing(w1, fs[1..][..0]);
    ExecNothing(w2, fs[1..][1..][..0]);
    ExecNothing(w3, fs[1..][1..][1..][..0]);
    ExecLengths(w2, fs[1..][1..], 1);
    ExecLengths(w1, fs[1..], 1);
    ExecLengths(w1, fs[1..], 2);
    ExecLengths(w, fs, 1);
    ExecLengths(w, fs, 2);
    ExecLengths(w, fs, 3);
  }

  /**
   * The clocked run in which two revolutions are not enough, on every wheel: the
   * start of streaming leaves a record in overflow that is overdue at once, and
   * two ticks of about a revolution each let it wait until advance 12192.
   */
  lemma StreamingVisitedLate(w: Wheel) returns (clocks: seq<nat>)
    requires Initial(w) && w.current == 0 && |w.records| > 0
    ensures WheelOk(w) && Clocked(LateStart(w) + LateTicks(w), clocks) && clocks[0] == w.lastTick
    ensures var (w1, none) := Exec(w, LateStart(w));
            var visits := Exec(w1, LateTicks(w)).1;
            && none == [] && On(w1, OVERFLOW, 0) && |w1.records| > 0 && OverdueThroughout(w1, LateTicks(w), 0)
            && |visits| == 12192 && NotIn(visits, 0, 12191) && 0 in visits[12191]
  {
    hide WheelOk, On, Exec, NotIn, OverdueAt, Earliest, Initial, Clocked, AfterWrap, OverdueThroughout, TickNow, AllUntouched;
    var p, l, fs := w.perSlot, w.lastTick, LateTicks(w);
    clocks := [l, l, l, l, l + 4000 * p, l + 8096 * p, l + 12192 * p];
    LateClocked(w, clocks);
    var w1 := LateStartPlaces(w);
    LateLengths(w1, fs, p);
    assert fs[..3] == fs;
    LateOverdue(w1, w);
    hide LateTicks, LateStart;
    var k := VisitedAfterWrap(w1, fs, 0);
    LateWrap(w1, fs, k);
  }

  lemma LateOverdue(w1: Wheel, w: Wheel)
    requires |w1.records| > 0 && w1.records[0].timers == Pumping(w)
    ensures OverdueThroughout(w1, LateTicks(w), 0) && AllUntouched(LateTicks(w), 0)
    ensures forall j :: 0 <= j < |LateTicks(w)| ==> OverdueAt(w1, LateTicks(w)[j], 0)
  {
  }

  lemma LateWrap(w: Wheel, fs: seq<Event>, k: nat)
    requires WheelOk(w) && w.current == 0 && |fs| == 3 && AfterWrap(w, fs, 0, k)
    requires |Exec(w, fs[..0]).1| == 0 && |Exec(w, fs[..1]).1| == 4000
    requires |Exec(w, fs[..2]).1| == 8096 && |Exec(w, fs[..3]).1| == 12192
    ensures var visits := Exec(w, fs).1; |visits| == 12192 && NotIn(visits, 0, 12191) && 0 in visits[12191]
  {
    hide WheelOk, Exec, NotIn;
    assert fs[..3] == fs;
    CurrentInRange(Exec(w, fs[..k]).0);
    assert k == 0 || k == 1 || k == 2 || k == 3;
  }

  lemma LateClocked(w: Wheel, clocks: seq<nat>)
    requires clocks == [w.lastTick, w.lastTick, w.lastTick, w.lastTick, w.lastTick + 4000 * w.perSlot,
                        w.lastTick + 8096 * w.perSlot, w.lastTick + 12192 * w.perSlot]
    ensures Clocked(LateStart(w) + LateTicks(w), clocks)
  {
    var es := LateStart(w) + LateTicks(w);
    MulMonotone(4000, 8096, w.perSlot);
    MulMonotone(8096, 12192, w.perSlot);
    TickNowTimely(clocks[3], clocks[4]);
    TickNowTimely(clocks[4], clocks[5]);
    TickNowTimely(clocks[5], clocks[6]);
    hide TickNow;
    forall k | 0 <= k < |es| ensures Timely(es[k], clocks[k], clocks[k + 1]) {
      assert k == 0 || k == 1 || k == 2 || k == 3 || k == 4 || k == 5;
    }
  }

  // ------------------------------------------------------------------ lateness

  /** last_tick_tsc counts the slot advances of a run. */
  lemma {:induction false} RunClock(w: Wheel, es: seq<Event>)
    requires WheelOk(w)
    ensures var r := Exec(w, es); r.0.lastTick == w.lastTick + |r.1| * w.perSlot && r.0.perSlot == w.perSlot
    decreases |es|
  {
    hide *;
    if es == [] {
      ExecNothing(w, es);
    } else {
      StepClock(w, es[0]);
      ExecCons(w, es[0], es);
      ExecEnd(w, es);
      var r := StepWheel(w, es[0]);
      RunClock(r.0, es[1..]);
      var more := Exec(r.0, es[1..]).1;
      Distribute(|r.1|, |more|, w.perSlot);
    }
  }

  lemma Distribute(a: nat, b: nat, k: nat)
    ensures (a + b) * k == a * k + b * k
  {
  }

  lemma ExecEnd(w: Wheel, es: seq<Event>)
    requires WheelOk(w) && es != []
    ensures Exec(w, es).0 == Exec(StepWheel(w, es[0]).0, es[1..]).0
  {
    hide WheelOk, StepWheel;
  }

  lemma StepClock(w: Wheel, e: Event)
    requires WheelOk(w)
    ensures var r := StepWheel(w, e); r.0.lastTick == w.lastTick + |r.1| * w.perSlot && r.0.perSlot == w.perSlot
  {
    match e
    case TickAt(_, _, _) => TickClock(w, e);
    case Touch(j, acts) => if j < |w.records| { FireOk(w, j, acts); }
    case Open(j) =>
    case ResetAll =>
  }

  /**
   * A run of at least one event that leaves record i alone and whose last
   * event is a tick that makes the a-th advance less than a slot after its time.
   */
  ghost predicate TimelyAdvance(w: Wheel, es: seq<Event>, clocks: seq<nat>, i: nat, a: nat, t: nat)
    requires WheelOk(w)
  {
    && es != [] && Clocked(es, clocks) && t <= clocks[0] && AllUntouched(es, i)
    && var e := es[|es| - 1];
       && e.TickAt? && e.now < w.lastTick + a * w.perSlot + w.perSlot
       && |Exec(w, es[..|es| - 1]).1| < a <= |Exec(w, es).1|
  }

  /** Every timely run makes that advance before the deadline d. */
  ghost predicate EarlyForSure(w: Wheel, i: nat, a: nat, t: nat, d: nat)
    requires WheelOk(w)
  {
    forall es: seq<Event>, clocks: seq<nat> :: TimelyAdvance(w, es, clocks, i, a, t) ==> es[|es| - 1].now < d
  }

  /**
   * Slots ahead are rounded down from the reading t at scheduling, while the
   * wheel counts from last_tick_tsc, which is not after t. A record 1 to 4095 slots
   * ahead is visited by exactly that advance, and a timely tick makes it
   * before the deadline for sure if and only if the two fractions of a
   * slot that were dropped make up a whole one.
   */
  lemma EarlyForSureIff(w: Wheel, i: nat, t0: nat, t: nat, d: nat, a: nat)
    requires WheelOk(w) && i < |w.records| && w.records[i].inUse && Earliest(w.records[i].timers, w.hz, t0) == Some(d)
    requires w.lastTick <= t <= d && w.perSlot > 0 && a == (d - t) / w.perSlot && 1 <= a < SLOTS
    ensures var w' := Resched(w, i, t0, t);
            && WheelOk(w') && w'.lastTick == w.lastTick && w'.perSlot == w.perSlot
            && (forall es: seq<Event>, clocks: seq<nat> ::
                  TimelyAdvance(w', es, clocks, i, a, t) ==> i in Exec(w', es).1[a - 1])
            && (EarlyForSure(w', i, a, t, d) <==> (t - w.lastTick) + (d - t) % w.perSlot >= w.perSlot)
  {
    hide WheelOk, Resched, On, TimelyAdvance, EarlyForSure, Earliest, Distance;
    ShapeOf(w);
    var c := PlacedBy(w, i, t0, t, d, a);
    VisitedThen(Resched(w, i, t0, t), i, a, t, c);
    FractionsAddUp(w.lastTick, t, d, w.perSlot, a);
    EarlyIff(Resched(w, i, t0, t), i, a, t, d, w.lastTick + a * w.perSlot + w.perSlot);
  }

  lemma VisitedThen(w: Wheel, i: nat, a: nat, t: nat, c: nat)
    requires WheelOk(w) && c < SLOTS && On(w, c, i) && Distance(w.current, c) == a
    ensures forall es: seq<Event>, clocks: seq<nat> ::
              TimelyAdvance(w, es, clocks, i, a, t) ==> i in Exec(w, es).1[a - 1]
  {
    hide WheelOk, On, Exec, Clocked, AllUntouched, Distance;
    forall es: seq<Event>, clocks: seq<nat> | TimelyAdvance(w, es, clocks, i, a, t) ensures i in Exec(w, es).1[a - 1] {
      VisitedExactlyWhenDue(w, es, i, c);
    }
  }

  lemma EarlyIff(w: Wheel, i: nat, a: nat, t: nat, d: nat, limit: nat)
    requires WheelOk(w) && w.perSlot > 0 && 1 <= a < SLOTS && t <= d && limit == w.lastTick + a * w.perSlot + w.perSlot
    ensures EarlyForSure(w, i, a, t, d) <==> limit <= d
  {
    hide WheelOk, EarlyForSure;
    if limit <= d {
      EarlyRuns(w, i, a, t, d);
    } else {
      LateTickExists(w, i, a, t, d);
    }
  }

  /** Where the record is, as a distance from the current slot. */
  lemma PlacedBy(w: Wheel, i: nat, t0: nat, t: nat, d: nat, a: nat) returns (c: nat)
    requires WheelOk(w) && i < |w.records| && w.records[i].inUse && Earliest(w.records[i].timers, w.hz, t0) == Some(d)
    requires t <= d && w.perSlot > 0 && a == (d - t) / w.perSlot && 1 <= a < SLOTS
    ensures var w' := Resched(w, i, t0, t);
            && WheelOk(w') && w' == w.(chains := w'.chains)
            && c < SLOTS && On(w', c, i) && Distance(w'.current, c) == a
  {
    ShapeOf(w);
    ReschedOk(w, i, t0, t);
    assert Resched(w, i, t0, t) == w.(chains := Resched(w, i, t0, t).chains);
    hide WheelOk, Earliest, On, Resched;
    assert SlotsAhead(d, t, w.perSlot) == a by { NoCut(a); }
    PlacedAhead(w, d, t);
    c := Target(w, d, t);
  }

  lemma NoCut(a: nat)
    requires a < SLOTS
    ensures a % U32 == a
  {
  }

  lemma FractionsAddUp(last: nat, t: nat, d: nat, perSlot: nat, a: nat)
    requires perSlot > 0 && last <= t <= d && a == (d - t) / perSlot
    ensures (t - last) + (d - t) % perSlot >= perSlot <==> last + a * perSlot + perSlot <= d
  {
    QuotientWithin(d - t, perSlot);
    assert (d - t) % perSlot == d - t - a * perSlot;
  }

  lemma EarlyRuns(w: Wheel, i: nat, a: nat, t: nat, d: nat)
    requires WheelOk(w) && w.lastTick + a * w.perSlot + w.perSlot <= d
    ensures EarlyForSure(w, i, a, t, d)
  {
    hide WheelOk, Exec, Clocked;
  }

  /** One tick on the last reading that is timely. */
  lemma LateTickExists(w: Wheel, i: nat, a: nat, t: nat, d: nat)
    requires WheelOk(w) && w.perSlot > 0 && 1 <= a < SLOTS && t <= d < w.lastTick + a * w.perSlot + w.perSlot
    ensures !EarlyForSure(w, i, a, t, d)
  {
    ShapeOf(w);
    var now := w.lastTick + a * w.perSlot + w.perSlot - 1;
    var es := [TickNow(now)];
    TickNowTimely(t, now);
    assert Clocked(es, [t, now]) && AllUntouched(es, i);
    assert SlotsToAdvance(w, now) == a by {
      QuotientUnique(now - w.lastTick, w.perSlot, a, w.perSlot - 1);
      NoCut(a);
    }
    hide WheelOk, SlotsToAdvance, StepWheel, Clocked, AllUntouched;
    TickClock(w, es[0]);
    ExecCons(w, es[0], es);
    ExecNothing(StepWheel(w, es[0]).0, es[1..]);
    ExecNothing(w, es[..0]);
    assert TimelyAdvance(w, es, [t, now], i, a, t);
  }

  /**
   * What an early visit costs: the callback finds nothing to do, rescheduling
   * rounds the rest of a slot down to 0 slots ahead, and the record is next
   * visited exactly one revolution later, when its deadline has long passed.
   */
  lemma EarlyVisitFiresLate(w: Wheel, i: nat, t0: nat, t1: nat, es: seq<Event>)
    requires WheelOk(w) && i < |w.records| && w.records[i].inUse && t0 <= t1
    requires var e := Earliest(w.records[i].timers, w.hz, t0); e.Some? && t1 < e.value < t1 + w.perSlot
    requires AllUntouched(es, i)
    ensures WheelOk(Resched(w, i, t0, t1))
    ensures var d := Earliest(w.records[i].timers, w.hz, t0).value;
            var (w', visits) := Exec(Resched(w, i, t0, t1), es);
            && NotIn(visits, i, SLOTS - 1)
            && (|visits| >= SLOTS ==> i in visits[SLOTS - 1] && w'.lastTick - d > (SLOTS - 1) * w.perSlot - (t1 - w.lastTick))
  {
    ShapeOf(w);
    var d := Earliest(w.records[i].timers, w.hz, t0).value;
    ReschedOk(w, i, t0, t1);
    OverdueTarget(w, d, t1);
    var w1 := Resched(w, i, t0, t1);
    assert w1.lastTick == w.lastTick && w1.perSlot == w.perSlot && w1.current == w.current && On(w1, w.current, i);
    FullTurn(w.current);
    hide WheelOk, Earliest, Resched, On, NotIn, Exec, Distance;
    VisitedExactlyWhenDue(w1, es, i, w.current);
    RunClock(w1, es);
    var visits := Exec(w1, es).1;
    if |visits| >= SLOTS { MulMonotone(SLOTS, |visits|, w.perSlot); }
  }
}
