/**
 * Which records are on the timer wheel (tcp_timer.c). Rescheduling takes a
 * record with no active timer off the wheel and puts any other on it, and a
 * visit ends with a rescheduling. So as long as handlers reschedule after they
 * change timers, a record is on the wheel exactly while it waits for something.
 */
module WheelMembers {
  import opened WheelSpec
  import opened WheelClock

  /** Record i is on some chain. */
  ghost predicate Scheduled(w: Wheel, i: nat) { exists c :: On(w, c, i) }

  /** Some timer is active, or the stream is to be pumped. */
  predicate Waiting(t: Timers) {
    t.rto != 0 || t.timewait != 0 || t.think != 0 || t.httpSent != 0 || (t.established && t.app == 12)
  }

  /** Whether there is a deadline does not depend on the clock. */
  lemma WaitingIff(t: Timers, hz: nat, now: nat)
    ensures Waiting(t) <==> exists d: nat :: Awaits(t, hz, now, d)
  {
    if t.rto != 0 { assert Awaits(t, hz, now, t.rto); }
    if t.timewait != 0 { assert Awaits(t, hz, now, t.timewait); }
    if t.think != 0 { assert Awaits(t, hz, now, t.think); }
    if t.httpSent != 0 { assert Awaits(t, hz, now, t.httpSent + 5 * (1_000_000 * (hz / 1_000_000))); }
    if t.established && t.app == 12 { assert Awaits(t, hz, now, now); }
  }

  /** A record in use is on the wheel exactly while it waits. */
  ghost predicate Member(w: Wheel, i: nat) {
    i < |w.records| && w.records[i].inUse ==> (Scheduled(w, i) <==> Waiting(w.records[i].timers))
  }

  // ------------------------------------------------------------ single records

  /** Rescheduling settles where the record belongs. */
  lemma ReschedMember(w: Wheel, i: nat, t0: nat, t1: nat)
    requires WheelOk(w) && i < |w.records| && w.records[i].inUse
    ensures Shape(w) && Member(Resched(w, i, t0, t1), i)
  {
    ShapeOf(w);
    hide WheelOk, On, Resched, Awaits;
    ReschedOk(w, i, t0, t1);
    WaitingIff(w.records[i].timers, w.hz, t0);
    EarliestIsMinimum(w.records[i].timers, w.hz, t0);
  }

  /** So does handler work that ends with a rescheduling or a release. */
  lemma {:induction false} FireMember(w: Wheel, i: nat, acts: seq<Action>)
    requires WheelOk(w) && i < |w.records|
    requires if acts == [] then Member(w, i) else !acts[|acts| - 1].SetTimers?
    ensures Shape(w) && Member(Fire(w, i, acts), i)
    decreases |acts|
  {
    ShapeOf(w);
    if acts != [] && w.records[i].inUse {
      FireOk(w, i, acts[..1]);
      var w1 := Fire(w, i, acts[..1]);
      FirstAct(w, i, acts);
      if acts[0].DoResched? { ReschedMember(w, i, acts[0].t0, acts[0].t1); }
      hide WheelOk, Fire;
      FireMember(w1, i, acts[1..]);
    }
  }

  lemma FirstAct(w: Wheel, i: nat, acts: seq<Action>)
    requires WheelOk(w) && i < |w.records| && acts != [] && w.records[i].inUse
    ensures Shape(w) && Shape(Fire(w, i, acts[..1])) && Fire(w, i, acts) == Fire(Fire(w, i, acts[..1]), i, acts[1..])
    ensures acts[0].DoResched? ==> Fire(w, i, acts[..1]) == Resched(w, i, acts[0].t0, acts[0].t1)
    ensures acts[0].DoRelease? ==> !Fire(w, i, acts[..1]).records[i].inUse
  {
    ShapeOf(w);
    hide WheelOk, Resched;
    assert acts[..1][0] == acts[0] && acts[..1][1..] == [];
  }

  lemma VisitMember(w: Wheel, i: nat, r: Reaction)
    requires WheelOk(w) && i < |w.records|
    ensures Shape(w) && Member(Visit(w, i, r), i)
  {
    ShapeOf(w);
    FireOk(w, i, r.acts);
    var w1 := Fire(w, i, r.acts);
    hide WheelOk, Fire;
    if w1.records[i].inUse { ReschedMember(w1, i, r.t0, r.t1); }
  }

  /** Work on another record leaves this one where it is. */
  lemma OtherMember(w: Wheel, w': Wheel, i: nat, j: nat)
    requires OnlyTouches(w, w', j) && i != j && Member(w, i)
    ensures Member(w', i)
  {
  }

  // ------------------------------------------------------------------- ticks

  lemma {:induction false} WalkMember(w: Wheel, chain: seq<nat>, react: Reactions, i: nat)
    requires WheelOk(w) && (forall p :: 0 <= p < |chain| ==> chain[p] < |w.records|) && (i in chain || Member(w, i))
    ensures Shape(w) && Member(VisitAll(w, chain, react), i)
    decreases |chain|
  {
    ShapeOf(w);
    if chain != [] {
      var j := chain[0];
      VisitOk(w, j, react(j));
      if j == i {
        VisitMember(w, i, react(i));
      } else if i !in chain {
        OtherMember(w, Visit(w, j, react(j)), i, j);
      }
      hide WheelOk, Visit, Member;
      WalkMember(Visit(w, j, react(j)), chain[1..], react, i);
    }
  }

  lemma AdvanceMember(w: Wheel, react: Reactions, i: nat)
    requires WheelOk(w) && Member(w, i)
    ensures Member(Advance(w, react), i)
  {
    ShapeOf(w);
    TurnOk(w);
    TurnMember(w, i);
    hide WheelOk, VisitAll, Member;
    WalkMember(Turn(w), Due(w), react, i);
  }

  lemma TurnMember(w: Wheel, i: nat)
    requires WheelOk(w) && Member(w, i)
    ensures Shape(w) && (i in Due(w) || Member(Turn(w), i))
  {
    ShapeOf(w);
    TurnOk(w);
    if i !in Due(w) {
      assert !On(w, NextSlot(w.current), i);
      hide WheelOk;
      assert forall c :: On(Turn(w), c, i) <==> On(w, c, i);
    }
  }

  lemma {:induction false} AdvanceManyMember(w: Wheel, n: nat, reacts: nat -> Reactions, s: nat, i: nat)
    requires WheelOk(w) && n <= SLOTS && Member(w, i)
    ensures Member(AdvanceMany(w, n, reacts, s).0, i)
    decreases n
  {
    hide WheelOk, Member, Advance;
    if n > 0 {
      AdvanceMember(w, reacts(s), i);
      AdvanceManyMember(Advance(w, reacts(s)), n - 1, reacts, s + 1, i);
    }
  }

  lemma DrainMember(w: Wheel, times: nat -> (nat, nat), i: nat)
    requires WheelOk(w) && Member(w, i)
    ensures Member(DrainOverflow(w, times), i)
  {
    ShapeOf(w);
    UnhookOk(w);
    UnhookMember(w, i);
    hide WheelOk, VisitAll, Member;
    WalkMember(Unhook(w), w.chains[OVERFLOW], Rehash(times), i);
  }

  lemma UnhookMember(w: Wheel, i: nat)
    requires WheelOk(w) && Member(w, i)
    ensures Shape(w) && (i in w.chains[OVERFLOW] || Member(Unhook(w), i))
  {
    ShapeOf(w);
    UnhookOk(w);
    if i !in w.chains[OVERFLOW] {
      assert !On(w, OVERFLOW, i);
      hide WheelOk;
      assert forall c :: On(Unhook(w), c, i) <==> On(w, c, i);
    }
  }

  lemma TickMember(w: Wheel, e: Event, i: nat)
    requires WheelOk(w) && e.TickAt? && Member(w, i)
    ensures Member(StepWheel(w, e).0, i)
  {
    ShapeOf(w);
    var n := SlotsToAdvance(w, e.now);
    if n == 0 {
      assert StepWheel(w, e).0 == w;
    } else {
      TickedOk(w, n);
      assert Member(Ticked(w, n), i) by { hide WheelOk; }
      hide WheelOk, Member, SlotsToAdvance, StepWheel, AdvanceMany, DrainOverflow, Ticked;
      TickUnfold(w, e);
      AdvanceManyMember(Ticked(w, n), n, e.reacts, 0, i);
      DrainMember(AdvanceMany(Ticked(w, n), n, e.reacts, 0).0, e.times, i);
    }
  }

  // --------------------------------------------------------------------- runs

  lemma StepMember(w: Wheel, e: Event, i: nat)
    requires WheelOk(w) && Disciplined(e, i) && Member(w, i)
    ensures Member(StepWheel(w, e).0, i)
  {
    match e
    case TickAt(_, _, _) => TickMember(w, e, i);
    case Touch(j, acts) =>
      if j < |w.records| {
        FireOk(w, j, acts);
        hide WheelOk, Fire;
        if j == i { FireMember(w, i, acts); } else { OtherMember(w, Fire(w, j, acts), i, j); }
      }
    case Open(j) =>
      if j < |w.records| && !w.records[j].inUse {
        OpenOk(w, j);
        hide WheelOk;
        if j != i { OtherMember(w, Opened(w, j), i, j); }
      }
    case ResetAll =>
  }

  lemma {:induction false} RunMember(w: Wheel, es: seq<Event>, i: nat)
    requires WheelOk(w) && AllDisciplined(es, i) && Member(w, i)
    ensures Member(Exec(w, es).0, i)
    decreases |es|
  {
    if es != [] {
      assert Disciplined(es[0], i) && AllDisciplined(es[1..], i);
      StepMember(w, es[0], i);
      hide WheelOk, Member, StepWheel, Disciplined;
      RunMember(StepWheel(w, es[0]).0, es[1..], i);
    }
  }

  /**
   * Over every run from initialisation in which handlers reschedule a record
   * after they change its timers: the record is on the wheel if and only if it
   * is in use and waits for some deadline.
   */
  lemma OnWheelIff(w: Wheel, es: seq<Event>, i: nat, now: nat)
    requires Initial(w) && AllDisciplined(es, i) && i < |w.records|
    ensures WheelOk(w)
    ensures var z := Exec(w, es).0;
            Scheduled(z, i) <==> z.records[i].inUse && exists d: nat :: Awaits(z.records[i].timers, z.hz, now, d)
  {
    assert forall c: int, j: nat :: !On(w, c, j);
    RunMember(w, es, i);
    var z := Exec(w, es).0;
    assert Scheduled(z, i) ==> z.records[i].inUse;
    hide WheelOk, Exec, Initial, Awaits, Scheduled;
    WaitingIff(z.records[i].timers, z.hz, now);
  }

  /** A record off the wheel that nobody touches is never visited and stays off. */
  lemma {:induction false} OffWheelStays(w: Wheel, es: seq<Event>, i: nat)
    requires WheelOk(w) && i < |w.records| && !Scheduled(w, i) && AllUntouched(es, i)
    ensures var (z, visits) := Exec(w, es); !Scheduled(z, i) && z.records[i] == w.records[i] && NotIn(visits, i, |visits|)
    decreases |es|
  {
    if es == [] {
      NotInEmpty(i, 0);
    } else {
      var e := es[0];
      TailUntouched(es, i);
      assert Untouched(e, i);
      OffStep(w, e, i);
      ExecCons(w, e, es);
      var (w1, v1) := StepWheel(w, e);
      hide WheelOk, StepWheel, NotIn, Scheduled, Untouched, AllUntouched;
      OffWheelStays(w1, es[1..], i);
      var rest := Exec(w1, es[1..]).1;
      NotInMore(v1, i, |v1 + rest|);
      NotInAppend(v1, rest, i, |v1 + rest|);
    }
  }

  lemma OffStep(w: Wheel, e: Event, i: nat)
    requires WheelOk(w) && i < |w.records| && !Scheduled(w, i) && Untouched(e, i)
    ensures var (w', visits) := StepWheel(w, e); !Scheduled(w', i) && w'.records[i] == w.records[i] && NotIn(visits, i, |visits|)
  {
    match e
    case TickAt(_, _, _) => OffTick(w, e, i);
    case Touch(j, acts) => if j < |w.records| { FireOk(w, j, acts); hide WheelOk, Fire; }
    case Open(j) => if j < |w.records| && !w.records[j].inUse { OpenOk(w, j); hide WheelOk; }
  }

  lemma OffTick(w: Wheel, e: Event, i: nat)
    requires WheelOk(w) && i < |w.records| && !Scheduled(w, i) && e.TickAt?
    ensures var (w', visits) := StepWheel(w, e); !Scheduled(w', i) && w'.records[i] == w.records[i] && NotIn(visits, i, |visits|)
  {
    ShapeOf(w);
    var n := SlotsToAdvance(w, e.now);
    if n == 0 {
      assert StepWheel(w, e) == (w, []);
      NotInEmpty(i, 0);
    } else {
      TickedOk(w, n);
      assert !Scheduled(Ticked(w, n), i) by { hide WheelOk; }
      hide WheelOk, SlotsToAdvance, StepWheel, AdvanceMany, DrainOverflow, NotIn, Scheduled;
      TickUnfold(w, e);
      OffAdvances(Ticked(w, n), n, e.reacts, 0, i);
      OffDrain(AdvanceMany(Ticked(w, n), n, e.reacts, 0).0, e.times, i);
    }
  }

  lemma {:induction false} OffAdvances(w: Wheel, n: nat, reacts: nat -> Reactions, s: nat, i: nat)
    requires WheelOk(w) && n <= SLOTS && i < |w.records| && !Scheduled(w, i)
    ensures var (w', visits) := AdvanceMany(w, n, reacts, s);
            !Scheduled(w', i) && w'.records[i] == w.records[i] && NotIn(visits, i, |visits|)
    decreases n
  {
    if n == 0 {
      NotInEmpty(i, 0);
    } else {
      OffAdvance(w, reacts(s), i);
      hide WheelOk, Advance, Scheduled, Due;
      OffAdvances(Advance(w, reacts(s)), n - 1, reacts, s + 1, i);
    }
  }

  lemma OffAdvance(w: Wheel, react: Reactions, i: nat)
    requires WheelOk(w) && i < |w.records| && !Scheduled(w, i)
    ensures Shape(w) && i !in Due(w) && !Scheduled(Advance(w, react), i) && Advance(w, react).records[i] == w.records[i]
  {
    ShapeOf(w);
    TurnOk(w);
    assert !On(w, NextSlot(w.current), i);
    VisitAllOk(Turn(w), Due(w), react);
    hide WheelOk, VisitAll;
    assert Keeps(Turn(w), VisitAll(Turn(w), Due(w), react), i);
  }

  lemma OffDrain(w: Wheel, times: nat -> (nat, nat), i: nat)
    requires WheelOk(w) && i < |w.records| && !Scheduled(w, i)
    ensures !Scheduled(DrainOverflow(w, times), i) && DrainOverflow(w, times).records[i] == w.records[i]
  {
    ShapeOf(w);
    UnhookOk(w);
    assert !On(w, OVERFLOW, i);
    VisitAllOk(Unhook(w), w.chains[OVERFLOW], Rehash(times));
    hide WheelOk, VisitAll;
    assert Keeps(Unhook(w), VisitAll(Unhook(w), w.chains[OVERFLOW], Rehash(times)), i);
  }
}
