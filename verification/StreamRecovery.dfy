/**
 * When a transfer can still complete by itself, and when it is wedged
 * (tcp_fsm.c). The retransmission timer is disarmed by an acknowledgement of
 * the whole flight before the drain that follows it, and the receiver
 * acknowledges only data it accepts, so neither side need ever speak again.
 */
module StreamRecovery {
  import opened Basics
  import opened SequenceNumbers
  import opened SenderSpec
  import opened StreamTransfer
  import NewReno
  import RttEstimator

  /** Neither application sends anything. */
  predicate Quiet(e: Event) { !e.AppSend? && !e.Piggyback? }

  predicate ByItself(es: seq<Event>) { forall i :: 0 <= i < |es| ==> Quiet(es[i]) }

  /** Nor does the network lose anything. */
  predicate Benign(es: seq<Event>) {
    forall i :: 0 <= i < |es| ==> Quiet(es[i]) && !es[i].LoseData? && !es[i].LoseAck?
  }

  // -------------------------------------------------------------- conditions

  /** The next bytes the receiver waits for are on the network. */
  ghost predicate NextAt(y: System) { exists p :: p in y.data && p.off == |y.received| }

  /** So is an acknowledgement of everything received. */
  ghost predicate Told(y: System) { exists a :: a in y.acks && a.upTo == |y.received| }

  /** Young enough to be delivered. */
  predicate Deliverable(y: System, a: AckPacket) { y.acked - a.upTo <= HALF }

  /** An acknowledgement that brings no news but its window. */
  predicate Stale(y: System, a: AckPacket) { a.upTo <= y.acked && Deliverable(y, a) }

  ghost predicate WindowFor(y: System, d: int) {
    d < y.snd.wnd || exists a :: a in y.acks && Stale(y, a) && d < a.win
  }

  /** The next timeout retransmits a segment that starts at the byte the receiver waits for. */
  ghost predicate TimerHelps(y: System) {
    var d := |y.received| - y.acked;
    && y.snd.armed && MayRetry(y.snd)
    && 0 <= d < y.snd.mss && Grid(d, EffectiveMss(y.snd)) && WindowFor(y, d)
  }

  /** The packets of the network lead from one position to the other. */
  ghost predicate Covered(data: set<Packet>, from: nat, to: nat)
    decreases to - from
  {
    from == to ||
    exists p :: p in data && p.off == from && 0 < |p.payload| && from + |p.payload| <= to
                && Covered(data, from + |p.payload|, to)
  }

  /**
   * What a transfer needs to complete by itself. A closed sender adds nothing, so
   * the network must hold the rest. An open one needs a single sign of life: the next
   * bytes on the network, an acknowledgement owed or on the network that
   * tells it how far the receiver is, or a timer whose retransmission the receiver takes.
   */
  ghost predicate Repairable(y: System) {
    if y.snd.open then
      |y.received| == |y.queued| || y.pending || NextAt(y) || Told(y) || TimerHelps(y)
    else
      Covered(y.data, |y.received|, |y.queued|)
  }

  // --------------------------------------------------------------- single steps

  lemma InvOk(y: System)
    requires Inv(y)
    ensures Ok(y.snd)
  {
  }

  lemma ExecStep(y: System, e: Event, es: seq<Event>)
    requires Inv(y) && Enabled(y, e)
    ensures Inv(Step(y, e)) && Exec(y, [e] + es) == Exec(Step(y, e), es)
  {
    StepKeepsInv(y, e);
    hide Inv, Step, Enabled;
    assert ([e] + es)[1..] == es;
  }

  lemma {:induction false} ExecConcat(y: System, es: seq<Event>, fs: seq<Event>)
    requires Inv(y)
    ensures Exec(y, es + fs) == Exec(Exec(y, es), fs)
    decreases |es|
  {
    if es == [] {
      assert es + fs == fs;
    } else {
      assert (es + fs)[1..] == es[1..] + fs;
      if Enabled(y, es[0]) {
        StepKeepsInv(y, es[0]);
        hide Inv, Step;
        ExecConcat(Step(y, es[0]), es[1..], fs);
      } else {
        ExecConcat(y, es[1..], fs);
      }
    }
  }

  lemma BenignConcat(es: seq<Event>, fs: seq<Event>)
    requires Benign(es) && Benign(fs)
    ensures Benign(es + fs)
  {
  }

  /** The next packet arrives and is owed an acknowledgement. */
  lemma DeliverNext(y: System, p: Packet)
    requires Inv(y) && p in y.data && p.off == |y.received|
    ensures var z := Step(y, DeliverData(p));
            && Enabled(y, DeliverData(p)) && Inv(z) && p.payload != []
            && z == y.(received := y.received + p.payload, pending := true, rcvNxt := z.rcvNxt)
            && |z.received| <= |z.queued|
  {
    hide Wrap;
    assert PacketOk(p, y.origin, y.queued);
    DeliveryKeepsInv(y, p);
  }

  lemma {:induction false} FollowPackets(y: System) returns (es: seq<Event>)
    requires Inv(y) && Covered(y.data, |y.received|, |y.queued|)
    ensures Benign(es) && (forall i :: 0 <= i < |es| ==> es[i].DeliverData?)
    ensures Exec(y, es).queued == y.queued && Exec(y, es).received == y.queued
    decreases |y.queued| - |y.received|
  {
    if |y.received| == |y.queued| {
      es := [];
      hide Wrap;
    } else {
      var p :| p in y.data && p.off == |y.received| && 0 < |p.payload| && |y.received| + |p.payload| <= |y.queued|
               && Covered(y.data, |y.received| + |p.payload|, |y.queued|);
      DeliverNext(y, p);
      hide Inv, Step, Enabled, Covered, Exec;
      var rest := FollowPackets(Step(y, DeliverData(p)));
      ExecStep(y, DeliverData(p), rest);
      es := [DeliverData(p)] + rest;
    }
  }

  /** A delivered acknowledgement of position upTo: what it does to the system besides sending. */
  lemma AckStep(y: System, a: AckPacket, budget: nat)
    requires Inv(y) && y.snd.open && a in y.acks && Deliverable(y, a)
    ensures var z := Step(y, DeliverAck(a, NoSample, budget));
            && Enabled(y, DeliverAck(a, NoSample, budget)) && Inv(z) && z.snd.open && z.snd.wnd == a.win
            && z.acked == Max(y.acked, a.upTo)
            && z == y.(snd := z.snd, acked := z.acked, data := z.data) && y.data <= z.data
  {
    hide Wrap, SeqGt, Advance, Drain, NewReno.Step;
    AckKeepsInv(y, DeliverAck(a, NoSample, budget));
    AckKeepsOpen(y.snd, a.ack, a.win, budget);
  }

  lemma AckKeepsOpen(s: Sender, ack: u32, win: u32, budget: nat)
    requires Ok(s) && s.open
    ensures AckIn(s, ack, win, NoSample, budget).0.open && AckIn(s, ack, win, NoSample, budget).0.wnd == win
  {
    hide Wrap, SeqGt, Drain, NewReno.OnAck, NewReno.OnFastRetransmit;
    DrainChangesNxt(Advance(s, ack, NoSample), budget);
  }

  /** An acknowledgement at or behind snd_una: a duplicate counts, an older one only brings its window. */
  lemma StaleStep(y: System, a: AckPacket, budget: nat)
    requires Inv(y) && y.snd.open && a in y.acks && Stale(y, a)
    ensures var z := Step(y, DeliverAck(a, NoSample, budget));
            var d := Duplicate(y.snd, budget);
            && (a.upTo < y.acked ==> z == y.(snd := y.snd.(wnd := a.win), data := z.data) && z.data == y.data)
            && (a.upTo == y.acked ==> z == y.(snd := d.0.(wnd := a.win), data := z.data)
                                      && z.data == y.data + Emitted(d.1, y.snd.una, y.acked))
  {
    hide Wrap;
    WrapSmall(y.snd.una);
    WrapSmall(0);
    WrapSum(y.origin + y.acked, a.upTo - y.acked);
    AckCases(y.snd, a.ack, a.upTo - y.acked);
    hide SeqGt;
  }

  // ------------------------------------------------------------------- repair

  /** Another state of the same transfer, with nothing taken off the network. */
  ghost predicate Onward(y: System, z: System) {
    && Inv(z) && z.origin == y.origin && z.queued == y.queued && y.received <= z.received && y.data <= z.data
    && (y.snd.open ==> z.snd.open)
  }

  /** Some events lead from y to a state in which the next bytes are on the network. */
  ghost predicate LeadsTo(y: System, es: seq<Event>, z: System)
    requires Inv(y)
  {
    Benign(es) && Exec(y, es) == z && Onward(y, z)
  }

  lemma LeadsOn(y: System, e: Event, es: seq<Event>, z: System)
    requires Inv(y) && Enabled(y, e) && Quiet(e) && !e.LoseData? && !e.LoseAck?
    requires Inv(Step(y, e)) && Onward(y, Step(y, e)) && LeadsTo(Step(y, e), es, z)
    ensures LeadsTo(y, [e] + es, z)
  {
    hide Inv, Step, Enabled, Exec;
    ExecStep(y, e, es);
  }

  lemma LeadsThrough(y: System, es: seq<Event>, x: System, fs: seq<Event>, z: System)
    requires Inv(y) && Inv(x) && LeadsTo(y, es, x) && LeadsTo(x, fs, z)
    ensures LeadsTo(y, es + fs, z)
  {
    hide Inv, Exec;
    ExecConcat(y, es, fs);
    BenignConcat(es, fs);
  }

  lemma LeadsNowhere(y: System)
    requires Inv(y)
    ensures LeadsTo(y, [], y)
  {
    hide Inv;
  }

  /** How many more duplicates make the 8-bit counter three. */
  function ToThird(dupAcks: byte): nat { if dupAcks < 3 then 3 - dupAcks else 259 - dupAcks }

  /** The third duplicate puts the oldest unacknowledged bytes on the network, whatever timer and window say. */
  lemma DuplicateSends(y: System, a: AckPacket)
    requires Inv(y) && y.snd.open && a in y.acks && a.upTo == y.acked < |y.queued|
    ensures var z := Step(y, DeliverAck(a, NoSample, 1));
            && Enabled(y, DeliverAck(a, NoSample, 1)) && Onward(y, z)
            && z.acked == y.acked && z.received == y.received && a in z.acks
            && z.snd.dupAcks == (y.snd.dupAcks + 1) % 256
            && (z.snd.dupAcks == 3 ==> exists p :: p in z.data && p.off == y.acked)
  {
    assert Ok(y.snd) && y.snd.hasBuf && y.snd.buf != [] && Stale(y, a);
    hide Inv, Step, Enabled, AckIn, Wrap, Duplicate, Emitted;
    AckStep(y, a, 1);
    StaleStep(y, a, 1);
    ThirdSends(y.snd, y.acked);
  }

  lemma ThirdSends(s: Sender, acked: nat)
    requires Ok(s) && s.hasBuf && s.buf != []
    ensures var d := Duplicate(s, 1);
            && d.0.dupAcks == (s.dupAcks + 1) % 256
            && (d.0.dupAcks == 3 ==> exists p :: p in Emitted(d.1, s.una, acked) && p.off == acked)
  {
    WrapSmall(0);
    hide Wrap, NewReno.Step;
    var d := Duplicate(s, 1);
    if d.0.dupAcks == 3 {
      OneEmitted(d.1[0], s.una, acked);
      assert Packet(s.una, d.1[0].payload, acked) in Emitted(d.1, s.una, acked);
    }
  }

  lemma {:induction false} Nudge(y: System, a: AckPacket) returns (es: seq<Event>, z: System)
    requires Inv(y) && y.snd.open && a in y.acks && a.upTo == y.acked == |y.received| < |y.queued|
    ensures LeadsTo(y, es, z) && z.received == y.received && NextAt(z)
    decreases ToThird(y.snd.dupAcks)
  {
    hide Inv, Step, Enabled, LeadsTo;
    var e := DeliverAck(a, NoSample, 1);
    InvOk(y);
    DuplicateSends(y, a);
    var y1 := Step(y, e);
    if y1.snd.dupAcks == 3 {
      es, z := [], y1;
      LeadsNowhere(y1);
    } else {
      es, z := Nudge(y1, a);
    }
    LeadsOn(y, e, es, z);
    es := [e] + es;
  }

  function Copies(e: Event, j: nat): seq<Event> { seq(j, _ => e) }

  /**
   * How often the network must deliver the latest acknowledgement to a sender
   * that already knows it: until the 8-bit counter of duplicates is three, and
   * once is enough exactly when two were counted before.
   */
  lemma {:induction false} CopiesNeeded(y: System, a: AckPacket, j: nat)
    requires Inv(y) && y.snd.open && a in y.acks && a.upTo == y.acked == |y.received| < |y.queued|
    ensures NextAt(Exec(y, Copies(DeliverAck(a, NoSample, 1), j))) <==> NextAt(y) || j >= ToThird(y.snd.dupAcks)
    ensures ToThird(y.snd.dupAcks) == 1 <==> y.snd.dupAcks == 2
    decreases j
  {
    hide Inv, Step, Enabled, NextAt;
    var e := DeliverAck(a, NoSample, 1);
    if j == 0 {
      assert Copies(e, j) == [];
    } else {
      hide Exec;
      InvOk(y);
      DuplicateData(y, a);
      var y1 := Step(y, e);
      assert Copies(e, j) == [e] + Copies(e, j - 1);
      ExecStep(y, e, Copies(e, j - 1));
      CopiesNeeded(y1, a, j - 1);
      OneNearer(y.snd.dupAcks);
    }
  }

  lemma OneNearer(dupAcks: byte)
    ensures dupAcks != 2 ==> ToThird((dupAcks + 1) % 256) == ToThird(dupAcks) - 1
  {
  }

  /** Whether the duplicate was the third decides whether the next bytes get onto the network. */
  lemma DuplicateData(y: System, a: AckPacket)
    requires Inv(y) && y.snd.open && a in y.acks && a.upTo == y.acked == |y.received| < |y.queued|
    ensures Ok(y.snd) && Enabled(y, DeliverAck(a, NoSample, 1))
    ensures var z := Step(y, DeliverAck(a, NoSample, 1));
            && Inv(z) && z.snd.open && a in z.acks && z.acked == y.acked && z.received == y.received && z.queued == y.queued
            && z.snd.dupAcks == (y.snd.dupAcks + 1) % 256
            && (NextAt(z) <==> NextAt(y) || y.snd.dupAcks == 2)
  {
    hide Inv, Step, Wrap, Duplicate, Enabled, Emitted;
    InvOk(y);
    DuplicateSends(y, a);
    StaleStep(y, a, 1);
    if y.snd.dupAcks != 2 { NotThird(y.snd, y.acked); }
  }

  lemma NotThird(s: Sender, acked: nat)
    requires Ok(s) && s.dupAcks != 2
    ensures Emitted(Duplicate(s, 1).1, s.una, acked) == {}
  {
    hide Wrap;
    assert Duplicate(s, 1).1 == [];
  }

  /** A sender told how far the receiver is puts the next bytes on the network. */
  lemma ToldRepairs(y: System) returns (es: seq<Event>, z: System)
    requires Inv(y) && y.snd.open && Told(y) && |y.received| < |y.queued|
    ensures LeadsTo(y, es, z) && z.received == y.received && NextAt(z)
  {
    var a :| a in y.acks && a.upTo == |y.received|;
    assert y.acked <= |y.received|;
    if a.upTo == y.acked {
      es, z := Nudge(y, a);
    } else {
      var e := DeliverAck(a, NoSample, 0);
      AckStep(y, a, 0);
      var y1 := Step(y, e);
      hide Step, Enabled, LeadsTo, Inv;
      es, z := Nudge(y1, a);
      LeadsOn(y, e, es, z);
      es := [e] + es;
    }
  }

  /** So does a receiver that owes an acknowledgement. */
  lemma PendingRepairs(y: System) returns (es: seq<Event>, z: System)
    requires Inv(y) && y.snd.open && y.pending && |y.received| < |y.queued|
    ensures LeadsTo(y, es, z) && z.received == y.received && NextAt(z)
  {
    var e := EmitAck(65535);
    StepKeepsInv(y, e);
    var y1 := Step(y, e);
    assert AckPacket(y.rcvNxt, |y.received|, 65535) in y1.acks;
    assert Told(y1) && Onward(y, y1);
    hide Step, LeadsTo, Inv, Told;
    es, z := ToldRepairs(y1);
    LeadsOn(y, e, es, z);
    es := [e] + es;
  }

  /** A timeout that reaches the byte the receiver waits for. */
  lemma TimeoutRepairs(y: System) returns (e: Event)
    requires Inv(y) && |y.received| < |y.queued| && y.snd.armed && MayRetry(y.snd)
    requires TimeoutOffset(y.snd, |y.received| - y.acked)
    ensures e.Timeout? && Enabled(y, e) && Onward(y, Step(y, e))
    ensures Step(y, e).received == y.received && NextAt(Step(y, e))
  {
    var d := |y.received| - y.acked;
    e := Timeout(d + 1);
    assert SenderInv(y) && y.snd.hasBuf;
    hide Inv, SenderInv, RtoExpired, TimeoutOffset, MayRetry, Wrap;
    var g := TimeoutReaches(y.snd, d);
    TimeoutKeepsInv(y, e);
    TimeoutStays(y.snd, d + 1);
    StepSends(y, e, g, d);
  }

  /** A segment sent at offset d of an unchanged snd_una is a packet d past it. */
  lemma StepSends(y: System, e: Event, g: Segment, d: nat)
    requires Ok(y.snd) && e.Timeout? && Enabled(y, e) && g in RtoExpired(y.snd, e.rtoBudget).1
    requires RtoExpired(y.snd, e.rtoBudget).0.una == y.snd.una && d < MODULUS && g.start == Wrap(y.snd.una + d)
    ensures var z := Step(y, e);
            && z == y.(snd := RtoExpired(y.snd, e.rtoBudget).0, data := z.data) && y.data <= z.data
            && Packet(g.start, g.payload, y.acked + d) in z.data
  {
    WrapSmall(0);
    WrapOffset(y.snd.una, d);
    hide Wrap, RtoExpired;
    assert y.snd.una - y.snd.una == 0;
    assert Packet(g.start, g.payload, y.acked + Wrap(g.start - y.snd.una)) in Step(y, e).data;
  }

  lemma TimeoutStays(s: Sender, budget: nat)
    requires Ok(s) && MayRetry(s)
    ensures RtoExpired(s, budget).0.open && RtoExpired(s, budget).0.una == s.una
  {
    hide Wrap, Drain, RttEstimator.Backoff;
    DrainChangesNxt(BackOff(s), budget);
  }

  lemma TimerRepairs(y: System) returns (es: seq<Event>, z: System)
    requires Inv(y) && y.snd.open && |y.received| < |y.queued| && TimerHelps(y)
    ensures LeadsTo(y, es, z) && z.received == y.received && NextAt(z)
  {
    var d := |y.received| - y.acked;
    assert |y.snd.buf| == |y.queued| - y.acked;
    hide Grid, LeadsTo;
    if d < y.snd.wnd {
      var e := TimeoutRepairs(y);
      LeadsNowhere(Step(y, e));
      LeadsOn(y, e, [], Step(y, e));
      es, z := [e], Step(y, e);
      assert [e] + [] == [e];
    } else {
      var a :| a in y.acks && Stale(y, a) && d < a.win;
      var e := DeliverAck(a, NoSample, 0);
      AckStep(y, a, 0);
      StaleStep(y, a, 0);
      StaleKeepsTimer(y.snd);
      var y1 := Step(y, e);
      SameMss(y.snd, y1.snd);
      assert |y1.snd.buf| == |y.snd.buf|;
      hide Step, Enabled, Inv, AckIn, Duplicate, EffectiveMss;
      var f := TimeoutRepairs(y1);
      LeadsNowhere(Step(y1, f));
      LeadsOn(y1, f, [], Step(y1, f));
      LeadsOn(y, e, [f] + [], Step(y1, f));
      es, z := [e] + ([f] + []), Step(y1, f);
    }
  }

  lemma StaleKeepsTimer(s: Sender)
    requires Ok(s)
    ensures var d := Duplicate(s, 0).0; d == s.(dupAcks := d.dupAcks, cc := d.cc) && Duplicate(s, 0).1 == []
  {
    hide Wrap, NewReno.Step;
  }

  /** Every sign of life leads to the arrival of the next bytes. */
  lemma NextArrives(y: System) returns (es: seq<Event>, x: System)
    requires Inv(y) && y.snd.open && |y.received| < |y.queued| && Repairable(y)
    ensures LeadsTo(y, es, x) && |x.received| > |y.received| && x.pending && x.snd.open && x.queued == y.queued
  {
    hide Inv, NextAt, Told, TimerHelps, LeadsTo;
    var z: System;
    if NextAt(y) {
      LeadsNowhere(y);
      es, z := [], y;
    } else if y.pending {
      es, z := PendingRepairs(y);
    } else if Told(y) {
      es, z := ToldRepairs(y);
    } else {
      es, z := TimerRepairs(y);
    }
    es, x := Arrives(y, es, z);
  }

  lemma Arrives(y: System, before: seq<Event>, z: System) returns (es: seq<Event>, x: System)
    requires Inv(y) && y.snd.open && LeadsTo(y, before, z) && NextAt(z)
    ensures LeadsTo(y, es, x) && |x.received| > |z.received| && x.pending && x.snd.open && x.queued == y.queued
  {
    var p :| p in z.data && p.off == |z.received|;
    assert Inv(z);
    DeliverNext(z, p);
    var e := DeliverData(p);
    x := Step(z, e);
    assert Onward(z, x);
    hide Inv, Step, Enabled, NextAt;
    LeadsNowhere(x);
    LeadsOn(z, e, [], x);
    LeadsThrough(y, before, z, [e] + [], x);
    es := before + ([e] + []);
  }

  /**
   * A repairable transfer completes by itself: some continuation in which
   * neither application sends anything more delivers the whole queued stream.
   */
  lemma {:induction false} CanComplete(y: System) returns (es: seq<Event>)
    requires Inv(y) && Repairable(y)
    ensures Benign(es) && Exec(y, es).queued == y.queued && Exec(y, es).received == y.queued
    ensures y.snd.open ==> Onward(y, Exec(y, es))
    ensures y.snd.open && |y.received| < |y.queued| ==> Exec(y, es).pending
    decreases |y.queued| - |y.received|
  {
    if !y.snd.open {
      hide Step, Inv, Covered;
      es := FollowPackets(y);
    } else if |y.received| == |y.queued| {
      es := [];
      hide Wrap;
    } else {
      var before, x := NextArrives(y);
      ReceivedAll(x);
      if |x.received| == |x.queued| {
        es := before;
      } else {
        hide Step, Inv, Enabled, Exec;
        var rest := CanComplete(x);
        LeadsThrough(y, before, x, rest, Exec(x, rest));
        es := before + rest;
      }
    }
  }

  lemma ReceivedAll(y: System)
    requires Inv(y)
    ensures |y.received| <= |y.queued| && (|y.received| == |y.queued| ==> y.received == y.queued)
  {
    hide Wrap, SenderInv, DataInv, AckInv;
  }

  // -------------------------------------------------------------------- wedges

  /** No acknowledgement on the network moves the sender or makes it retransmit what the receiver lacks. */
  ghost predicate NoNews(y: System) {
    forall a <- y.acks :: Deliverable(y, a) ==> a.upTo <= y.acked && (a.upTo == y.acked ==> y.acked < |y.received|)
  }

  /** Incomplete, and nothing can change that but a send. */
  ghost predicate Wedged(y: System) {
    && Inv(y) && |y.received| < |y.queued|
    && if y.snd.open then !y.pending && !NextAt(y) && NoNews(y) && !TimerHelps(y)
       else !Covered(y.data, |y.received|, |y.queued|)
  }

  lemma {:induction false} CoveredByMore(data: set<Packet>, more: set<Packet>, from: nat, to: nat)
    requires data <= more && from <= to && Covered(data, from, to)
    ensures Covered(more, from, to)
    decreases if from <= to then to - from else 0
  {
    if from != to {
      var p :| p in data && p.off == from && 0 < |p.payload| && from + |p.payload| <= to
               && Covered(data, from + |p.payload|, to);
      CoveredByMore(data, more, from + |p.payload|, to);
    }
  }

  /** Data that does not start at the byte the receiver waits for changes nothing. */
  lemma OtherDataIgnored(y: System, p: Packet)
    requires Inv(y) && Enabled(y, DeliverData(p)) && p.off != |y.received|
    ensures Step(y, DeliverData(p)) == y
  {
    hide Wrap;
    assert PacketOk(p, y.origin, y.queued);
    SeqEqExact(y.origin, p.off, |y.received|);
    assert p.off <= |y.queued| <= y.acked + |y.snd.buf|;
  }

  lemma ClosedStays(y: System, e: Event)
    requires Wedged(y) && !y.snd.open && Enabled(y, e) && Quiet(e)
    ensures Wedged(Step(y, e)) && Step(y, e).queued == y.queued
  {
    StepKeepsInv(y, e);
    var z := Step(y, e);
    match e
    case DeliverData(p) =>
      if p.off == |y.received| {
        DeliverNext(y, p);
        hide Inv, Step, Enabled;
        NotCoveredOn(y.data, |y.received|, |y.queued|, p);
        ReceivedAll(z);
      } else {
        OtherDataIgnored(y, p);
      }
    case LoseData(p) =>
      if Covered(z.data, |y.received|, |y.queued|) { CoveredByMore(z.data, y.data, |y.received|, |y.queued|); }
    case EmitAck(_) =>
    case DeliverAck(_, _, _) => ClosedSender(y, e);
    case LoseAck(_) =>
    case Timeout(_) => ClosedSender(y, e);
  }

  lemma NotCoveredOn(data: set<Packet>, from: nat, to: nat, p: Packet)
    requires !Covered(data, from, to) && p in data && p.off == from && 0 < |p.payload| && from + |p.payload| <= to
    ensures !Covered(data, from + |p.payload|, to) && from + |p.payload| < to
  {
  }

  /** A closed sender sends nothing. */
  lemma ClosedSender(y: System, e: Event)
    requires Inv(y) && !y.snd.open && Enabled(y, e) && (e.DeliverAck? || e.Timeout?)
    ensures Step(y, e) == y
  {
    WrapSmall(0);
    hide Wrap;
    assert Emitted([], y.snd.una, y.acked) == {};
  }

  lemma StaleStays(y: System, e: Event)
    requires Wedged(y) && y.snd.open && Enabled(y, e) && e.DeliverAck?
    ensures Wedged(Step(y, e)) && Step(y, e).queued == y.queued
  {
    var a := e.ackPacket;
    assert Stale(y, a) && a in y.acks;
    StepKeepsInv(y, e);
    hide Step, Inv, Enabled, Grid, MayRetry;
    StaleEffect(y, a, e.sample, e.ackBudget);
    var z := Step(y, e);
    SameRetry(y.snd, z.snd);
    WindowsKept(y, z, a);
    SameMss(y.snd, z.snd);
    assert !NextAt(z) by {
      forall p | p in z.data ensures p.off != |z.received| {
        if p !in y.data { assert p.off == y.acked; }
      }
    }
  }

  lemma SameRetry(s: Sender, s': Sender)
    requires s'.open == s.open && s'.retries == s.retries
    ensures MayRetry(s') <==> MayRetry(s)
  {
  }

  /** What a stale acknowledgement changes: counters, window and, as the third duplicate, one retransmission. */
  lemma StaleEffect(y: System, a: AckPacket, sample: Sample, budget: nat)
    requires Inv(y) && y.snd.open && a in y.acks && Stale(y, a)
    ensures var z := Step(y, DeliverAck(a, sample, budget));
            && z == y.(snd := z.snd, data := z.data)
            && z.snd == y.snd.(wnd := a.win, dupAcks := z.snd.dupAcks, cc := z.snd.cc)
            && (forall p <- z.data :: p in y.data || (p.off == y.acked && a.upTo == y.acked))
  {
    hide Wrap;
    WrapSmall(y.snd.una);
    WrapSmall(0);
    WrapSum(y.origin + y.acked, a.upTo - y.acked);
    AckCases(y.snd, a.ack, a.upTo - y.acked);
    hide SeqGt, NewReno.Step;
    assert Emitted([], y.snd.una, y.acked) == {};
  }

  lemma WindowsKept(y: System, z: System, a: AckPacket)
    requires z.acks == y.acks && z.acked == y.acked && z.snd.wnd == a.win && a in y.acks && Stale(y, a)
    ensures forall d :: WindowFor(z, d) ==> WindowFor(y, d)
  {
    forall d | WindowFor(z, d) ensures WindowFor(y, d) {
      if d >= z.snd.wnd {
        var b :| b in z.acks && Stale(z, b) && d < b.win;
        assert Stale(y, b);
      }
    }
  }

  lemma TimeoutStuck(y: System, e: Event)
    requires Wedged(y) && y.snd.open && Enabled(y, e) && e.Timeout?
    ensures Wedged(Step(y, e)) && Step(y, e).queued == y.queued
  {
    WedgedInv(y);
    assert y.snd.armed;
    StepKeepsInv(y, e);
    hide Wedged, Step, Inv, Enabled, MayRetry, TimeoutOffset;
    TimeoutEffect(y, e.rtoBudget);
    WedgedAfter(y, Step(y, e));
  }

  /** The segments of a timeout leave a wedged connection wedged. */
  lemma WedgedAfter(y: System, z: System)
    requires Wedged(y) && y.snd.open && y.snd.armed && Inv(z) && z == y.(snd := z.snd, data := z.data)
    requires z.snd.wnd == y.snd.wnd && z.snd.mss == y.snd.mss && z.snd.timestamps == y.snd.timestamps
    requires z.snd.open ==> MayRetry(y.snd)
    requires forall p <- z.data :: p in y.data ||
                  (p.off >= y.acked && TimeoutOffset(y.snd, p.off - y.acked) && MayRetry(y.snd))
    ensures Wedged(z)
  {
    assert y.acked <= |y.received|;
    hide Inv, MayRetry, Grid, Covered, WindowFor;
    SameMss(y.snd, z.snd);
    SameWindows(y, z);
    if MayRetry(y.snd) { NotHelped(y); }
    assert !NextAt(z) by {
      forall p | p in z.data ensures p.off != |z.received| {
        if p !in y.data { assert TimeoutOffset(y.snd, p.off - y.acked); }
      }
    }
    NothingCovered(z);
  }

  lemma NotHelped(y: System)
    requires !TimerHelps(y) && y.snd.armed && MayRetry(y.snd) && y.acked <= |y.received|
    ensures !TimeoutOffset(y.snd, |y.received| - y.acked)
  {
    hide Grid, MayRetry;
  }

  lemma NothingCovered(y: System)
    requires !NextAt(y) && |y.received| < |y.queued|
    ensures !Covered(y.data, |y.received|, |y.queued|)
  {
  }

  lemma SameWindows(y: System, z: System)
    requires z.acks == y.acks && z.acked == y.acked && z.snd.wnd == y.snd.wnd
    ensures forall d :: WindowFor(z, d) ==> WindowFor(y, d)
  {
    forall d | WindowFor(z, d) ensures WindowFor(y, d) {
      if d >= z.snd.wnd {
        var b :| b in z.acks && Stale(z, b) && d < b.win;
        assert Stale(y, b);
      }
    }
  }

  lemma TimeoutEffect(y: System, budget: nat)
    requires Inv(y) && y.snd.open && y.snd.armed
    ensures var z := Step(y, Timeout(budget));
            && z == y.(snd := z.snd, data := z.data)
            && z.snd.wnd == y.snd.wnd && z.snd.mss == y.snd.mss && z.snd.timestamps == y.snd.timestamps
            && (z.snd.open ==> MayRetry(y.snd))
            && (forall p <- z.data :: p in y.data ||
                  (p.off >= y.acked && TimeoutOffset(y.snd, p.off - y.acked) && MayRetry(y.snd)))
  {
    assert Ok(y.snd) && |y.snd.buf| < HALF && (y.snd.hasBuf || y.snd.buf == []);
    hide Inv, Wrap, RtoExpired, TimeoutOffset, MayRetry, Emitted;
    TimeoutFields(y.snd, budget);
    var (s', segs) := RtoExpired(y.snd, budget);
    Unmoved(y, s', segs);
    var z := Step(y, Timeout(budget));
    forall p | p in z.data && p !in y.data
      ensures p.off >= y.acked && TimeoutOffset(y.snd, p.off - y.acked) && MayRetry(y.snd)
    {
      var g := EmittedFrom(segs, y.snd.una, y.acked, p);
      TimeoutGrid(y.snd, budget, g);
      NoTimeoutSegments(y.snd, budget);
    }
  }

  lemma EmittedFrom(segs: seq<Segment>, una: u32, acked: nat, p: Packet) returns (g: Segment)
    requires p in Emitted(segs, una, acked)
    ensures g in segs && p == Packet(g.start, g.payload, acked + Wrap(g.start - una))
  {
    hide Wrap;
    g :| g in segs && p == Packet(g.start, g.payload, acked + Wrap(g.start - una));
  }

  lemma Unmoved(y: System, s': Sender, segs: seq<Segment>)
    requires s'.una == y.snd.una
    ensures Moved(y, s', segs) == y.(snd := s', data := y.data + Emitted(segs, y.snd.una, y.acked))
  {
    WrapSmall(0);
    hide Wrap, Emitted;
    assert s'.una - y.snd.una == 0;
  }

  lemma TimeoutFields(s: Sender, budget: nat)
    requires Ok(s) && s.open
    ensures var s' := RtoExpired(s, budget).0;
            && s'.una == s.una && s'.wnd == s.wnd && s'.mss == s.mss && s'.timestamps == s.timestamps
            && (s'.open <==> MayRetry(s))
  {
    hide Wrap, Drain, RttEstimator.Backoff;
    DrainChangesNxt(BackOff(s), budget);
  }

  lemma WedgedStays(y: System, e: Event)
    requires Wedged(y) && Enabled(y, e) && Quiet(e)
    ensures Wedged(Step(y, e)) && Step(y, e).queued == y.queued
  {
    if !y.snd.open {
      hide Wedged, Step, Enabled;
      ClosedStays(y, e);
    } else {
      match e
      case DeliverData(p) =>
        OtherDataIgnored(y, p);
      case LoseData(p) => LossStays(y, e);
      case EmitAck(_) =>
      case DeliverAck(_, _, _) => StaleStays(y, e);
      case LoseAck(a) => LossStays(y, e);
      case Timeout(_) => TimeoutStuck(y, e);
    }
  }

  lemma LossStays(y: System, e: Event)
    requires Wedged(y) && y.snd.open && (e.LoseData? || e.LoseAck?)
    ensures Wedged(Step(y, e)) && Step(y, e).queued == y.queued
  {
    StepKeepsInv(y, e);
    hide Inv, Grid;
    var z := Step(y, e);
    assert forall d :: WindowFor(z, d) ==> WindowFor(y, d);
  }

  lemma {:induction false} WedgedForever(y: System, es: seq<Event>)
    requires Wedged(y) && ByItself(es)
    ensures var z := Exec(y, es); z.queued == y.queued && |z.received| < |y.queued|
    decreases |es|
  {
    if es != [] {
      if Enabled(y, es[0]) {
        WedgedStays(y, es[0]);
        assert Quiet(es[0]);
        hide Step, Enabled, Wedged;
        assert Inv(Step(y, es[0])) by { WedgedInv(Step(y, es[0])); }
        WedgedForever(Step(y, es[0]), es[1..]);
      } else {
        hide Wedged;
        WedgedForever(y, es[1..]);
      }
    }
  }

  lemma WedgedInv(y: System)
    requires Wedged(y)
    ensures Inv(y) && |y.received| < |y.queued|
  {
  }

  /** No acknowledgement on the network is ahead of the sender and behind the receiver. */
  ghost predicate NoneBetween(y: System) {
    forall a <- y.acks :: Deliverable(y, a) ==> a.upTo <= y.acked || a.upTo == |y.received|
  }

  /** The transfer completes in some continuation without a further send. */
  ghost predicate Completes(y: System)
    requires Inv(y)
  {
    exists es :: ByItself(es) && Exec(y, es).queued == y.queued && Exec(y, es).received == y.queued
  }

  lemma NotRepairable(y: System)
    requires Inv(y) && NoneBetween(y) && !Repairable(y)
    ensures Wedged(y)
  {
    ReceivedAll(y);
    hide Wrap, SenderInv, DataInv;
  }

  /**
   * Exactly which transfers complete without a further send, over all
   * reachable states in which no acknowledgement on the network lies between
   * what the sender knows and what the receiver has (in particular all states
   * in which the sender is up to date, and all in which the network is empty).
   */
  lemma CompletesIff(y: System)
    requires Inv(y) && NoneBetween(y)
    ensures Completes(y) <==> Repairable(y)
  {
    if Repairable(y) {
      hide Inv, Repairable;
      var es := CanComplete(y);
      assert ByItself(es);
    } else {
      NotRepairable(y);
      hide Inv, Wedged, Exec;
      forall es | ByItself(es) ensures Exec(y, es).received != y.queued { WedgedForever(y, es); }
    }
  }

  // ------------------------------------------- acknowledgements in between

  /** What moves the sender alone. */
  predicate Signal(e: Event) { e.DeliverAck? || e.Timeout? }

  predicate Signals(es: seq<Event>) { forall i :: 0 <= i < |es| ==> Signal(es[i]) }

  /** Acknowledgements and timeouts alone lead to a sign of life. */
  ghost predicate Recovers(y: System)
    requires Inv(y)
  {
    exists es :: Signals(es) && Repairable(Exec(y, es))
  }

  /** The same connection with more packets on the network. */
  ghost predicate Richer(x: System, y: System) {
    x == y.(data := x.data, acks := x.acks) && y.data <= x.data && y.acks <= x.acks
  }

  lemma RicherRepairable(x: System, y: System)
    requires Inv(y) && Richer(x, y) && Repairable(y)
    ensures Repairable(x)
  {
    ReceivedAll(y);
    hide Inv, Grid, MayRetry, Covered;
    if !y.snd.open { CoveredByMore(y.data, x.data, |y.received|, |y.queued|); }
  }

  lemma RicherStep(x: System, y: System, e: Event)
    requires Ok(y.snd) && Richer(x, y) && Signal(e) && Enabled(y, e)
    ensures Enabled(x, e) && Richer(Step(x, e), Step(y, e))
  {
    hide AckIn, RtoExpired, Wrap, Emitted, Ok;
  }

  lemma {:induction false} RicherRun(x: System, y: System, es: seq<Event>) returns (fs: seq<Event>)
    requires Inv(x) && Inv(y) && Richer(x, y) && Signals(es)
    ensures Signals(fs) && Richer(Exec(x, fs), Exec(y, es))
    decreases |es|
  {
    if es == [] {
      fs := [];
    } else if Enabled(y, es[0]) {
      var e := es[0];
      InvOk(y);
      RicherStep(x, y, e);
      ExecStep(x, e, []);
      StepKeepsInv(y, e);
      hide Inv, Step, Enabled, Richer;
      var rest := RicherRun(Step(x, e), Step(y, e), es[1..]);
      ExecStep(x, e, rest);
      fs := [e] + rest;
    } else {
      hide Inv, Step, Richer;
      fs := RicherRun(x, y, es[1..]);
    }
  }

  /** Away from the sender nothing happens while no acknowledgement is owed and the next bytes are not on the network. */
  lemma OthersIdle(y: System, e: Event)
    requires Inv(y) && !y.pending && !NextAt(y) && Enabled(y, e) && Quiet(e) && !Signal(e)
    ensures Inv(Step(y, e)) && Richer(y, Step(y, e))
  {
    StepKeepsInv(y, e);
    if e.DeliverData? { OtherDataIgnored(y, e.packet); }
    hide Inv, Wrap;
  }

  lemma QuietKeepsQueue(y: System, e: Event)
    requires Inv(y) && Enabled(y, e) && Quiet(e)
    ensures Step(y, e).queued == y.queued
  {
    hide AckIn, RtoExpired, Wrap, Emitted;
  }

  /** Of a run that completes, the acknowledgements and timeouts already lead to a sign of life. */
  lemma {:induction false} SignalsSuffice(y: System, es: seq<Event>) returns (fs: seq<Event>)
    requires Inv(y) && ByItself(es) && Exec(y, es).received == y.queued
    ensures Signals(fs) && Repairable(Exec(y, fs))
    decreases |es|
  {
    if Repairable(y) {
      fs := [];
    } else if !y.snd.open || es == [] {
      Hopeless(y, es);
      assert false;
    } else {
      var e := es[0];
      assert Quiet(e) && ByItself(es[1..]);
      if !Enabled(y, e) {
        hide Inv, Step, Repairable;
        fs := SignalsSuffice(y, es[1..]);
      } else {
        StepKeepsInv(y, e);
        QuietKeepsQueue(y, e);
        var z := Step(y, e);
        if Signal(e) {
          hide Inv, Step, Enabled, Repairable;
          var rest := SignalsSuffice(z, es[1..]);
          ExecStep(y, e, rest);
          fs := [e] + rest;
        } else {
          OthersIdle(y, e);
          hide Inv, Step, Enabled, Repairable, Richer;
          var rest := SignalsSuffice(z, es[1..]);
          fs := RicherRun(y, z, rest);
          RicherRepairable(Exec(y, fs), Exec(z, rest));
        }
      }
    }
  }

  lemma Hopeless(y: System, es: seq<Event>)
    requires Inv(y) && !Repairable(y) && ByItself(es) && (!y.snd.open || es == [])
    ensures Exec(y, es).received != y.queued
  {
    if !y.snd.open {
      ReceivedAll(y);
      hide Inv;
      WedgedForever(y, es);
    }
  }

  /**
   * Exactly which transfers complete without a further send, over all reachable
   * states: those that acknowledgements on the network and timeouts alone lead to
   * a sign of life.
   */
  lemma CompletesExactly(y: System)
    requires Inv(y)
    ensures Completes(y) <==> Recovers(y)
  {
    hide Inv, Repairable;
    if Completes(y) {
      var es :| ByItself(es) && Exec(y, es).queued == y.queued && Exec(y, es).received == y.queued;
      hide Exec;
      var fs := SignalsSuffice(y, es);
    }
    if Recovers(y) {
      var es :| Signals(es) && Repairable(Exec(y, es));
      SignalsQuiet(y, es);
      hide Exec;
      var fs := CanComplete(Exec(y, es));
      ExecConcat(y, es, fs);
      assert ByItself(es + fs);
    }
  }

  lemma {:induction false} SignalsQuiet(y: System, es: seq<Event>)
    requires Inv(y) && Signals(es)
    ensures ByItself(es) && Exec(y, es).queued == y.queued
    decreases |es|
  {
    if es != [] {
      assert Signal(es[0]);
      if Enabled(y, es[0]) {
        QuietKeepsQueue(y, es[0]);
        StepKeepsInv(y, es[0]);
        hide Inv, Step, Enabled;
        SignalsQuiet(Step(y, es[0]), es[1..]);
      } else {
        SignalsQuiet(y, es[1..]);
      }
    }
  }

  /** With an empty network it comes down to what is owed and to the timer. */
  lemma EmptyNetworkIff(y: System)
    requires Inv(y) && y.snd.open && y.data == {} && y.acks == {}
    ensures var d := |y.received| - y.acked;
            Completes(y) <==>
              || |y.received| == |y.queued| || y.pending
              || (y.snd.armed && MayRetry(y.snd) && d < Min(y.snd.mss, y.snd.wnd) && Grid(d, EffectiveMss(y.snd)))
  {
    assert y.acked <= |y.received|;
    hide Inv, Completes, Grid;
    CompletesIff(y);
  }

  /**
   * A run into a wedge, from every established connection and for every send
   * of more than one segment: the first segment is received and acknowledged,
   * which disarms the timer, and the drain that follows cannot transmit. Nothing is
   * in flight, no timer runs, and the rest of the buffer is never sent.
   */
  lemma TransmitFailureWedges(y: System, bytes: seq<byte>) returns (es: seq<Event>)
    requires Established(y) && SendWindow(y.snd) >= 1 && EffectiveMss(y.snd) < |bytes| <= DEFAULT_CAPACITY
    ensures Inv(y) && |es| == 6 && es[0] == AppSend(bytes, true, 1)
    ensures var z := Exec(y, es);
            && z.snd.open && !z.snd.armed && z.queued == bytes && InFlight(z.snd) == 0
            && 0 < z.acked == |z.received| < |bytes| && !Completes(z)
  {
    hide Inv, Completes, Exec, Grid, EffectiveMss;
    var n, z;
    es, n, z := FirstAnswered(y, bytes);
    EmptyNetworkIff(z);
  }

  /**
   * The first segment of a send on a new connection is received and
   * acknowledged, the drain after it cannot transmit, and the network forgets
   * both: the timer is disarmed, nothing is in flight, and nobody has anything to say.
   */
  lemma FirstAnswered(y: System, bytes: seq<byte>) returns (es: seq<Event>, n: nat, z: System)
    requires Established(y) && SendWindow(y.snd) >= 1 && 0 < |bytes| <= DEFAULT_CAPACITY
    ensures Inv(y) && |es| == 6 && es[0] == AppSend(bytes, true, 1) && z == Exec(y, es) && Inv(z)
    ensures z.snd.open && z.snd.hasBuf && !z.snd.armed && !z.pending && z.data == {} && z.acks == {}
    ensures z.queued == bytes && InFlight(z.snd) == 0 && z.acked == |z.received| == n
    ensures 0 < n <= EffectiveMss(y.snd) && n <= |bytes|
  {
    hide Inv, Exec, Wrap, Send, EffectiveMss;
    var y1, p := FirstSegment(y, bytes);
    n := |p.payload|;
    InvOk(y1);
    var y2 := Step(y1, DeliverData(p));
    DeliverNext(y1, p);
    var a := AckPacket(y2.rcvNxt, |y2.received|, 65535);
    InvOk(y2);
    var y3 := Step(y2, EmitAck(65535));
    var y4 := AckedThenSilent(y2, y3, a);
    es := [AppSend(bytes, true, 1), DeliverData(p), EmitAck(65535), DeliverAck(a, NoSample, 0), LoseData(p), LoseAck(a)];
    InvOk(y4);
    var y5 := Step(y4, LoseData(p));
    StepKeepsInv(y4, LoseData(p));
    InvOk(y5);
    z := Step(y5, LoseAck(a));
    assert z.data == {} && z.acks == {};
    hide Step;
    StepKeepsInv(y5, LoseAck(a));
    RunOfSix(y, es, y1, y2, y3, y4, y5, z);
  }

  lemma RunOfSix(y: System, es: seq<Event>, y1: System, y2: System, y3: System, y4: System, y5: System, y6: System)
    requires Inv(y) && |es| == 6 && Enabled(y, es[0]) && y1 == Step(y, es[0])
    requires Inv(y1) && Enabled(y1, es[1]) && y2 == Step(y1, es[1])
    requires Inv(y2) && Enabled(y2, es[2]) && y3 == Step(y2, es[2])
    requires Inv(y3) && Enabled(y3, es[3]) && y4 == Step(y3, es[3])
    requires Inv(y4) && Enabled(y4, es[4]) && y5 == Step(y4, es[4])
    requires Inv(y5) && Enabled(y5, es[5]) && y6 == Step(y5, es[5])
    ensures Exec(y, es) == y6
  {
    hide Inv, Enabled, Step;
    ExecStep(y, es[0], es[1..]);
    ExecStep(y1, es[1], es[2..]);
    ExecStep(y2, es[2], es[3..]);
    ExecStep(y3, es[3], es[4..]);
    ExecStep(y4, es[4], es[5..]);
    ExecStep(y5, es[5], []);
    assert es == [es[0]] + es[1..] && es[1..] == [es[1]] + es[2..] && es[2..] == [es[2]] + es[3..];
    assert es[3..] == [es[3]] + es[4..] && es[4..] == [es[4]] + es[5..] && es[5..] == [es[5]] + [];
  }

  /** A first send with one successful transmit puts exactly its first segment on the network. */
  lemma FirstSegment(y: System, bytes: seq<byte>) returns (y1: System, p: Packet)
    requires Established(y) && SendWindow(y.snd) >= 1 && 0 < |bytes| <= DEFAULT_CAPACITY
    ensures y1 == Step(y, AppSend(bytes, true, 1)) && Inv(y) && Inv(y1)
    ensures y1 == y.(snd := y1.snd, queued := bytes, data := {p}) && y1.snd.open && p.off == 0
    ensures 0 < |p.payload| <= EffectiveMss(y.snd) && y1.snd.nxt == Wrap(y1.snd.una + |p.payload|)
    ensures p.payload <= bytes && y1.snd.buf == bytes && y1.snd.hasBuf
  {
    EstablishedInv(y);
    SendKeepsInv(y, AppSend(bytes, true, 1));
    assert y.snd.nxt == y.snd.una && y.snd.buf == [];
    hide Inv, Wrap, Send, EffectiveMss, NextLength;
    y1 := Step(y, AppSend(bytes, true, 1));
    var n := SendOnEmpty(y.snd, bytes);
    var g := Segment(y.snd.una, bytes[..n]);
    p := Packet(y.snd.una, bytes[..n], 0);
    OneEmitted(g, y.snd.una, 0);
    Unmoved(y, y1.snd, [g]);
    assert [] + bytes == bytes && bytes[..|bytes|] == bytes;
  }

  /** A send on an empty buffer is accepted whole, and its first segment goes out if the window allows one byte. */
  lemma SendOnEmpty(s: Sender, bytes: seq<byte>) returns (n: nat)
    requires s.open && s.buf == [] && s.nxt == s.una && (s.hasBuf ==> s.cap >= DEFAULT_CAPACITY)
    requires 0 < |bytes| <= DEFAULT_CAPACITY
    ensures var (s', segs, queued) := Send(s, bytes, true, 1);
            && s'.open && s'.una == s.una && s'.buf == bytes && s'.hasBuf && queued == |bytes|
            && (SendWindow(s) >= 1 ==> 0 < n <= |bytes| && n <= EffectiveMss(s)
                                       && segs == [Segment(s.una, bytes[..n])] && s'.nxt == Wrap(s.una + n))
  {
    WrapSmall(0);
    assert s.nxt - s.una == 0;
    hide Wrap;
    var s1 := if s.hasBuf then s
              else s.(hasBuf := true, buf := [], baseSeq := s.una, cap := DEFAULT_CAPACITY);
    assert Accepted(s1, bytes) == |bytes| && bytes[..|bytes|] == bytes && [] + bytes == bytes;
    var s0 := s1.(buf := bytes);
    DrainChangesNxt(s0, 1);
    SameMss(s, s0);
    n := NextLength(s0, 0);
    if SendWindow(s) >= 1 { DrainOnce(s0, n); }
    hide Drain, DrainFrom;
  }

  lemma OneEmitted(g: Segment, una: u32, acked: nat)
    requires g.start == una
    ensures Emitted([g], una, acked) == {Packet(una, g.payload, acked)}
  {
    WrapSmall(0);
    hide Wrap;
    assert una - una == 0;
    assert g in [g];
  }

  lemma DrainOnce(s: Sender, n: nat)
    requires s.hasBuf && s.buf != [] && InFlight(s) == 0 && n == NextLength(s, 0) > 0
    ensures Drain(s, 1) == (s.(nxt := Wrap(s.nxt + n)), [Segment(s.nxt, s.buf[..n])])
  {
    hide Wrap;
    var s1 := s.(nxt := Wrap(s.nxt + n));
    assert DrainFrom(s1, n, 0) == (s1, []);
    DrainFromStep(s, 0, 1, n);
    assert s.buf[0..n] == s.buf[..n];
    assert [Segment(s.nxt, s.buf[..n])] + [] == [Segment(s.nxt, s.buf[..n])];
  }

  /** The acknowledgement of the whole flight disarms the timer, and a drain without transmits changes nothing. */
  lemma AckedThenSilent(y2: System, y3: System, a: AckPacket) returns (y4: System)
    requires Inv(y2) && y2.pending && y2.snd.open && y2.acks == {} && y2.acked == 0 && 0 < |y2.received|
    requires y2.snd.nxt == Wrap(y2.snd.una + |y2.received|)
    requires a == AckPacket(y2.rcvNxt, |y2.received|, 65535) && y3 == Step(y2, EmitAck(65535))
    ensures Inv(y3) && Enabled(y3, DeliverAck(a, NoSample, 0)) && y4 == Step(y3, DeliverAck(a, NoSample, 0)) && Inv(y4)
    ensures y4.snd.open && y4.snd.hasBuf == y2.snd.hasBuf && !y4.snd.armed && InFlight(y4.snd) == 0
    ensures y4 == y2.(snd := y4.snd, acked := |y2.received|, pending := false, acks := {a})
  {
    hide SeqGt, AckIn;
    StepKeepsInv(y2, EmitAck(65535));
    assert y3 == y2.(acks := {a}, pending := false);
    assert Ok(y2.snd) && y2.rcvNxt == Wrap(y2.origin + |y2.received|) && y2.snd.una == Wrap(y2.origin + 0);
    assert |y2.received| <= |y2.snd.buf| < HALF;
    WrapSum(y2.origin + 0, |y2.received|);
    hide Wrap, Inv, AckIn, Ok;
    AckStep(y3, a, 0);
    y4 := Step(y3, DeliverAck(a, NoSample, 0));
    FullAckDisarms(y2.snd, a.ack, |y2.received|);
    assert Emitted([], y4.snd.una, y4.acked) == {};
  }

  lemma FullAckDisarms(s: Sender, ack: u32, n: nat)
    requires Ok(s) && s.open && 0 < n < HALF && ack == s.nxt == Wrap(s.una + n)
    ensures var r := AckIn(s, ack, 65535, NoSample, 0);
            r.1 == [] && !r.0.armed && r.0.hasBuf == s.hasBuf && r.0.nxt == r.0.una && InFlight(r.0) == 0
  {
    WrapSmall(0);
    AckCases(s, ack, n);
    SeqGtExact(ack, 0, 0);
    WrapSmall(ack);
    hide Wrap, SeqGt, NewReno.OnAck;
  }

  // ---------------------------------------------------------- long transfers

  /** Everything sent has arrived and is acknowledged, and the next send will get through. */
  ghost predicate Idle(y: System) {
    && Inv(y) && y.snd.open && y.acked == |y.received| == |y.queued|
    && (SendWindow(y.snd) >= 1 || Told(y))
  }

  lemma IdleSender(y: System)
    requires Idle(y)
    ensures Ok(y.snd) && y.snd.buf == [] && (y.snd.hasBuf ==> y.snd.cap >= DEFAULT_CAPACITY)
    ensures InFlight(y.snd) == 0 && y.snd.nxt == y.snd.una
  {
    WrapBack(y.snd.una, y.snd.nxt);
    WrapSmall(y.snd.una);
  }

  /** An idle connection takes a whole buffer of data and can deliver it. */
  lemma AcceptsAll(y: System, bytes: seq<byte>)
    requires Idle(y) && 0 < |bytes| <= DEFAULT_CAPACITY
    ensures var z := Step(y, AppSend(bytes, true, 1));
            && Enabled(y, AppSend(bytes, true, 1)) && Inv(z) && z.snd.open && z.queued == y.queued + bytes
            && z.received == y.received && z.origin == y.origin && y.data <= z.data
            && Repairable(z)
  {
    hide Inv, Wrap, Send, EffectiveMss, NextAt, Told, TimerHelps;
    SendKeepsInv(y, AppSend(bytes, true, 1));
    IdleSender(y);
    var n := SendOnEmpty(y.snd, bytes);
    var z := Step(y, AppSend(bytes, true, 1));
    assert bytes[..|bytes|] == bytes;
    if SendWindow(y.snd) >= 1 {
      var g := Segment(y.snd.una, bytes[..n]);
      OneEmitted(g, y.snd.una, y.acked);
      Unmoved(y, z.snd, [g]);
      IsNext(z, Packet(y.snd.una, bytes[..n], y.acked));
    } else {
      StillTold(y, z);
    }
  }

  lemma IsNext(y: System, p: Packet)
    requires p in y.data && p.off == |y.received|
    ensures NextAt(y)
  {
  }

  lemma StillTold(y: System, z: System)
    requires Told(y) && z.acks == y.acks && z.received == y.received
    ensures Told(z)
  {
  }

  /** The acknowledgement a receiver owes brings the sender up to date. */
  lemma CatchUp(y: System) returns (es: seq<Event>, z: System)
    requires Inv(y) && y.snd.open && y.pending && |y.received| == |y.queued|
    ensures LeadsTo(y, es, z) && Idle(z)
  {
    var e := EmitAck(65535);
    StepKeepsInv(y, e);
    var y1 := Step(y, e);
    var a := AckPacket(y.rcvNxt, |y.received|, 65535);
    assert y1.acked <= |y1.received|;
    AckStep(y1, a, 0);
    var f := DeliverAck(a, NoSample, 0);
    z := Step(y1, f);
    assert a in z.acks && Told(z);
    hide Step, Enabled, Inv, Exec;
    LeadsNowhere(z);
    LeadsOn(y1, f, [], z);
    LeadsOn(y, e, [f] + [], z);
    es := [e] + ([f] + []);
  }

  /** One more buffer of data is sent, delivered and acknowledged, with nothing lost. */
  lemma SendMore(y: System, bytes: seq<byte>) returns (es: seq<Event>, z: System)
    requires Idle(y) && 0 < |bytes| <= DEFAULT_CAPACITY
    ensures Idle(z) && Exec(y, es) == z && z.queued == y.queued + bytes && z.origin == y.origin && y.data <= z.data
  {
    var e := AppSend(bytes, true, 1);
    AcceptsAll(y, bytes);
    var y1 := Step(y, e);
    ReceivedAll(y);
    hide Step, Enabled, Inv, Repairable, Exec;
    var deliver := CanComplete(y1);
    var y2 := Exec(y1, deliver);
    var acknowledge, y3 := CatchUp(y2);
    LeadsThrough(y1, deliver, y2, acknowledge, y3);
    ExecStep(y, e, deliver + acknowledge);
    es, z := [e] + (deliver + acknowledge), y3;
  }

  /** n buffers of zeros, one after the other. */
  lemma {:induction false} SendZeros(y: System, n: nat) returns (es: seq<Event>, z: System)
    requires Idle(y)
    ensures Idle(z) && Exec(y, es) == z && z.origin == y.origin && y.data <= z.data
    ensures y.queued <= z.queued && |z.queued| == |y.queued| + n * DEFAULT_CAPACITY
    decreases n
  {
    if n == 0 {
      es, z := [], y;
      hide Inv, Told;
    } else {
      hide Inv, Told, Exec;
      var zeros: seq<byte> := seq(DEFAULT_CAPACITY, _ => 0);
      var first, y1 := SendMore(y, zeros);
      var rest, y2 := SendZeros(y1, n - 1);
      ExecConcat(y, first, rest);
      es, z := first + rest, y2;
      assert n * DEFAULT_CAPACITY == (n - 1) * DEFAULT_CAPACITY + DEFAULT_CAPACITY;
    }
  }

  /**
   * Why delivery needs the segment lifetime: from every established connection
   * a run leads to a state in which the very first segment, still on the network
   * after 2^32 bytes, is taken for the next one and corrupts the stream.
   */
  lemma StaleDataCorrupts(y: System) returns (es: seq<Event>, p: Packet)
    requires Established(y) && SendWindow(y.snd) >= 1
    ensures Inv(y)
    ensures var z := Exec(y, es);
            && p in z.data && p.start == z.rcvNxt && |z.received| - p.off == MODULUS
            && !(z.received + p.payload <= z.queued)
  {
    hide Inv, Exec, Wrap, Send, EffectiveMss, NextAt;
    var y3, first := FirstBuffer(y);
    var before, q := first.0, first.1;
    p := q;
    var more, y4 := SendZeros(y3, 65535);
    ExecConcat(y, before, more);
    AcceptsAll(y4, [1]);
    var last := AppSend([1], true, 1);
    InvOk(y4);
    var y5 := Step(y4, last);
    hide Step, Enabled;
    ExecConcat(y, before + more, [last]);
    ExecStep(y4, last, []);
    ExecDone(y5);
    assert [last] + [] == [last];
    es := before + more + [last];
    Corrupts(y5, p);
  }

  /** The first buffer of zeros is sent, delivered and acknowledged; its first segment stays on the network. */
  lemma FirstBuffer(y: System) returns (z: System, run: (seq<Event>, Packet))
    requires Established(y) && SendWindow(y.snd) >= 1
    ensures Inv(y) && Idle(z) && Exec(y, run.0) == z && z.origin == y.origin && |z.queued| == DEFAULT_CAPACITY
    ensures run.1 in z.data && run.1.off == 0 && run.1.payload != [] && run.1.payload[0] == 0
  {
    EstablishedInv(y);
    hide Inv, Exec, Wrap, Send, EffectiveMss;
    var zeros: seq<byte> := seq(DEFAULT_CAPACITY, _ => 0);
    var e := AppSend(zeros, true, 1);
    var y1, p := FirstSegment(y, zeros);
    assert NextAt(y1) && Repairable(y1);
    assert Enabled(y, e);
    hide Step, Repairable, Established;
    var deliver := CanComplete(y1);
    var y2 := Exec(y1, deliver);
    var acknowledge, y3 := CatchUp(y2);
    LeadsThrough(y1, deliver, y2, acknowledge, y3);
    ExecStep(y, e, deliver + acknowledge);
    z, run := y3, ([e] + (deliver + acknowledge), p);
  }

  lemma ExecDone(y: System)
    requires Inv(y)
    ensures Exec(y, []) == y
  {
  }

  lemma Corrupts(y: System, p: Packet)
    requires Inv(y) && p in y.data && p.off == 0 && p.payload != [] && p.payload[0] == 0
    requires |y.received| == MODULUS < |y.queued| && y.queued[MODULUS] == 1
    ensures p.start == y.rcvNxt && !(y.received + p.payload <= y.queued)
  {
    assert PacketOk(p, y.origin, y.queued);
    WrapShift(y.origin, 1);
    hide Wrap;
    var bad := y.received + p.payload;
    assert bad[MODULUS] == 0;
  }
}
