/**
 * When a streamed response can still be finished (server.c with tcp_fsm.c).
 * The pump is the one sender left: it runs from the timer wheel, which visits
 * only records on it, and inside the ACK handler, and idles above its high-water mark.
 */
module ChunkedRecovery {
  import opened Basics
  import opened SequenceNumbers
  import opened SenderSpec
  import opened ChunkedStream
  import N = StreamTransfer
  import R = StreamRecovery
  import H = HttpChunks
  import W = WheelSpec
  import K = WheelClock
  import M = WheelMembers

  /** The receiver's application sends nothing. */
  predicate Undisturbed(e: Event) { e.Net? ==> R.Quiet(e.e) }

  predicate AllUndisturbed(es: seq<Event>) { forall i :: 0 <= i < |es| ==> Undisturbed(es[i]) }

  predicate BelowMark(v: Server) { |v.net.snd.buf| <= CHUNK_SIZE * 4 }

  // -------------------------------------------------------------- conditions

  /**
   * The next pump gets an up-to-date sender going: with nothing in flight it
   * transmits the byte the receiver waits for, otherwise it arms the timer for it.
   */
  ghost predicate PumpWorks(v: Server) {
    var s := v.net.snd;
    && v.net.acked == |v.net.received| && BelowMark(v) && R.WindowFor(v.net, 0)
    && if s.nxt == s.una then s.cc.cwnd >= 1 else MayRetry(s)
  }

  /** The wheel will run it. */
  ghost predicate PumpRevives(v: Server) { v.scheduled && PumpWorks(v) }

  /** A sign of life of a response that is still being streamed. */
  ghost predicate Alive(v: Server) {
    || v.net.pending || R.NextAt(v.net) || R.Told(v.net)
    || (R.TimerHelps(v.net) && (|v.net.received| < |v.net.queued| || BelowMark(v)))
    || PumpRevives(v)
  }

  ghost predicate Finishable(v: Server) {
    if Streaming(v) then v.net.snd.open && Alive(v) else R.Repairable(v.net)
  }

  /** z comes after v in some undisturbed run. */
  ghost predicate Reaches(v: Server, z: Server, before: seq<byte>, size: nat)
    requires Inv(v, before, size)
  {
    Inv(z, before, size) && exists es :: AllUndisturbed(es) && Exec(v, es, before, size) == z
  }

  /** Some undisturbed run queues the whole response and delivers it. */
  ghost predicate Finishes(v: Server, before: seq<byte>, size: nat)
    requires Inv(v, before, size)
  {
    exists es :: AllUndisturbed(es) && Finished(Exec(v, es, before, size))
  }

  predicate Finished(v: Server) { !Streaming(v) && v.net.received == v.net.queued }

  // ------------------------------------------------------------------- runs

  lemma {:induction false} ExecConcat(v: Server, es: seq<Event>, fs: seq<Event>, before: seq<byte>, size: nat)
    requires Inv(v, before, size)
    ensures Exec(v, es + fs, before, size) == Exec(Exec(v, es, before, size), fs, before, size)
    decreases |es|
  {
    if es == [] {
      assert es + fs == fs;
    } else {
      assert (es + fs)[1..] == es[1..] + fs;
      if Enabled(v, es[0]) {
        StepKeepsInv(v, es[0], before, size);
        hide Inv, Step, Enabled;
        ExecConcat(Step(v, es[0]), es[1..], fs, before, size);
      } else {
        hide Inv, Enabled;
        ExecConcat(v, es[1..], fs, before, size);
      }
    }
  }

  lemma ReachesSelf(v: Server, before: seq<byte>, size: nat)
    requires Inv(v, before, size)
    ensures Reaches(v, v, before, size)
  {
    hide Inv;
    assert AllUndisturbed([]) && Exec(v, [], before, size) == v;
  }

  lemma StepReaches(v: Server, e: Event, before: seq<byte>, size: nat)
    requires Inv(v, before, size) && Enabled(v, e) && Undisturbed(e)
    ensures Reaches(v, Step(v, e), before, size)
  {
    StepKeepsInv(v, e, before, size);
    hide Inv, Step, Enabled, Undisturbed;
    assert AllUndisturbed([e]) && [e][1..] == [];
    assert Exec(v, [e], before, size) == Exec(Step(v, e), [], before, size) == Step(v, e);
  }

  lemma ReachesTransitive(v: Server, x: Server, z: Server, before: seq<byte>, size: nat)
    requires Inv(v, before, size) && Inv(x, before, size) && Reaches(v, x, before, size) && Reaches(x, z, before, size)
    ensures Reaches(v, z, before, size)
  {
    hide Inv, Exec, Undisturbed;
    var es :| AllUndisturbed(es) && Exec(v, es, before, size) == x;
    var fs :| AllUndisturbed(fs) && Exec(x, fs, before, size) == z;
    ExecConcat(v, es, fs, before, size);
    assert AllUndisturbed(es + fs);
  }

  lemma ReachesFinish(v: Server, z: Server, before: seq<byte>, size: nat)
    requires Inv(v, before, size) && Inv(z, before, size) && Reaches(v, z, before, size) && Finishes(z, before, size)
    ensures Finishes(v, before, size)
  {
    var fs :| AllUndisturbed(fs) && Finished(Exec(z, fs, before, size));
    hide Inv, Exec, Finished;
    StepsReach(z, fs, before, size);
    ReachesTransitive(v, z, Exec(z, fs, before, size), before, size);
  }

  lemma StepsReach(v: Server, es: seq<Event>, before: seq<byte>, size: nat)
    requires Inv(v, before, size) && AllUndisturbed(es)
    ensures Reaches(v, Exec(v, es, before, size), before, size)
  {
    hide Inv, Exec;
  }

  // ------------------------------------------------------------- single steps

  /** An acknowledgement that brings no news runs no pump: the server does what the sender does. */
  lemma StaleArrives(v: Server, a: N.AckPacket, sample: Sample, budget: nat)
    requires N.Inv(v.net) && v.net.snd.open && a in v.net.acks && R.Stale(v.net, a)
    ensures Enabled(v, AckArrives(a, sample, budget, 0))
    ensures forall k :: Step(v, AckArrives(a, sample, budget, k)) == v.(net := N.Step(v.net, N.DeliverAck(a, sample, budget)))
  {
    var y := v.net;
    WrapSum(y.origin + y.acked, a.upTo - y.acked);
    N.AckCases(y.snd, a.ack, a.upTo - y.acked);
    hide Wrap, SeqGt, N.Inv;
  }

  /** The frame a pump of a response with something left to send queues. */
  lemma PumpGrows(v: Server, budget: nat, before: seq<byte>, size: nat)
    requires Inv(v, before, size) && size > 0 && v.net.snd.open && Streaming(v) && BelowMark(v)
    ensures var z := Pumped(v, true, budget);
            Inv(z, before, size) && PumpFrame(v, z) && |z.net.queued| > |v.net.queued|
  {
    PumpKeepsInv(v, true, budget, before, size);
    BytesNonempty(Decide(v.stream, v.net.snd));
    hide Pieces, H.Chunks, N.Inv, Bytes;
    assert v.stream.total == size;
  }

  /** News of everything received, and the pump that comes with it. */
  lemma Learn(v: Server, a: N.AckPacket, before: seq<byte>, size: nat) returns (z: Server)
    requires Inv(v, before, size) && v.net.snd.open && a in v.net.acks
    requires v.net.acked < a.upTo == |v.net.received|
    ensures Reaches(v, z, before, size) && z.net.snd.open && a in z.net.acks
    ensures z.net.acked == |z.net.received| && z.net.received == v.net.received && v.net.queued <= z.net.queued
    ensures |z.net.queued| == |v.net.queued| ==> z.stream == v.stream
  {
    var e := AckArrives(a, NoSample, 0, 0);
    BytesNonempty(Decide(Acked(v, a, NoSample, 0).stream, Acked(v, a, NoSample, 0).net.snd));
    PumpIdles(Acked(v, a, NoSample, 0));
    assert N.Enabled(v.net, N.DeliverAck(a, NoSample, 0));
    AckedKeepsInv(v, a, NoSample, 0, before, size);
    var v1 := Acked(v, a, NoSample, 0);
    R.AckStep(v.net, a, 0);
    PumpKeepsInv(v1, true, 0, before, size);
    hide Inv, Acked, Pumped, N.Step, Bytes;
    assert v1.net.acked == |v1.net.received| && v1.net.queued == v.net.queued && a in v1.net.acks by { AckedFields(v, a); }
    StepReaches(v, e, before, size);
    z := Step(v, e);
  }

  lemma PumpIdles(v: Server)
    requires Ok(v.net.snd)
    ensures Decide(v.stream, v.net.snd).Idle? ==> Pumped(v, true, 0) == v
  {
  }

  lemma AckedFields(v: Server, a: N.AckPacket)
    requires N.Inv(v.net) && v.net.snd.open && a in v.net.acks && R.Deliverable(v.net, a)
    ensures N.Enabled(v.net, N.DeliverAck(a, NoSample, 0))
    ensures var v1 := Acked(v, a, NoSample, 0);
            && v1.net == v.net.(snd := v1.net.snd, acked := Max(v.net.acked, a.upTo), data := v1.net.data)
  {
    R.AckStep(v.net, a, 0);
    hide N.Inv, N.Step;
  }

  /** A duplicate of the latest acknowledgement: the third one retransmits the oldest bytes. */
  lemma NudgeOnce(v: Server, a: N.AckPacket, before: seq<byte>, size: nat) returns (z: Server)
    requires Inv(v, before, size) && v.net.snd.open && a in v.net.acks
    requires a.upTo == v.net.acked == |v.net.received| < |v.net.queued|
    ensures Reaches(v, z, before, size) && Inv(z, before, size) && z.net.snd.open && a in z.net.acks
    ensures z.net.received == v.net.received && z.net.acked == v.net.acked && z.net.queued == v.net.queued
    ensures z.net.snd.dupAcks == (v.net.snd.dupAcks + 1) % 256 && (z.net.snd.dupAcks == 3 ==> R.NextAt(z.net))
  {
    var e := AckArrives(a, NoSample, 1, 0);
    InvNet(v, before, size);
    hide Inv, N.Step, N.Inv, Pumped, Acked;
    StaleArrives(v, a, NoSample, 1);
    R.DuplicateSends(v.net, a);
    hide Enabled, Step;
    StepReaches(v, e, before, size);
    z := Step(v, e);
  }

  /** Duplicates of the latest acknowledgement until the oldest bytes are retransmitted. */
  lemma {:induction false} Nudge(v: Server, a: N.AckPacket, before: seq<byte>, size: nat) returns (z: Server)
    requires Inv(v, before, size) && v.net.snd.open && a in v.net.acks
    requires a.upTo == v.net.acked == |v.net.received| < |v.net.queued|
    ensures Reaches(v, z, before, size) && z.net.snd.open && z.net.received == v.net.received && R.NextAt(z.net)
    decreases R.ToThird(v.net.snd.dupAcks)
  {
    hide Inv, R.NextAt, Reaches;
    var v1 := NudgeOnce(v, a, before, size);
    if v1.net.snd.dupAcks == 3 {
      z := v1;
    } else {
      z := Nudge(v1, a, before, size);
      ReachesTransitive(v, v1, z, before, size);
    }
  }

  // ------------------------------------------------------------------- repair

  /** The next bytes get onto the network while the receiver stays where it is. */
  ghost predicate LeadsToNext(v: Server, z: Server, before: seq<byte>, size: nat)
    requires Inv(v, before, size)
  {
    Reaches(v, z, before, size) && z.net.snd.open && z.net.received == v.net.received && R.NextAt(z.net)
  }

  lemma ThenNext(v: Server, x: Server, z: Server, before: seq<byte>, size: nat)
    requires Inv(v, before, size) && Inv(x, before, size) && Reaches(v, x, before, size)
    requires x.net.received == v.net.received && LeadsToNext(x, z, before, size)
    ensures LeadsToNext(v, z, before, size)
  {
    hide Inv;
    ReachesTransitive(v, x, z, before, size);
  }

  lemma InvNet(v: Server, before: seq<byte>, size: nat)
    requires Inv(v, before, size)
    ensures N.Inv(v.net) && Ok(v.net.snd) && Roomy(v.net.snd)
    ensures v.net.acked <= |v.net.received| <= |v.net.queued| && |v.net.snd.buf| == |v.net.queued| - v.net.acked
    ensures WheelKnows(v)
  {
    hide Pieces, H.Chunks;
  }

  /** A sender told how far the receiver is. */
  lemma ToldNext(v: Server, before: seq<byte>, size: nat) returns (z: Server)
    requires Inv(v, before, size) && v.net.snd.open && size > 0 && R.Told(v.net)
    requires |v.net.received| < |v.net.queued| || Streaming(v)
    ensures LeadsToNext(v, z, before, size)
  {
    var a :| a in v.net.acks && a.upTo == |v.net.received|;
    hide Inv, Enabled, Reaches, R.Told;
    var x := UpToDate(v, a, before, size);
    InvNet(x, before, size);
    var w := HasData(x, before, size);
    z := Nudge(w, a, before, size);
    NudgeLeads(w, z, before, size);
    ThenNext(x, w, z, before, size);
    ThenNext(v, x, z, before, size);
  }

  lemma NudgeLeads(v: Server, z: Server, before: seq<byte>, size: nat)
    requires Inv(v, before, size)
    requires Reaches(v, z, before, size) && z.net.snd.open && z.net.received == v.net.received && R.NextAt(z.net)
    ensures LeadsToNext(v, z, before, size)
  {
  }

  lemma UpToDate(v: Server, a: N.AckPacket, before: seq<byte>, size: nat) returns (x: Server)
    requires Inv(v, before, size) && v.net.snd.open && a in v.net.acks && a.upTo == |v.net.received|
    requires |v.net.received| < |v.net.queued| || Streaming(v)
    ensures Reaches(v, x, before, size) && Inv(x, before, size) && x.net.snd.open && a in x.net.acks
    ensures x.net.acked == |x.net.received| && x.net.received == v.net.received
    ensures |x.net.received| < |x.net.queued| || Streaming(x)
  {
    InvNet(v, before, size);
    hide Inv, Enabled;
    if v.net.acked < a.upTo {
      x := Learn(v, a, before, size);
      InvNet(x, before, size);
    } else {
      x := v;
      ReachesSelf(v, before, size);
    }
  }

  /** An up-to-date sender with an empty buffer pumps. */
  lemma HasData(v: Server, before: seq<byte>, size: nat) returns (x: Server)
    requires Inv(v, before, size) && size > 0 && v.net.snd.open && v.net.acked == |v.net.received|
    requires |v.net.received| < |v.net.queued| || Streaming(v)
    ensures Reaches(v, x, before, size) && Inv(x, before, size) && x.net.snd.open && x.net.acks == v.net.acks
    ensures x.net.acked == |x.net.received| < |x.net.queued| && x.net.received == v.net.received
  {
    InvNet(v, before, size);
    hide Inv, Enabled;
    if |v.net.received| < |v.net.queued| {
      x := v;
      ReachesSelf(v, before, size);
    } else {
      x := PumpedReaches(v, 0, before, size);
    }
  }

  /** A visit of the wheel before the timer expires pumps. */
  lemma PumpedReaches(v: Server, budget: nat, before: seq<byte>, size: nat) returns (z: Server)
    requires Inv(v, before, size) && size > 0 && v.net.snd.open && v.scheduled && Streaming(v) && BelowMark(v)
    ensures Ok(v.net.snd) && z == Rescheduled(Pumped(v, true, budget)) && Inv(z, before, size) && PumpFrame(v, z)
    ensures |z.net.queued| > |v.net.queued| && Reaches(v, z, before, size)
  {
    var e := Visit(false, 0, true, budget);
    InvNet(v, before, size);
    hide Inv;
    PumpGrows(v, budget, before, size);
    hide Pumped;
    StepReaches(v, e, before, size);
    z := Step(v, e);
  }

  /** A receiver that owes an acknowledgement. */
  lemma PendingNext(v: Server, before: seq<byte>, size: nat) returns (z: Server)
    requires Inv(v, before, size) && v.net.snd.open && size > 0 && v.net.pending
    requires |v.net.received| < |v.net.queued| || Streaming(v)
    ensures LeadsToNext(v, z, before, size)
  {
    InvNet(v, before, size);
    var e := Net(N.EmitAck(65535));
    var x := Step(v, e);
    assert N.AckPacket(v.net.rcvNxt, |v.net.received|, 65535) in x.net.acks;
    assert R.Told(x.net);
    hide Inv, N.Inv, R.Told;
    StepReaches(v, e, before, size);
    hide Step;
    z := ToldNext(x, before, size);
    ThenNext(v, x, z, before, size);
  }

  /** A window for the next byte, from a stale acknowledgement if need be; nothing else the timer needs changes. */
  lemma OpenWindow(v: Server, d: nat, before: seq<byte>, size: nat) returns (x: Server)
    requires Inv(v, before, size) && v.net.snd.open && R.WindowFor(v.net, d)
    ensures Reaches(v, x, before, size) && Inv(x, before, size) && d < x.net.snd.wnd
    ensures x.stream == v.stream && x.scheduled == v.scheduled
    ensures x.net == v.net.(snd := x.net.snd, data := x.net.data)
    ensures x.net.snd == v.net.snd.(wnd := x.net.snd.wnd, dupAcks := x.net.snd.dupAcks, cc := x.net.snd.cc)
    ensures v.net.snd.cc.cwnd >= 1 && !R.Told(v.net) && v.net.acked == |v.net.received| ==> x.net.snd.cc == v.net.snd.cc
  {
    InvNet(v, before, size);
    if d < v.net.snd.wnd {
      hide Inv;
      x := v;
      ReachesSelf(v, before, size);
    } else {
      var a :| a in v.net.acks && R.Stale(v.net, a) && d < a.win;
      StaleArrives(v, a, NoSample, 0);
      R.StaleStep(v.net, a, 0);
      R.StaleKeepsTimer(v.net.snd);
      R.AckStep(v.net, a, 0);
      hide Inv, Step, Enabled, N.Inv, N.Step, Duplicate;
      StepReaches(v, AckArrives(a, NoSample, 0, 0), before, size);
      x := Step(v, AckArrives(a, NoSample, 0, 0));
    }
  }

  /** A timer whose retransmission the receiver takes. */
  lemma TimerNext(v: Server, before: seq<byte>, size: nat) returns (z: Server)
    requires Inv(v, before, size) && v.net.snd.open && |v.net.received| < |v.net.queued| && R.TimerHelps(v.net)
    ensures LeadsToNext(v, z, before, size)
  {
    InvNet(v, before, size);
    var d := |v.net.received| - v.net.acked;
    hide Inv, Grid, N.Inv;
    var x := OpenWindow(v, d, before, size);
    InvNet(x, before, size);
    SameMss(v.net.snd, x.net.snd);
    assert TimeoutOffset(x.net.snd, d) && MayRetry(x.net.snd) && x.net.snd.armed;
    hide TimeoutOffset, MayRetry, Reaches;
    z := VisitRetransmits(x, before, size);
    ThenNext(v, x, z, before, size);
  }

  /** A visit after the timer expired retransmits, and what it pumps changes nothing about that. */
  lemma VisitRetransmits(x: Server, before: seq<byte>, size: nat) returns (z: Server)
    requires Inv(x, before, size) && x.net.snd.open && |x.net.received| < |x.net.queued| && x.net.snd.armed
    requires MayRetry(x.net.snd) && TimeoutOffset(x.net.snd, |x.net.received| - x.net.acked)
    ensures LeadsToNext(x, z, before, size)
  {
    InvNet(x, before, size);
    hide Inv, N.Inv, TimeoutOffset, MayRetry, Reaches, Pumped;
    var n := R.TimeoutRepairs(x.net);
    var e := Visit(true, n.rtoBudget, true, 0);
    ExpiredKeepsInv(x, true, n.rtoBudget, before, size);
    var v1 := Expired(x, true, n.rtoBudget);
    assert v1.net == N.Step(x.net, n);
    hide N.Step, Expired;
    PumpKeepsInv(v1, true, 0, before, size);
    StepReaches(x, e, before, size);
    z := Step(x, e);
    NudgeLeads(x, z, before, size);
  }

  /** With nothing in flight and an open window, a pump with one transmit sends the byte the receiver waits for. */
  lemma PumpTransmits(v: Server)
    requires N.Inv(v.net) && v.net.snd.open && Roomy(v.net.snd) && BelowMark(v) && v.net.acked == |v.net.received|
    requires v.net.snd.nxt == v.net.snd.una && SendWindow(v.net.snd) >= 1 && !Decide(v.stream, v.net.snd).Idle?
    ensures Ok(v.net.snd) && R.NextAt(Pumped(v, true, 1).net)
  {
    var a := Decide(v.stream, v.net.snd);
    FrameSize(a);
    BytesNonempty(a);
    hide N.Inv, Bytes, Decide, Wrap, Send, N.Emitted, R.NextAt;
    FirstOut(v.net.snd, Bytes(a));
    SendTakesAll(v.net.snd, Bytes(a), true, 1);
    var (s', segs, n) := Send(v.net.snd, Bytes(a), true, 1);
    assert segs == [segs[0]];
    R.OneEmitted(segs[0], v.net.snd.una, v.net.acked);
    R.Unmoved(v.net, s', segs);
    R.IsNext(Pumped(v, true, 1).net, N.Packet(v.net.snd.una, segs[0].payload, v.net.acked));
  }

  lemma FirstOut(s: Sender, data: seq<byte>)
    requires s.open && Roomy(s) && |s.buf| <= CHUNK_SIZE * 4 && 0 < |data| < FRAME_SIZE
    requires s.nxt == s.una && SendWindow(s) >= 1
    ensures var segs := Send(s, data, true, 1).1; |segs| == 1 && segs[0].start == s.una
  {
    WrapSmall(0);
    hide Wrap;
    assert s.nxt - s.una == 0;
    assert Accepted(s, data) == |data| && data[..|data|] == data;
    var s1 := s.(buf := s.buf + data);
    assert InFlight(s1) == 0;
    R.DrainOnce(s1, NextLength(s1, 0));
    hide Drain;
  }

  /** Without a transmit the pump arms the timer if something is in flight. */
  lemma PumpArms(v: Server)
    requires N.Inv(v.net) && v.net.snd.open && Roomy(v.net.snd) && BelowMark(v)
    requires v.net.snd.nxt != v.net.snd.una && !Decide(v.stream, v.net.snd).Idle?
    ensures Ok(v.net.snd) && Pumped(v, true, 0).net.snd.armed
  {
    var a := Decide(v.stream, v.net.snd);
    FrameSize(a);
    hide N.Inv, Bytes, Decide, Wrap;
    NothingOut(v.net.snd, Bytes(a));
    hide Send;
  }

  lemma NothingOut(s: Sender, data: seq<byte>)
    requires s.open && s.hasBuf && |data| < MODULUS
    ensures Send(s, data, true, 0).0.nxt == s.nxt && (s.nxt != s.una ==> Send(s, data, true, 0).0.armed)
  {
    hide Wrap;
  }

  /** The pump gets an up-to-date sender going. */
  lemma PumpNext(v: Server, before: seq<byte>, size: nat) returns (z: Server)
    requires Inv(v, before, size) && v.net.snd.open && size > 0 && Streaming(v) && PumpRevives(v) && !R.Told(v.net)
    ensures LeadsToNext(v, z, before, size)
  {
    hide Inv, N.Inv, Reaches, LeadsToNext, MayRetry;
    InvNet(v, before, size);
    var x := OpenWindow(v, 0, before, size);
    InvNet(x, before, size);
    R.SameRetry(v.net.snd, x.net.snd);
    hide R.WindowFor, R.Told;
    z := PumpOpen(x, before, size);
    ThenNext(v, x, z, before, size);
  }

  lemma PumpOpen(x: Server, before: seq<byte>, size: nat) returns (z: Server)
    requires Inv(x, before, size) && x.net.snd.open && size > 0 && x.scheduled && Streaming(x) && BelowMark(x)
    requires x.net.acked == |x.net.received| && x.net.snd.wnd >= 1
    requires if x.net.snd.nxt == x.net.snd.una then x.net.snd.cc.cwnd >= 1 else MayRetry(x.net.snd)
    ensures LeadsToNext(x, z, before, size)
  {
    InvNet(x, before, size);
    StreamingNotIdle(x, before, size);
    hide Inv, N.Inv, Reaches, MayRetry;
    if x.net.snd.nxt == x.net.snd.una {
      z := PumpedReaches(x, 1, before, size);
      PumpTransmits(x);
      hide Pumped;
      NudgeLeads(x, z, before, size);
    } else {
      var w := PumpedReaches(x, 0, before, size);
      PumpArms(x);
      hide Pumped, LeadsToNext;
      InvNet(w, before, size);
      R.SameRetry(x.net.snd, w.net.snd);
      TimerSet(w);
      z := TimerNext(w, before, size);
      ThenNext(x, w, z, before, size);
    }
  }

  lemma TimerSet(v: Server)
    requires N.Inv(v.net) && v.net.snd.armed && MayRetry(v.net.snd) && v.net.snd.wnd >= 1 && v.net.acked == |v.net.received|
    ensures R.TimerHelps(v.net)
  {
    GridStart(0, EffectiveMss(v.net.snd));
    hide Grid;
  }

  lemma StreamingNotIdle(v: Server, before: seq<byte>, size: nat)
    requires Inv(v, before, size) && size > 0 && Streaming(v) && BelowMark(v)
    ensures !Decide(v.stream, v.net.snd).Idle?
  {
    hide Pieces, H.Chunks;
  }

  /** Every sign of life puts the next bytes on the network. */
  lemma LifeNext(v: Server, before: seq<byte>, size: nat) returns (z: Server)
    requires Inv(v, before, size) && v.net.snd.open && size > 0
    requires |v.net.received| < |v.net.queued| || Streaming(v)
    requires if Streaming(v) then Alive(v) else R.Repairable(v.net)
    ensures LeadsToNext(v, z, before, size)
  {
    InvNet(v, before, size);
    hide Inv, N.Inv, Reaches, R.NextAt, R.Told, R.TimerHelps, PumpRevives;
    if R.NextAt(v.net) {
      z := v;
      ReachesSelf(v, before, size);
      NudgeLeads(v, z, before, size);
    } else if v.net.pending {
      z := PendingNext(v, before, size);
    } else if R.Told(v.net) {
      z := ToldNext(v, before, size);
    } else if R.TimerHelps(v.net) && |v.net.received| < |v.net.queued| {
      z := TimerNext(v, before, size);
    } else if R.TimerHelps(v.net) && BelowMark(v) {
      var x := PumpedReaches(v, 0, before, size);
      hide Pumped;
      TimerKept(v, x);
      z := TimerNext(x, before, size);
      ThenNext(v, x, z, before, size);
    } else {
      z := PumpNext(v, before, size);
    }
  }

  lemma TimerKept(v: Server, x: Server)
    requires R.TimerHelps(v.net) && PumpFrame(v, x)
    ensures R.TimerHelps(x.net)
  {
    hide Grid;
    SameMss(v.net.snd, x.net.snd);
    var d := |v.net.received| - v.net.acked;
    if d >= v.net.snd.wnd {
      var a :| a in v.net.acks && R.Stale(v.net, a) && d < a.win;
      assert R.Stale(x.net, a);
    }
  }

  // ------------------------------------------------------------------ finishing

  /** All bytes of the response, headers included. */
  function Whole(before: seq<byte>, size: nat): seq<byte> { before + H.Chunks(Pieces(size)) + H.END }

  lemma QueuedOfWhole(v: Server, before: seq<byte>, size: nat)
    requires Inv(v, before, size)
    ensures v.net.queued <= Whole(before, size) && (Streaming(v) ==> |v.net.queued| < |Whole(before, size)|)
    ensures !Streaming(v) ==> v.net.queued == Whole(before, size)
  {
    assert Layout(v, before, size);
    hide N.Inv, Roomy, H.Chunks, Pieces, H.DecodesTo;
    LayoutMeans(v, before, size);
    if Streaming(v) { PiecesPrefix(v.stream.sent, size); }
  }

  lemma FinishedNow(v: Server, before: seq<byte>, size: nat)
    requires Inv(v, before, size) && Finished(v)
    ensures Finishes(v, before, size)
  {
    hide Inv;
    assert AllUndisturbed([]) && Exec(v, [], before, size) == v;
  }

  /** From a sign of life on, the response can be finished. */
  lemma {:induction false} LifeFinishes(v: Server, before: seq<byte>, size: nat)
    requires Inv(v, before, size) && v.net.snd.open && size > 0
    requires if Streaming(v) then Alive(v) else R.Repairable(v.net)
    ensures Finishes(v, before, size)
    decreases |Whole(before, size)| - |v.net.received|
  {
    InvNet(v, before, size);
    QueuedOfWhole(v, before, size);
    R.ReceivedAll(v.net);
    hide Inv, N.Inv, Reaches, Finishes, Whole, Alive, R.Repairable;
    if !Streaming(v) && |v.net.received| == |v.net.queued| {
      FinishedNow(v, before, size);
    } else {
      var z := LifeNext(v, before, size);
      var x := NextTaken(v, z, before, size);
      InvNet(x, before, size);
      QueuedOfWhole(x, before, size);
      LifeFinishes(x, before, size);
      ReachesFinish(v, x, before, size);
    }
  }

  lemma NextTaken(v: Server, z: Server, before: seq<byte>, size: nat) returns (x: Server)
    requires Inv(v, before, size) && LeadsToNext(v, z, before, size)
    ensures Reaches(v, x, before, size) && Inv(x, before, size) && x.net.snd.open && |x.net.received| > |v.net.received|
    ensures if Streaming(x) then Alive(x) else R.Repairable(x.net)
  {
    var p :| p in z.net.data && p.off == |z.net.received|;
    assert Inv(z, before, size);
    InvNet(z, before, size);
    R.DeliverNext(z.net, p);
    var e := Net(N.DeliverData(p));
    hide Inv, N.Inv;
    StepReaches(z, e, before, size);
    x := Step(z, e);
    hide Step, Reaches;
    LeadsReach(v, z, before, size);
    ReachesTransitive(v, z, x, before, size);
  }

  lemma LeadsReach(v: Server, z: Server, before: seq<byte>, size: nat)
    requires Inv(v, before, size) && LeadsToNext(v, z, before, size)
    ensures Reaches(v, z, before, size) && Inv(z, before, size)
  {
  }

  /** A closed sender's response is finished by the packets on the network alone. */
  lemma {:induction false} DeliverAll(v: Server, ns: seq<N.Event>, before: seq<byte>, size: nat)
    requires Inv(v, before, size) && forall i :: 0 <= i < |ns| ==> ns[i].DeliverData?
    ensures N.Inv(v.net) && Reaches(v, v.(net := N.Exec(v.net, ns)), before, size)
    decreases |ns|
  {
    InvNet(v, before, size);
    if ns == [] {
      hide Inv;
      ReachesSelf(v, before, size);
    } else if N.Enabled(v.net, ns[0]) {
      N.StepKeepsInv(v.net, ns[0]);
      hide Inv, N.Inv, N.Step, Reaches;
      StepReaches(v, Net(ns[0]), before, size);
      var x := Step(v, Net(ns[0]));
      ReachesInv(v, x, before, size);
      DeliverAll(x, ns[1..], before, size);
      ReachesTransitive(v, x, v.(net := N.Exec(v.net, ns)), before, size);
    } else {
      hide Inv, N.Inv, N.Step, Reaches;
      DeliverAll(v, ns[1..], before, size);
    }
  }

  lemma ReachesInv(v: Server, z: Server, before: seq<byte>, size: nat)
    requires Inv(v, before, size) && Reaches(v, z, before, size)
    ensures Inv(z, before, size)
  {
  }

  /** A finishable response finishes in some continuation. */
  lemma CanFinish(v: Server, before: seq<byte>, size: nat)
    requires Inv(v, before, size) && size > 0 && Finishable(v)
    ensures Finishes(v, before, size)
  {
    if v.net.snd.open {
      hide Inv, Finishes, Alive, R.Repairable;
      LifeFinishes(v, before, size);
    } else {
      InvNet(v, before, size);
      hide Inv, N.Inv, Finishes, Reaches, R.Covered;
      var ns := R.FollowPackets(v.net);
      DeliverAll(v, ns, before, size);
      var z := v.(net := N.Exec(v.net, ns));
      ReachesInv(v, z, before, size);
      FinishedNow(z, before, size);
      ReachesFinish(v, z, before, size);
    }
  }

  // -------------------------------------------------------------------- wedges

  /** An open sender that knows all the receiver has, hears nothing and gets nothing out. */
  ghost predicate Silent(y: N.System) {
    && y.acked == |y.received| && !y.pending && !R.NextAt(y)
    && (forall a <- y.acks :: R.Deliverable(y, a) ==> a.upTo < y.acked)
  }

  /** Neither the timer nor the pump changes that. */
  ghost predicate Dead(v: Server) {
    if Streaming(v) then v.net.snd.open ==> Silent(v.net) && !R.TimerHelps(v.net) && !PumpRevives(v)
    else R.Wedged(v.net)
  }

  lemma DeadRescheduled(v: Server)
    requires Dead(v) && v.scheduled
    ensures Dead(Rescheduled(v))
  {
    hide R.TimerHelps, Silent, R.Wedged;
    assert PumpWorks(Rescheduled(v)) ==> PumpWorks(v);
  }

  lemma TimerHelpsIff(y: N.System)
    requires N.Inv(y) && y.acked == |y.received|
    ensures R.TimerHelps(y) <==> y.snd.armed && MayRetry(y.snd) && R.WindowFor(y, 0)
  {
    GridStart(0, EffectiveMss(y.snd));
    hide Grid;
  }

  /** A pump of a dead stream transmits nothing the receiver waits for and sets no timer that would. */
  lemma DeadPumpWith(v: Server, allocates: bool, budget: nat, before: seq<byte>, size: nat)
    requires Inv(v, before, size) && Dead(v) && v.scheduled && Streaming(v) && v.net.snd.open
    ensures Ok(v.net.snd) && Dead(Pumped(v, allocates, budget)) && Pumped(v, allocates, budget).scheduled
  {
    InvNet(v, before, size);
    PumpKeepsInv(v, allocates, budget, before, size);
    var z := Pumped(v, allocates, budget);
    var a := Decide(v.stream, v.net.snd);
    if !a.Idle? {
      PumpSends(v, allocates, budget);
      BytesNonempty(a);
      InvNet(z, before, size);
      hide Inv, N.Inv, Pumped, Bytes;
      DeadAfter(v, z);
    }
  }

  lemma DeadAfter(v: Server, z: Server)
    requires N.Inv(v.net) && N.Inv(z.net) && Dead(v) && v.scheduled && Streaming(v) && v.net.snd.open
    requires BelowMark(v) && PumpFrame(v, z)
    requires |z.net.received| < |z.net.queued|
    requires forall p <- z.net.data :: p in v.net.data || ((v.net.snd.nxt == v.net.snd.una ==> SendWindow(v.net.snd) >= 1)
                                                           && p.off >= v.net.acked + InFlight(v.net.snd))
    requires v.net.snd.nxt == v.net.snd.una && SendWindow(v.net.snd) == 0 ==> z.net.snd.nxt == v.net.snd.nxt
    requires v.net.snd.nxt != v.net.snd.una ==> z.net.snd.nxt != z.net.snd.una && InFlight(v.net.snd) > 0
    ensures Dead(z)
  {
    TimerHelpsIff(v.net);
    TimerHelpsIff(z.net);
    hide N.Inv, R.TimerHelps;
    WindowsSame(v.net, z.net);
    assert !R.NextAt(z.net) by {
      forall p | p in z.net.data ensures p.off != |z.net.received| {
        if p !in v.net.data { WindowNow(v.net); }
      }
    }
    assert Silent(z.net);
    WindowNow(v.net);
    assert !R.TimerHelps(z.net) && !PumpRevives(z);
    if !Streaming(z) { hide R.TimerHelps, R.WindowFor; assert R.NoNews(z.net); }
  }

  lemma WindowNow(y: N.System)
    ensures y.snd.wnd >= 1 ==> R.WindowFor(y, 0)
  {
  }

  lemma WindowsSame(y: N.System, z: N.System)
    requires z.acks == y.acks && z.acked == y.acked && z.snd.wnd == y.snd.wnd
    ensures R.WindowFor(z, 0) <==> R.WindowFor(y, 0)
  {
    R.SameWindows(y, z);
    R.SameWindows(z, y);
    hide R.WindowFor;
  }

  /** Where a pump's segments start: at or after the first unsent byte, and nowhere without a window. */
  lemma PumpSends(v: Server, allocates: bool, budget: nat)
    requires N.Inv(v.net) && Roomy(v.net.snd) && v.net.snd.open && !Decide(v.stream, v.net.snd).Idle?
    ensures Ok(v.net.snd) && BelowMark(v)
    ensures var z := Pumped(v, allocates, budget);
            var s := v.net.snd;
            && (forall p <- z.net.data :: p in v.net.data || ((s.nxt == s.una ==> SendWindow(s) >= 1)
                                                               && p.off >= v.net.acked + InFlight(s)))
            && (s.nxt == s.una && SendWindow(s) == 0 ==> z.net.snd.nxt == s.nxt)
            && (s.nxt != s.una ==> z.net.snd.nxt != s.una && InFlight(s) > 0)
  {
    hide N.Inv, Bytes, Wrap, InFlight, SendWindow, Pumped, Send, N.Emitted;
    var frame := Bytes(Decide(v.stream, v.net.snd));
    FrameSize(Decide(v.stream, v.net.snd));
    BytesNonempty(Decide(v.stream, v.net.snd));
    BufferShort(v.net);
    SendOffsets(v.net.snd, frame, allocates, budget);
    var s', segs := PumpEmits(v, frame, allocates, budget);
    EmittedAfter(v.net, Pumped(v, allocates, budget).net, segs);
  }

  lemma BufferShort(y: N.System)
    requires N.Inv(y)
    ensures Ok(y.snd) && InFlight(y.snd) <= |y.snd.buf|
  {
  }

  /** A pump that does not idle is a send of its frame. */
  lemma PumpEmits(v: Server, frame: seq<byte>, allocates: bool, budget: nat) returns (s': Sender, segs: seq<Segment>)
    requires Ok(v.net.snd) && Roomy(v.net.snd) && v.net.snd.open && !Decide(v.stream, v.net.snd).Idle?
    requires frame == Bytes(Decide(v.stream, v.net.snd)) && |frame| < FRAME_SIZE
    ensures s' == Send(v.net.snd, frame, allocates, budget).0 && segs == Send(v.net.snd, frame, allocates, budget).1
    ensures var z := Pumped(v, allocates, budget);
            z.net.snd == s' && z.net.data == v.net.data + N.Emitted(segs, v.net.snd.una, v.net.acked)
  {
    SendTakesAll(v.net.snd, frame, allocates, budget);
    hide Bytes, Wrap, Send, N.Emitted;
    s', segs := Send(v.net.snd, frame, allocates, budget).0, Send(v.net.snd, frame, allocates, budget).1;
    R.Unmoved(v.net, s', segs);
  }

  lemma EmittedAfter(y: N.System, z: N.System, segs: seq<Segment>)
    requires z.data == y.data + N.Emitted(segs, y.snd.una, y.acked)
    requires forall g <- segs :: Wrap(g.start - y.snd.una) >= InFlight(y.snd) && (y.snd.nxt == y.snd.una ==> SendWindow(y.snd) >= 1)
    ensures forall p <- z.data :: p in y.data || ((y.snd.nxt == y.snd.una ==> SendWindow(y.snd) >= 1)
                                                  && p.off >= y.acked + InFlight(y.snd))
  {
    hide N.Emitted, InFlight, SendWindow, Wrap;
    forall p | p in z.data && p !in y.data
      ensures p.off >= y.acked + InFlight(y.snd) && (y.snd.nxt == y.snd.una ==> SendWindow(y.snd) >= 1)
    {
      var g := R.EmittedFrom(segs, y.snd.una, y.acked, p);
    }
  }

  lemma SendOffsets(s: Sender, data: seq<byte>, allocates: bool, budget: nat)
    requires s.open && Roomy(s) && |s.buf| <= CHUNK_SIZE * 4 && 0 < |data| < FRAME_SIZE && InFlight(s) <= |s.buf|
    ensures var (s', segs, _) := Send(s, data, allocates, budget);
            && (forall g <- segs :: Wrap(g.start - s.una) >= InFlight(s) && (s.nxt == s.una ==> SendWindow(s) >= 1))
            && (s.nxt == s.una && SendWindow(s) == 0 ==> s'.nxt == s.nxt)
            && (s.nxt != s.una ==> s'.nxt != s.una && InFlight(s) > 0)
  {
    hide Wrap;
    assert Accepted(s, data) == |data| && data[..|data|] == data;
    var s1 := s.(buf := s.buf + data);
    DrainOffsets(s1, budget);
    hide Drain;
  }

  lemma DrainOffsets(s: Sender, budget: nat)
    requires s.hasBuf && s.buf != [] && Spanned(s)
    ensures var (s', segs) := Drain(s, budget);
            && s'.una == s.una
            && (forall g <- segs :: Wrap(g.start - s.una) >= InFlight(s) && (s.nxt == s.una ==> SendWindow(s) >= 1))
            && (s.nxt == s.una && SendWindow(s) == 0 ==> s'.nxt == s.nxt)
            && (s.nxt != s.una ==> s'.nxt != s.una && InFlight(s) > 0)
  {
    FlightZero(s);
    WrapBack(s.una, s.nxt);
    hide Wrap, EffectiveMss, Grid;
    var (s', segs) := Drain(s, budget);
    DrainSends(s, budget);
    FlightZero(s');
    forall g <- segs ensures Wrap(g.start - s.una) >= InFlight(s) && SendWindow(s) >= 1 {
      DrainGrid(s, InFlight(s), budget, g);
    }
    hide Drain;
    assert segs == [] ==> TotalLength(segs) == 0;
    if SendWindow(s) == 0 { assert forall g :: g !in segs; }
  }

  lemma FlightZero(s: Sender)
    ensures InFlight(s) == 0 <==> s.nxt == s.una
  {
    WrapBack(s.una, s.nxt);
    WrapSmall(s.una);
    WrapSmall(0);
  }

  lemma DeadNet(v: Server, e: N.Event, before: seq<byte>, size: nat)
    requires Inv(v, before, size) && Dead(v) && Streaming(v) && v.net.snd.open && Enabled(v, Net(e)) && R.Quiet(e)
    ensures Dead(Step(v, Net(e)))
  {
    InvNet(v, before, size);
    TimerHelpsIff(v.net);
    match e
    case DeliverData(p) => R.OtherDataIgnored(v.net, p);
    case LoseData(_) => DeadLoss(v, e);
    case LoseAck(_) => DeadLoss(v, e);
    case _ =>
  }

  lemma DeadLoss(v: Server, e: N.Event)
    requires N.Inv(v.net) && Dead(v) && Streaming(v) && v.net.snd.open && (e.LoseData? || e.LoseAck?)
    ensures Dead(v.(net := N.Step(v.net, e)))
  {
    N.StepKeepsInv(v.net, e);
    TimerHelpsIff(v.net);
    var z := N.Step(v.net, e);
    TimerHelpsIff(z);
    hide N.Inv, R.TimerHelps;
    assert R.WindowFor(z, 0) ==> R.WindowFor(v.net, 0);
  }

  lemma DeadTimeout(v: Server, budget: nat)
    requires N.Inv(v.net) && Dead(v) && Streaming(v) && v.net.snd.open && v.net.snd.armed
    ensures Dead(v.(net := N.Step(v.net, N.Timeout(budget))))
  {
    TimerHelpsIff(v.net);
    var z := v.(net := N.Step(v.net, N.Timeout(budget)));
    N.StepKeepsInv(v.net, N.Timeout(budget));
    R.TimeoutEffect(v.net, budget);
    if z.net.snd.open {
      TimerHelpsIff(z.net);
      hide N.Inv, N.Step, MayRetry, R.TimerHelps, TimeoutOffset;
      WindowsSame(v.net, z.net);
      WindowNow(v.net);
      assert v.net.snd.wnd == 0;
      NoOffsets(v.net.snd);
      assert !R.NextAt(z.net);
    }
  }

  lemma NoOffsets(s: Sender)
    ensures s.wnd == 0 ==> forall o :: !TimeoutOffset(s, o)
  {
    hide Grid;
  }

  /** Only acknowledgements older than snd_una are left; they change the window and nothing else. */
  lemma DeadAck(v: Server, e: Event, before: seq<byte>, size: nat)
    requires Inv(v, before, size) && Dead(v) && Streaming(v) && v.net.snd.open && Enabled(v, e) && e.AckArrives?
    ensures Dead(Step(v, e))
  {
    InvNet(v, before, size);
    var a := e.a;
    assert R.Stale(v.net, a) && a.upTo < v.net.acked;
    StaleArrives(v, a, e.sample, e.ackBudget);
    N.StepKeepsInv(v.net, N.DeliverAck(a, e.sample, e.ackBudget));
    OldAckEffect(v.net, a, e.sample, e.ackBudget);
    hide Inv, N.Inv, N.Step, Step, Dead;
    DeadAckAfter(v, Step(v, e), a);
  }

  lemma DeadAckAfter(v: Server, z: Server, a: N.AckPacket)
    requires N.Inv(v.net) && N.Inv(z.net) && Dead(v) && Streaming(v) && v.net.snd.open
    requires a in v.net.acks && R.Stale(v.net, a) && z == v.(net := v.net.(snd := v.net.snd.(wnd := a.win)))
    ensures Dead(z)
  {
    TimerHelpsIff(v.net);
    TimerHelpsIff(z.net);
    hide N.Inv, R.TimerHelps;
    R.WindowsKept(v.net, z.net, a);
    hide R.WindowFor;
    assert R.NextAt(z.net) ==> R.NextAt(v.net);
  }

  lemma OldAckEffect(y: N.System, a: N.AckPacket, sample: Sample, budget: nat)
    requires N.Inv(y) && y.snd.open && a in y.acks && R.Stale(y, a) && a.upTo < y.acked
    ensures N.Step(y, N.DeliverAck(a, sample, budget)) == y.(snd := y.snd.(wnd := a.win))
  {
    WrapSmall(0);
    WrapSum(y.origin + y.acked, a.upTo - y.acked);
    N.AckCases(y.snd, a.ack, a.upTo - y.acked);
    hide Wrap, SeqGt, N.Inv;
    assert N.Emitted([], y.snd.una, y.acked) == {};
    assert y.snd.una - y.snd.una == 0;
  }

  /** A finished response on a wedged connection. */
  lemma WedgedAck(v: Server, e: Event)
    requires R.Wedged(v.net) && !Streaming(v) && Enabled(v, e) && e.AckArrives?
    ensures N.Inv(v.net) && R.Wedged(Step(v, e).net) && !Streaming(Step(v, e))
  {
    R.WedgedInv(v.net);
    if v.net.snd.open {
      assert R.Stale(v.net, e.a);
      StaleArrives(v, e.a, e.sample, e.ackBudget);
      hide R.Wedged, N.Inv, Step, N.Step;
      R.WedgedStays(v.net, N.DeliverAck(e.a, e.sample, e.ackBudget));
    }
  }

  lemma DeadStays(v: Server, e: Event, before: seq<byte>, size: nat)
    requires Inv(v, before, size) && Dead(v) && Enabled(v, e) && Undisturbed(e)
    ensures Dead(Step(v, e))
  {
    InvNet(v, before, size);
    if Streaming(v) && v.net.snd.open {
      hide Inv, Dead, Enabled, Step;
      match e
      case Visit(_, _, _, _) => DeadVisit(v, e, before, size);
      case AckArrives(_, _, _, _) => DeadAck(v, e, before, size);
      case Net(n) => DeadNet(v, n, before, size);
    } else if Streaming(v) {
      ClosedStream(v, e);
    } else {
      hide Inv, R.Wedged;
      match e
      case Visit(_, _, _, _) => WedgedVisit(v, e);
      case AckArrives(_, _, _, _) => WedgedAck(v, e);
      case Net(n) => R.WedgedStays(v.net, n);
    }
  }

  lemma DeadVisit(v: Server, e: Event, before: seq<byte>, size: nat)
    requires Inv(v, before, size) && Dead(v) && Streaming(v) && v.net.snd.open && e.Visit? && Enabled(v, e)
    ensures Ok(v.net.snd) && Dead(Step(v, e))
  {
    InvNet(v, before, size);
    ExpiredKeepsInv(v, e.expired, e.rtoBudget, before, size);
    var v1 := Expired(v, e.expired, e.rtoBudget);
    if e.expired { DeadTimeout(v, e.rtoBudget); }
    hide Inv, N.Inv, Dead, Pumped, Expired;
    if v1.net.snd.open { DeadPumpWith(v1, e.allocates, e.budget, before, size); }
    DeadRescheduled(if v1.net.snd.open then Pumped(v1, e.allocates, e.budget) else v1);
  }

  lemma WedgedVisit(v: Server, e: Event)
    requires R.Wedged(v.net) && !Streaming(v) && e.Visit? && Enabled(v, e)
    ensures N.Inv(v.net) && R.Wedged(Step(v, e).net) && !Streaming(Step(v, e))
  {
    R.WedgedInv(v.net);
    if e.expired { R.WedgedStays(v.net, N.Timeout(e.rtoBudget)); }
    hide R.Wedged, N.Inv, N.Step;
  }

  /** A closed sender never finishes its stream. */
  lemma ClosedStream(v: Server, e: Event)
    requires N.Inv(v.net) && Streaming(v) && !v.net.snd.open && Enabled(v, e)
    ensures Ok(v.net.snd) && Streaming(Step(v, e)) && !Step(v, e).net.snd.open
  {
    hide AckIn, Wrap;
  }

  lemma {:induction false} DeadForever(v: Server, es: seq<Event>, before: seq<byte>, size: nat)
    requires Inv(v, before, size) && Dead(v) && AllUndisturbed(es)
    ensures !Finished(Exec(v, es, before, size))
    decreases |es|
  {
    if es == [] {
      DeadUnfinished(v);
    } else if Enabled(v, es[0]) {
      assert Undisturbed(es[0]);
      StepKeepsInv(v, es[0], before, size);
      DeadStays(v, es[0], before, size);
      hide Inv, Dead, Step, Enabled, Finished, Undisturbed;
      DeadForever(Step(v, es[0]), es[1..], before, size);
    } else {
      hide Inv, Dead, Finished, Undisturbed;
      DeadForever(v, es[1..], before, size);
    }
  }

  lemma DeadUnfinished(v: Server)
    requires Dead(v)
    ensures !Finished(v)
  {
    if !Streaming(v) { R.WedgedInv(v.net); }
  }

  /**
   * Exactly which responses can still be finished without the client's help:
   * all reachable states in which the sender is up to date while streaming, and
   * no acknowledgement on the network lies between sender and receiver.
   */
  lemma FinishesIff(v: Server, before: seq<byte>, size: nat)
    requires Inv(v, before, size) && size > 0 && R.NoneBetween(v.net)
    requires Streaming(v) ==> v.net.acked == |v.net.received|
    ensures Finishes(v, before, size) <==> Finishable(v)
  {
    if Finishable(v) {
      hide Inv, Finishable;
      CanFinish(v, before, size);
    } else {
      InvNet(v, before, size);
      assert Dead(v) by { NotFinishable(v); }
      hide Inv, Dead, Finished, Exec;
      forall es | AllUndisturbed(es) ensures !Finished(Exec(v, es, before, size)) {
        DeadForever(v, es, before, size);
      }
    }
  }

  lemma NotFinishable(v: Server)
    requires N.Inv(v.net) && !Finishable(v) && R.NoneBetween(v.net)
    requires Streaming(v) ==> v.net.acked == |v.net.received|
    ensures Dead(v)
  {
    if Streaming(v) {
      assert v.net.acked + |v.net.snd.buf| == |v.net.queued|;
      hide R.TimerHelps, PumpWorks;
    } else {
      R.NotRepairable(v.net);
    }
  }

  // -------------------------------------------------------- all other states

  /** What moves the sender and its pump. */
  predicate Signal(e: Event) { !e.Net? }

  predicate Signals(es: seq<Event>) { forall i :: 0 <= i < |es| ==> Signal(es[i]) }

  /** Acknowledgements and visits of the wheel alone lead to a sign of life. */
  ghost predicate Recovers(v: Server, before: seq<byte>, size: nat)
    requires Inv(v, before, size)
  {
    exists es :: Signals(es) && Finishable(Exec(v, es, before, size))
  }

  /** The same server with more packets on the network. */
  ghost predicate Richer(x: Server, v: Server) { x == v.(net := x.net) && R.Richer(x.net, v.net) }

  lemma RicherFinishable(x: Server, v: Server, before: seq<byte>, size: nat)
    requires Inv(v, before, size) && Richer(x, v) && Finishable(v)
    ensures Finishable(x)
  {
    InvNet(v, before, size);
    hide Inv, N.Inv;
    if Streaming(v) {
      hide MayRetry, Grid, EffectiveMss;
      assert forall d :: R.WindowFor(v.net, d) ==> R.WindowFor(x.net, d);
      hide R.WindowFor;
    } else {
      hide R.Repairable;
      R.RicherRepairable(x.net, v.net);
    }
  }

  lemma RicherSend(x: N.System, y: N.System, e: N.Event)
    requires Ok(y.snd) && R.Richer(x, y) && e.AppSend? && N.Enabled(y, e)
    ensures N.Enabled(x, e) && R.Richer(N.Step(x, e), N.Step(y, e))
  {
    hide Send, Wrap, N.Emitted, Ok;
  }

  lemma RicherPump(x: Server, v: Server, allocates: bool, budget: nat)
    requires Ok(v.net.snd) && Richer(x, v)
    ensures Richer(Pumped(x, allocates, budget), Pumped(v, allocates, budget))
  {
    var a := Decide(v.stream, v.net.snd);
    FrameSize(a);
    hide Bytes, N.Step, Ok;
    if !a.Idle? { RicherSend(x.net, v.net, N.AppSend(Bytes(a), allocates, budget)); }
  }

  lemma RicherStep(x: Server, v: Server, e: Event)
    requires Ok(v.net.snd) && Richer(x, v) && Signal(e) && Enabled(v, e)
    ensures Enabled(x, e) && Richer(Step(x, e), Step(v, e))
  {
    match e
    case Visit(expired, rtoBudget, allocates, budget) =>
      if expired { R.RicherStep(x.net, v.net, N.Timeout(rtoBudget)); }
      hide N.Step, Ok, Pumped;
      RicherPump(Expired(x, expired, rtoBudget), Expired(v, expired, rtoBudget), allocates, budget);
    case AckArrives(a, sample, budget, pumpBudget) =>
      R.RicherStep(x.net, v.net, N.DeliverAck(a, sample, budget));
      if v.net.snd.open {
        hide N.Step, Ok, Pumped, SeqGt;
        RicherPump(Acked(x, a, sample, budget), Acked(v, a, sample, budget), true, pumpBudget);
      }
  }

  lemma ExecStep(v: Server, e: Event, es: seq<Event>, before: seq<byte>, size: nat)
    requires Inv(v, before, size) && Enabled(v, e)
    ensures Inv(Step(v, e), before, size)
    ensures Exec(v, [e] + es, before, size) == Exec(Step(v, e), es, before, size)
  {
    StepKeepsInv(v, e, before, size);
    hide Inv, Step, Enabled;
    assert ([e] + es)[1..] == es;
  }

  lemma {:induction false} RicherRun(x: Server, v: Server, es: seq<Event>, before: seq<byte>, size: nat) returns (fs: seq<Event>)
    requires Inv(x, before, size) && Inv(v, before, size) && Richer(x, v) && Signals(es)
    ensures Signals(fs) && Richer(Exec(x, fs, before, size), Exec(v, es, before, size))
    decreases |es|
  {
    if es == [] {
      fs := [];
    } else if Enabled(v, es[0]) {
      var e := es[0];
      InvNet(v, before, size);
      hide Inv, Step, Enabled, Richer;
      RicherStep(x, v, e);
      ExecStep(x, e, [], before, size);
      StepKeepsInv(v, e, before, size);
      var rest := RicherRun(Step(x, e), Step(v, e), es[1..], before, size);
      ExecStep(x, e, rest, before, size);
      fs := [e] + rest;
    } else {
      hide Inv, Step, Richer, Enabled;
      fs := RicherRun(x, v, es[1..], before, size);
    }
  }

  lemma OthersIdle(v: Server, e: Event, before: seq<byte>, size: nat)
    requires Inv(v, before, size) && v.net.snd.open && !Finishable(v) && Enabled(v, e) && Undisturbed(e) && !Signal(e)
    ensures Inv(Step(v, e), before, size) && Richer(v, Step(v, e))
  {
    StepKeepsInv(v, e, before, size);
    InvNet(v, before, size);
    hide Inv, N.Inv;
    R.OthersIdle(v.net, e.e);
  }

  /** Nothing finishes on a closed connection unless the network holds the rest. */
  lemma Hopeless(v: Server, es: seq<Event>, before: seq<byte>, size: nat)
    requires Inv(v, before, size) && !Finishable(v) && AllUndisturbed(es) && (!v.net.snd.open || es == [])
    ensures !Finished(Exec(v, es, before, size))
  {
    InvNet(v, before, size);
    if !v.net.snd.open {
      R.ReceivedAll(v.net);
      assert Dead(v);
      hide Inv, Dead, Finished, Exec;
      DeadForever(v, es, before, size);
    }
  }

  /** Of a run that finishes, the acknowledgements and visits already lead to a sign of life. */
  lemma {:induction false} SignalsSuffice(v: Server, es: seq<Event>, before: seq<byte>, size: nat) returns (fs: seq<Event>)
    requires Inv(v, before, size) && AllUndisturbed(es) && Finished(Exec(v, es, before, size))
    ensures Signals(fs) && Finishable(Exec(v, fs, before, size))
    decreases |es|
  {
    hide Inv, Finished, Finishable, Step, Enabled, Richer, Signal, Undisturbed;
    InvNet(v, before, size);
    if Finishable(v) {
      fs := [];
    } else if !v.net.snd.open || es == [] {
      Hopeless(v, es, before, size);
      assert false;
    } else {
      var e := es[0];
      assert Undisturbed(e) && AllUndisturbed(es[1..]);
      if !Enabled(v, e) {
        fs := SignalsSuffice(v, es[1..], before, size);
      } else {
        StepKeepsInv(v, e, before, size);
        var rest := SignalsSuffice(Step(v, e), es[1..], before, size);
        if Signal(e) {
          ExecStep(v, e, rest, before, size);
          fs := [e] + rest;
        } else {
          OthersIdle(v, e, before, size);
          fs := RicherRun(v, Step(v, e), rest, before, size);
          RicherFinishable(Exec(v, fs, before, size), Exec(Step(v, e), rest, before, size), before, size);
        }
      }
    }
  }

  /**
   * Exactly which responses can still be finished without the client's help,
   * over all reachable states: those that acknowledgements on the network and
   * visits of the wheel alone lead to a sign of life.
   */
  lemma FinishesExactly(v: Server, before: seq<byte>, size: nat)
    requires Inv(v, before, size) && size > 0
    ensures Finishes(v, before, size) <==> Recovers(v, before, size)
  {
    hide Inv, Finishable, Finished;
    if Finishes(v, before, size) {
      var es :| AllUndisturbed(es) && Finished(Exec(v, es, before, size));
      hide Exec;
      var fs := SignalsSuffice(v, es, before, size);
    }
    if Recovers(v, before, size) {
      var es :| Signals(es) && Finishable(Exec(v, es, before, size));
      assert AllUndisturbed(es);
      hide Exec;
      StepsReach(v, es, before, size);
      var z := Exec(v, es, before, size);
      CanFinish(z, before, size);
      ReachesFinish(v, z, before, size);
    }
  }

  // ----------------------------------------------------- a start off the wheel

  /** A server that is not streaming is on the wheel exactly while its timer is armed. */
  lemma ServingOnWheel(v: Server, e: Event)
    requires Ok(v.net.snd) && Enabled(v, e) && !Streaming(v) && v.scheduled == v.net.snd.armed
    ensures var z := Step(v, e); !Streaming(z) && z.scheduled == z.net.snd.armed
  {
    hide Wrap, SeqGt, N.Emitted;
    if e.AckArrives? && v.net.snd.open && !SeqGt(e.a.ack, v.net.snd.una) {
      AckKeepsBuffer(v.net.snd, e.a.ack, e.a.win, e.sample, e.ackBudget);
    }
    hide AckIn;
  }

  /** The timers of a passively opened server connection. */
  predicate HasTimers(v: Server, t: W.Timers) {
    && (t.rto != 0 <==> v.net.snd.armed) && t.timewait == 0 && t.think == 0 && t.httpSent == 0
    && t.established == v.net.snd.open && t.app == v.stream.appState
  }

  /**
   * What `scheduled` stands for on the wheel itself: over every run from
   * initialisation that reschedules the server's record after each timer
   * change, the record is on a chain exactly when the server's rescheduling says so; in
   * particular, while it does not stream, exactly while its timer is armed.
   */
  lemma RecordOnWheel(v: Server, w: W.Wheel, es: seq<W.Event>, i: nat)
    requires W.Initial(w) && K.AllDisciplined(es, i) && i < |w.records|
    ensures W.WheelOk(w)
    ensures var z := W.Exec(w, es).0;
            z.records[i].inUse && HasTimers(v, z.records[i].timers) ==>
              && (M.Scheduled(z, i) <==> Rescheduled(v).scheduled)
              && (!Streaming(v) ==> (M.Scheduled(z, i) <==> v.net.snd.armed))
  {
    hide W.Initial, W.Exec, W.WheelOk, M.Scheduled, W.Awaits;
    M.OnWheelIff(w, es, i, 0);
    var z := W.Exec(w, es).0;
    M.WaitingIff(z.records[i].timers, z.hz, 0);
  }

  /** A send that cannot transmit, for want of window or of transmits. */
  predicate Mute(s: Sender, budget: nat) { SendWindow(s) == 0 || budget == 0 }

  lemma MuteSend(s: Sender, data: seq<byte>, budget: nat)
    requires s.open && s.hasBuf && s.nxt == s.una && |data| < HALF && Mute(s, budget)
    ensures var (s', segs, _) := Send(s, data, true, budget);
            segs == [] && s' == s.(buf := s'.buf) && s.buf <= s'.buf
  {
    FlightZero(s);
    hide Wrap, EffectiveMss;
    var s1 := s.(buf := s.buf + data[..Accepted(s, data)]);
    assert InFlight(s1) == InFlight(s) && SendWindow(s1) == SendWindow(s);
    assert Drain(s1, budget) == (s1, []);
  }

  lemma MuteStep(y: N.System, data: seq<byte>, budget: nat)
    requires Ok(y.snd) && y.snd.open && y.snd.hasBuf && y.snd.nxt == y.snd.una && |data| < HALF - FIRST_SEND_HEADROOM
    requires Mute(y.snd, budget)
    ensures var z := N.Step(y, N.AppSend(data, true, budget));
            z == y.(snd := z.snd, queued := z.queued) && z.snd == y.snd.(buf := z.snd.buf) && y.snd.buf <= z.snd.buf
  {
    MuteSend(y.snd, data, budget);
    var (s', segs, n) := Send(y.snd, data, true, budget);
    hide Send, Mute;
    R.Unmoved(y, s', segs);
    assert N.Emitted([], y.snd.una, y.acked) == {};
  }

  /** All queued data is acknowledged, so nothing is in flight and the timer is disarmed. */
  predicate Served(y: N.System) {
    y.snd.open && y.snd.hasBuf && !y.snd.armed && y.snd.nxt == y.snd.una && y.acked == |y.received| == |y.queued|
  }

  /** The streaming branch with its first pump. */
  function Begun(y: N.System, onWheel: bool, header: seq<byte>, size: u32, budget: nat, pumpBudget: nat): Server
    requires Ok(y.snd) && |header| < HALF - FIRST_SEND_HEADROOM && Ok(WithHeaders(y, onWheel, header, size, true, budget).net.snd)
  {
    Pumped(WithHeaders(y, onWheel, header, size, true, budget), true, pumpBudget)
  }

  lemma MuteStart(y: N.System, header: seq<byte>, size: u32, budget: nat, pumpBudget: nat)
    requires N.Inv(y) && Served(y) && 0 < |header| < HALF - FIRST_SEND_HEADROOM && size > 0
    requires Mute(y.snd, budget) && Mute(y.snd, pumpBudget)
    ensures Ok(y.snd)
    ensures var v := WithHeaders(y, false, header, size, true, budget);
            && Started(v, size) && Ok(v.net.snd)
            && var z := Begun(y, false, header, size, budget, pumpBudget);
               && z.net == y.(snd := z.net.snd, queued := z.net.queued) && |z.net.queued| > |y.queued|
               && z.net.snd.open && !z.net.snd.armed && !z.scheduled && Streaming(z)
               && Inv(z, v.net.queued, size)
  {
    HeadersStart(y, false, header, size, true, budget);
    MuteStep(y, header, budget);
    var v := WithHeaders(y, false, header, size, true, budget);
    StartedInv(v, size);
    InvNet(v, v.net.queued, size);
    PumpKeepsInv(v, true, pumpBudget, v.net.queued, size);
    var a := Decide(v.stream, v.net.snd);
    FrameSize(a);
    WrapSmall(size);
    hide N.Inv, Inv, Bytes, Wrap, N.Step;
    if !a.Idle? { MuteStep(v.net, Bytes(a), pumpBudget); }
  }

  /**
   * A streamed response on a used connection, started while the record is off
   * the wheel and without a transmit: no pump, timer or new acknowledgement
   * will come. It can be finished exactly when an acknowledgement of
   * everything received is still owed or under way, whose duplicates make the sender retransmit.
   */
  lemma MuteStartIff(y: N.System, header: seq<byte>, size: u32, budget: nat, pumpBudget: nat)
    requires N.Inv(y) && Served(y) && 0 < |header| < HALF - FIRST_SEND_HEADROOM && size > 0
    requires Mute(y.snd, budget) && Mute(y.snd, pumpBudget)
    ensures Ok(y.snd) && Ok(WithHeaders(y, false, header, size, true, budget).net.snd)
    ensures var z := Begun(y, false, header, size, budget, pumpBudget);
            var before := WithHeaders(y, false, header, size, true, budget).net.queued;
            Inv(z, before, size) && (Finishes(z, before, size) <==> y.pending || R.Told(y))
  {
    MuteStart(y, header, size, budget, pumpBudget);
    var z := Begun(y, false, header, size, budget, pumpBudget);
    var before := WithHeaders(y, false, header, size, true, budget).net.queued;
    assert !R.NextAt(y) by {
      forall p | p in y.data ensures p.off != |y.received| { assert N.PacketOk(p, y.origin, y.queued); }
    }
    assert R.NoneBetween(z.net) by { assert N.AckInv(y); }
    hide N.Inv, Inv, Begun, WithHeaders, Finishes, Mute;
    FinishesIff(z, before, size);
  }

  /**
   * A run into that wedge from every passively opened connection with a window:
   * one byte is sent, received and acknowledged, which disarms the timer and so
   * takes the record off the wheel; then a streamed response starts and its transmits fail.
   */
  lemma StreamStartWedges(y: N.System, b: byte, header: seq<byte>, size: u32) returns (es: seq<N.Event>)
    requires N.Established(y) && SendWindow(y.snd) >= 1 && 0 < |header| < HALF - FIRST_SEND_HEADROOM && size > 0
    ensures N.Inv(y)
    ensures var x := N.Exec(y, es);
            && Served(x) && x.queued == [b] && Ok(x.snd) && Ok(WithHeaders(x, false, header, size, true, 0).net.snd)
            && var before := WithHeaders(x, false, header, size, true, 0).net.queued;
               && Inv(Begun(x, false, header, size, 0, 0), before, size)
               && !Finishes(Begun(x, false, header, size, 0, 0), before, size)
  {
    hide N.Inv, Inv, Finishes, Begun, WithHeaders, N.Exec;
    var n, x;
    es, n, x := R.FirstAnswered(y, [b]);
    FlightZero(x.snd);
    MuteStartIff(x, header, size, 0, 0);
  }
}
