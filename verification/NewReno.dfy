/** NewReno congestion window (tcp_congestion.c), one update per congestion event. */
module NewReno {
  import opened Basics
  import opened SequenceNumbers

  const CWND_CAP: int := 0x400_0000   // 64 MiB
  const MAX_U32: int := 0xFFFF_FFFF

  datatype Window = Window(cwnd: u32, ssthresh: u32, inRecovery: bool)

  /** The congestion-avoidance division is not by zero. */
  predicate Divisible(w: Window) {
    !w.inRecovery && w.cwnd >= w.ssthresh ==> w.cwnd != 0
  }

  /** The state every run keeps: ssthresh is the initial maximum or at least two segments. */
  predicate Sound(w: Window, mss: u16) {
    mss >= 1 && (w.ssthresh == MAX_U32 || w.ssthresh >= 2 * mss)
  }

  // The square of mss_remote is an int product in C; its value fits 32 bits.
  function AvoidanceIncrement(mss: u16, cwnd: u32): nat
    requires cwnd > 0
  {
    Max(mss * mss / cwnd, 1)
  }

  function OnAck(w: Window, mss: u16, acked: u32): Window
    requires Divisible(w)
  {
    if acked == 0 then w
    else if w.inRecovery then w.(cwnd := w.ssthresh, inRecovery := false)
    else
      var inc := if w.cwnd < w.ssthresh then Min(acked, mss)
                 else AvoidanceIncrement(mss, w.cwnd);
      w.(cwnd := Min(Wrap(w.cwnd + inc), CWND_CAP))
  }

  function OnFastRetransmit(w: Window, mss: u16, flight: u32): Window {
    var ssthresh := Max(flight / 2, 2 * mss);
    Window(Wrap(ssthresh + 3 * mss), ssthresh, true)
  }

  function OnTimeout(w: Window, mss: u16, flight: u32): Window {
    Window(mss, Max(flight / 2, 2 * mss), false)
  }

  datatype Event = Ack(acked: u32) | ThirdDuplicate(flight: u32) | Timeout(flight: u32)

  function Step(w: Window, mss: u16, e: Event): (w': Window)
    requires Sound(w, mss)
    ensures Sound(w', mss)
  {
    match e
    case Ack(acked) => OnAck(w, mss, acked)
    case ThirdDuplicate(flight) => OnFastRetransmit(w, mss, flight)
    case Timeout(flight) => OnTimeout(w, mss, flight)
  }

  function Exec(w: Window, mss: u16, es: seq<Event>): (w': Window)
    requires Sound(w, mss)
    ensures Sound(w', mss)
    decreases |es|
  {
    if es == [] then w else Exec(Step(w, mss, es[0]), mss, es[1..])
  }

  function FlightOf(e: Event): u32 { if e.Ack? then 0 else e.flight }

  ghost predicate Capped(w: Window) {
    w.cwnd <= 64 * 1024 * 1024 && (w.inRecovery ==> w.ssthresh <= 64 * 1024 * 1024)
  }

  /**
   * Over every run of ACKs, third duplicates and timeouts with MSS at least 1:
   * the division is never by zero, ssthresh is the initial maximum or at least
   * 2 MSS, and the window stays at most 64 MiB when the flight does.
   */
  lemma {:induction false} RunKeepsWindow(w: Window, mss: u16, es: seq<Event>)
    requires Sound(w, mss) && Capped(w)
    requires forall i :: 0 <= i < |es| ==> FlightOf(es[i]) <= CWND_CAP
    ensures Sound(Exec(w, mss, es), mss)
    ensures Divisible(Exec(w, mss, es))
    ensures Capped(Exec(w, mss, es))
    decreases |es|
  {
    if es != [] {
      assert FlightOf(es[0]) <= CWND_CAP;
      assert Capped(Step(w, mss, es[0]));
      RunKeepsWindow(Step(w, mss, es[0]), mss, es[1..]);
    }
  }

  /**
   * Without the MSS bound the division can be by zero: after a timeout the next
   * ACK divides safely exactly when the MSS is nonzero or two bytes were in flight.
   */
  lemma TimeoutDivisibleIff(w: Window, mss: u16, flight: u32)
    ensures Divisible(OnTimeout(w, mss, flight)) <==> mss >= 1 || flight >= 2
  {
    if mss == 0 { assert 2 * mss == 0; }
  }

  /** Acknowledgements of new data, of any size each. */
  predicate NewAcks(es: seq<Event>) { forall i :: 0 <= i < |es| ==> es[i].Ack? && es[i].acked >= 1 }

  /** In congestion avoidance, k ACKs covering one window grow it by at most one MSS (or k bytes). */
  lemma AvoidanceGrowth(w: Window, mss: u16, es: seq<Event>)
    requires Sound(w, mss) && !w.inRecovery && w.ssthresh <= w.cwnd <= CWND_CAP
    requires NewAcks(es) && |es| * mss <= w.cwnd
    ensures w.cwnd <= Exec(w, mss, es).cwnd <= w.cwnd + Max(mss, |es|)
    ensures var high := w.cwnd + Max(mss, |es|);
            high <= CWND_CAP ==> Exec(w, mss, es).cwnd >= w.cwnd + |es| * Max(mss * mss / high, 1)
  {
    hide AvoidanceIncrement, Exec;
    var rate, high := AvoidanceIncrement(mss, w.cwnd), w.cwnd + Max(mss, |es|);
    AvoidanceRate(w, mss, es, w.cwnd, rate);
    TotalRate(mss, w.cwnd, |es|);
    if high <= CWND_CAP {
      AvoidanceFloor(w, mss, es, high, w.cwnd, rate, Max(mss * mss / high, 1));
    }
  }

  lemma TotalRate(mss: u16, cwnd: u32, k: nat)
    requires mss >= 1 && cwnd > 0 && k * mss <= cwnd
    ensures k * AvoidanceIncrement(mss, cwnd) <= Max(mss, k)
  {
    if AvoidanceIncrement(mss, cwnd) > 1 { SpreadOverWindow(mss, cwnd, k, mss * mss / cwnd); }
  }

  /** Each of the ACKs adds at least what the widest window of the run would give. */
  lemma {:induction false} AvoidanceFloor(w: Window, mss: u16, es: seq<Event>, high: nat, low: nat, rate: nat, least: nat)
    requires Sound(w, mss) && !w.inRecovery && 2 * mss <= w.ssthresh <= low <= w.cwnd && 0 < high <= CWND_CAP && NewAcks(es)
    requires rate == AvoidanceIncrement(mss, low) && w.cwnd + |es| * rate <= high && least == Max(mss * mss / high, 1)
    ensures Exec(w, mss, es).cwnd >= w.cwnd + |es| * least
    decreases |es|
  {
    if es != [] {
      assert es[0].Ack? && es[0].acked >= 1;
      RateSplits(|es|, rate);
      RateSplits(|es|, least);
      AvoidanceAck(w, mss, es[0].acked, low, rate);
      AvoidanceStep(w, mss, es[0].acked, low, high, rate, least);
      hide AvoidanceIncrement, OnAck, Max, Step;
      AvoidanceFloor(Step(w, mss, es[0]), mss, es[1..], high, low, rate, least);
    }
  }

  lemma RateSplits(k: nat, rate: nat)
    requires k > 0
    ensures (k - 1) * rate + rate == k * rate && rate <= k * rate
  {
  }

  lemma AvoidanceStep(w: Window, mss: u16, acked: u32, low: nat, high: nat, rate: nat, least: nat)
    requires Sound(w, mss) && !w.inRecovery && acked >= 1 && 2 * mss <= w.ssthresh <= low <= w.cwnd && high <= CWND_CAP
    requires rate == AvoidanceIncrement(mss, low) && w.cwnd + rate <= high && least == Max(mss * mss / high, 1)
    ensures Step(w, mss, Ack(acked)).cwnd >= w.cwnd + least
  {
    IncrementBounds(mss, low, w.cwnd);
    QuotientAntitone(mss * mss, w.cwnd, high);
    WrapSmall(w.cwnd + AvoidanceIncrement(mss, w.cwnd));
    hide Wrap;
  }

  lemma SpreadOverWindow(mss: nat, cwnd: nat, k: nat, q: nat)
    requires cwnd > 0 && mss >= 1 && k * mss <= cwnd && q == mss * mss / cwnd
    ensures k * q <= mss
  {
    var m2 := mss * mss;
    assert q * cwnd <= m2;
    calc {
      (k * q) * mss;
    ==  q * (k * mss);
    <=  { MulMonotone(k * mss, cwnd, q); }
      q * cwnd;
    <=  mss * mss;
    }
    if k * q > mss { MulMonotone(mss + 1, k * q, mss); }
  }

  lemma IncrementBounds(mss: u16, low: u32, cwnd: u32)
    requires mss >= 1 && mss <= low <= cwnd
    ensures 1 <= AvoidanceIncrement(mss, cwnd) <= AvoidanceIncrement(mss, low)
    ensures AvoidanceIncrement(mss, cwnd) <= mss
  {
    QuotientAntitone(mss * mss, low, cwnd);
    MulMonotone(mss, cwnd, mss);
    QuotientAtMost(mss * mss, cwnd, mss);
  }

  /** One congestion-avoidance ACK at or above `low` adds at least 1 and at most `rate` bytes. */
  lemma AvoidanceAck(w: Window, mss: u16, acked: u32, low: nat, rate: nat)
    requires Sound(w, mss) && !w.inRecovery && 2 * mss <= w.ssthresh <= low <= w.cwnd <= CWND_CAP
    requires acked >= 1 && rate == AvoidanceIncrement(mss, low)
    ensures var w' := Step(w, mss, Ack(acked));
            w' == w.(cwnd := w'.cwnd) && w.cwnd <= w'.cwnd <= CWND_CAP && w'.cwnd <= w.cwnd + rate
  {
    IncrementBounds(mss, low, w.cwnd);
  }

  lemma {:induction false} AvoidanceRate(w: Window, mss: u16, es: seq<Event>, low: nat, rate: nat)
    requires Sound(w, mss) && !w.inRecovery && 2 * mss <= w.ssthresh <= low <= w.cwnd <= CWND_CAP
    requires NewAcks(es) && rate == AvoidanceIncrement(mss, low)
    ensures w.cwnd <= Exec(w, mss, es).cwnd <= w.cwnd + |es| * rate
    decreases |es|
  {
    if es != [] {
      assert es[0].Ack? && es[0].acked >= 1;
      var w' := Step(w, mss, es[0]);
      AvoidanceAck(w, mss, es[0].acked, low, rate);
      hide AvoidanceIncrement, OnAck;
      AvoidanceRate(w', mss, es[1..], low, rate);
      assert (|es| - 1) * rate + rate == |es| * rate;
    }
  }

  // --------------------------------------------------------------- slow start

  /** What a run of ACKs credits: the acknowledged bytes, at most one segment each. */
  function Credited(es: seq<Event>, mss: nat): nat
    requires NewAcks(es)
  {
    if es == [] then 0
    else Credited(es[..|es| - 1], mss) + if es[|es| - 1].acked < mss then es[|es| - 1].acked else mss
  }

  lemma {:induction false} ExecLast(w: Window, mss: u16, es: seq<Event>)
    requires Sound(w, mss) && es != []
    ensures Exec(w, mss, es) == Step(Exec(w, mss, es[..|es| - 1]), mss, es[|es| - 1])
    decreases |es|
  {
    hide Step;
    if |es| > 1 {
      assert es[1..][..|es| - 2] == es[..|es| - 1][1..];
      ExecLast(Step(w, mss, es[0]), mss, es[1..]);
    }
  }

  /**
   * Slow start is exact: as long as the window was below ssthresh before every
   * ACK and below the cap after it, a run of ACKs outside recovery adds to the window exactly what they credit.
   */
  lemma {:induction false} SlowStartExact(w: Window, mss: u16, es: seq<Event>)
    requires Sound(w, mss) && !w.inRecovery && NewAcks(es) && w.cwnd + Credited(es, mss) <= 64 * 1024 * 1024
    requires es != [] ==> w.cwnd + Credited(es[..|es| - 1], mss) < w.ssthresh
    ensures Exec(w, mss, es) == w.(cwnd := w.cwnd + Credited(es, mss))
    decreases |es|
  {
    if es != [] {
      var front, last := es[..|es| - 1], es[|es| - 1];
      assert last.Ack? && last.acked >= 1;
      CreditedShorter(es, mss);
      SlowStartExact(w, mss, front);
      ExecLast(w, mss, es);
      WrapSmall(w.cwnd + Credited(es, mss));
      hide Wrap, Credited;
    }
  }

  lemma CreditedShorter(es: seq<Event>, mss: nat)
    requires NewAcks(es) && es != []
    ensures Credited(es[..|es| - 1], mss) <= Credited(es, mss)
    ensures |es| > 1 ==> Credited(es[..|es| - 1][..|es| - 2], mss) <= Credited(es[..|es| - 1], mss)
  {
  }

  predicate WholeSegments(es: seq<Event>, mss: nat) { forall i :: 0 <= i < |es| ==> es[i].Ack? && es[i].acked == mss }

  lemma {:induction false} CreditedWhole(es: seq<Event>, mss: nat)
    requires mss >= 1 && WholeSegments(es, mss)
    ensures NewAcks(es) && Credited(es, mss) == |es| * mss
    decreases |es|
  {
    if es != [] {
      CreditedWhole(es[..|es| - 1], mss);
      RateSplits(|es|, mss);
    }
  }

  /** ACKs of whole segments that cover one window double it. */
  lemma SlowStartDoubles(w: Window, mss: u16, es: seq<Event>)
    requires Sound(w, mss) && !w.inRecovery && WholeSegments(es, mss) && |es| * mss == w.cwnd
    requires 2 * w.cwnd <= CWND_CAP && 2 * w.cwnd <= w.ssthresh
    ensures Exec(w, mss, es) == w.(cwnd := 2 * w.cwnd)
  {
    CreditedWhole(es, mss);
    if es != [] {
      CreditedWhole(es[..|es| - 1], mss);
      RateSplits(|es|, mss);
    }
    SlowStartExact(w, mss, es);
  }

  /** ssthresh after a loss: half the flight, but not less than two segments. */
  predicate HalvedTo(ssthresh: nat, mss: nat, flight: nat) {
    ssthresh >= flight / 2 && ssthresh >= 2 * mss && (ssthresh == flight / 2 || ssthresh == 2 * mss)
  }

  /**
   * A sender that timed out starts again from one segment, has j + 1 segments
   * after j whole-segment ACKs, and is back at ssthresh after exactly
   * ceil((ssthresh - MSS) / MSS) of them.
   */
  lemma BackToThreshold(w: Window, mss: u16, flight: u32, es: seq<Event>)
    requires Sound(w, mss) && flight <= CWND_CAP && WholeSegments(es, mss)
    requires |es| * mss < flight / 2 || |es| < 2
    ensures var z := Exec(w, mss, [Timeout(flight)] + es);
            && z.cwnd == (|es| + 1) * mss && !z.inRecovery && HalvedTo(z.ssthresh, mss, flight)
            && (z.cwnd >= z.ssthresh <==> |es| >= (z.ssthresh - 1) / mss)
  {
    var t := Step(w, mss, Timeout(flight));
    assert ([Timeout(flight)] + es)[1..] == es;
    StillBelow(|es|, mss, flight, t.ssthresh);
    hide Exec, Credited, Step;
    GrowsBySegments(t, mss, es);
    SegmentsNeeded(|es|, mss, t.ssthresh);
  }

  lemma StillBelow(k: nat, mss: nat, flight: nat, ssthresh: nat)
    requires 1 <= mss < 0x1_0000 && flight <= CWND_CAP && HalvedTo(ssthresh, mss, flight) && (k * mss < flight / 2 || k < 2)
    ensures k * mss < ssthresh && k * mss + mss <= CWND_CAP
  {
    if k < 2 { MulMonotone(k, 1, mss); }
  }

  /** From one segment on, each whole-segment ACK below ssthresh adds a segment. */
  lemma GrowsBySegments(w: Window, mss: u16, es: seq<Event>)
    requires Sound(w, mss) && !w.inRecovery && w.cwnd == mss && WholeSegments(es, mss)
    requires |es| * mss < w.ssthresh && |es| * mss + mss <= CWND_CAP
    ensures Exec(w, mss, es) == w.(cwnd := (|es| + 1) * mss)
  {
    hide Exec, Credited;
    CreditedWhole(es, mss);
    RateSplits(|es| + 1, mss);
    if es != [] {
      CreditedWhole(es[..|es| - 1], mss);
      RateSplits(|es|, mss);
    }
    SlowStartExact(w, mss, es);
  }

  lemma SegmentsNeeded(k: nat, mss: nat, threshold: nat)
    requires mss >= 1 && threshold >= 1
    ensures (k + 1) * mss >= threshold <==> k >= (threshold - 1) / mss
  {
    var q := (threshold - 1) / mss;
    QuotientWithin(threshold - 1, mss);
    if k >= q { MulMonotone(q + 1, k + 1, mss); } else { MulMonotone(k + 1, q, mss); }
  }

  /** A fast retransmit inflates the window by three segments over ssthresh; the first new ACK leaves it at ssthresh. */
  lemma RecoveryEnds(w: Window, mss: u16, flight: u32, acked: u32)
    requires Sound(w, mss) && flight <= CWND_CAP && acked >= 1
    ensures var r := Exec(w, mss, [ThirdDuplicate(flight)]);
            var z := Exec(w, mss, [ThirdDuplicate(flight), Ack(acked)]);
            && HalvedTo(r.ssthresh, mss, flight) && r.inRecovery && r.cwnd == r.ssthresh + 3 * mss
            && z == Window(r.ssthresh, r.ssthresh, false)
  {
    var es := [ThirdDuplicate(flight), Ack(acked)];
    assert es[1..] == [Ack(acked)] && es[1..][1..] == [] && es[..1] == [ThirdDuplicate(flight)];
    var r := Step(w, mss, ThirdDuplicate(flight));
    WrapSmall(r.ssthresh + 3 * mss);
    hide Wrap;
    assert Exec(r, mss, es[1..]) == Step(r, mss, Ack(acked));
  }
}
