/**
 * The connection block of tcp_fsm.c as it is updated in place: the linear send
 * buffer of tcp_snd_buf.h, the congestion and round-trip fields, and the
 * handlers of an established connection. Every method is proved to compute the
 * corresponding function of SenderSpec; `wire` is the trace of segments sent.
 */
module Connection {
  import opened Basics
  import opened SequenceNumbers
  import opened SenderSpec
  import NewReno
  import RttEstimator

  /** Where a drain stands: the trace so far and the rest still to send make the whole. */
  ghost predicate Remaining(whole: (Sender, seq<Segment>), wire0: seq<Segment>, wire: seq<Segment>,
                            rest: (Sender, seq<Segment>)) {
    rest.0 == whole.0 && wire + rest.1 == wire0 + whole.1
  }

  lemma AckKeepsSound(w: NewReno.Window, mss: u16, acked: u32)
    requires NewReno.Sound(w, mss)
    ensures NewReno.Divisible(w) && NewReno.Sound(NewReno.OnAck(w, mss, acked), mss)
  {
    hide NewReno.AvoidanceIncrement, Wrap;
  }

  lemma RemainingStart(whole: (Sender, seq<Segment>), wire: seq<Segment>)
    ensures Remaining(whole, wire, wire, whole)
  {
  }

  lemma DrainFromEnd(s: Sender, offset: nat, budget: nat)
    requires offset >= |s.buf|
    ensures DrainFrom(s, offset, budget) == (s, [])
  {
  }

  lemma RemainingStep(whole: (Sender, seq<Segment>), wire0: seq<Segment>, wire: seq<Segment>,
                      rest: (Sender, seq<Segment>), g: Segment, r: (Sender, seq<Segment>))
    requires Remaining(whole, wire0, wire, rest) && rest == (r.0, [g] + r.1)
    ensures Remaining(whole, wire0, wire + [g], r)
  {
    assert wire + ([g] + r.1) == (wire + [g]) + r.1;
  }

  lemma RemainingDone(whole: (Sender, seq<Segment>), wire0: seq<Segment>, wire: seq<Segment>, s: Sender)
    requires Remaining(whole, wire0, wire, (s, []))
    ensures whole.0 == s && wire == wire0 + whole.1
  {
    assert wire + [] == wire;
  }

  class SendBuffer {
    const data: array<byte>
    var len: nat
    var baseSeq: u32

    ghost predicate Valid()
      reads this
    {
      len <= data.Length < MODULUS
    }

    ghost function Contents(): seq<byte>
      requires Valid()
      reads this, data
    {
      data[..len]
    }

    constructor (cap: u32, base: u32)
      ensures Valid() && Contents() == [] && data.Length == cap && baseSeq == base && fresh(data)
    {
      data := new byte[cap](_ => 0);
      len := 0;
      baseSeq := base;
    }

    /** tcp_snd_buf_append: copies what fits. */
    method Append(src: seq<byte>) returns (n: nat)
      requires Valid()
      modifies this`len, data
      ensures Valid() && n == Min(|src|, data.Length - old(len))
      ensures Contents() == old(Contents()) + src[..n]
    {
      n := Min(|src|, data.Length - len);
      if n == 0 { return; }
      forall i | 0 <= i < n { data[len + i] := src[i]; }
      len := len + n;
    }

    /** memmove of data[n..len] to the front. */
    method MoveDown(n: nat)
      requires n <= len <= data.Length
      modifies data
      ensures data[..len - n] == old(data[n..len])
    {
      ghost var was := data[..];
      var i := 0;
      while i < len - n
        invariant 0 <= i <= len - n
        invariant forall j :: 0 <= j < i ==> data[j] == was[n + j]
        invariant forall j :: i <= j < data.Length ==> data[j] == was[j]
      {
        data[i] := data[n + i];
        i := i + 1;
      }
    }

    /** tcp_snd_buf_ack: moves the unacknowledged tail to the front. */
    method Ack(acked: u32)
      requires Valid()
      modifies this, data
      ensures Valid()
      ensures Contents() == if acked >= old(len) then [] else old(Contents())[acked..]
      ensures baseSeq == Wrap(old(baseSeq) + Min(acked, old(len)))
    {
      hide Wrap;
      if acked >= len {
        baseSeq := Wrap(baseSeq + len);
        len := 0;
        return;
      }
      MoveDown(acked);
      baseSeq := Wrap(baseSeq + acked);
      len := len - acked;
    }
  }

  class Connection {
    var open: bool
    var una: u32
    var nxt: u32
    var wnd: u32
    var mss: u16
    var timestamps: bool
    var cwnd: u32
    var ssthresh: u32
    var inRecovery: bool
    var dupAcks: byte
    var retries: byte
    var srtt: u32
    var rttvar: u32
    var rto: u32
    var armed: bool
    var sndBuf: SendBuffer?
    var rcvNxt: u32
    var delivered: seq<byte>
    var pendingAck: bool
    var wire: seq<Segment>

    ghost function Repr(): set<object>
      reads this
    {
      if sndBuf == null then {this} else {this, sndBuf, sndBuf.data}
    }

    ghost predicate Valid()
      reads Repr()
    {
      (sndBuf != null ==> sndBuf.Valid()) && Ok(View())
    }

    ghost function View(): Sender
      reads Repr()
    {
      Sender(open, una, nxt, wnd, mss, timestamps,
             NewReno.Window(cwnd, ssthresh, inRecovery), dupAcks, retries,
             RttEstimator.Rtt(srtt, rttvar, rto), armed,
             sndBuf != null,
             if sndBuf != null && sndBuf.Valid() then sndBuf.Contents() else [],
             if sndBuf != null && sndBuf.Valid() then sndBuf.data.Length else 0,
             if sndBuf != null then sndBuf.baseSeq else 0)
    }

    /** A connection after its handshake; a passive open leaves the timer of its SYN-ACK running. */
    constructor (origin: u32, peerOrigin: u32, congestion: u32, window: u32, segment: u16, ts: bool, running: bool)
      requires segment >= 1
      ensures Valid() && fresh(Repr()) && wire == [] && delivered == [] && !pendingAck && rcvNxt == peerOrigin
      ensures View() == Sender(true, origin, origin, window, segment, ts,
                               NewReno.Window(congestion, NewReno.MAX_U32, false), 0, 0,
                               RttEstimator.Rtt(0, 0, RttEstimator.INITIAL_RTO_US), running, false, [], 0, 0)
    {
      open, una, nxt, wnd, mss, timestamps := true, origin, origin, window, segment, ts;
      cwnd, ssthresh, inRecovery := congestion, NewReno.MAX_U32, false;
      dupAcks, retries, srtt, rttvar, rto := 0, 0, 0, 0, RttEstimator.INITIAL_RTO_US;
      armed, pendingAck := running, false;
      sndBuf, rcvNxt, delivered, wire := null, peerOrigin, [], [];
    }

    static method AvoidanceIncrement(mss: u16, cwnd: u32) returns (inc: nat)
      requires cwnd > 0
      ensures inc == NewReno.AvoidanceIncrement(mss, cwnd)
    {
      inc := mss * mss / cwnd;
      if inc == 0 { inc := 1; }
    }

    /** congestion_on_ack */
    method CongestionOnAck(acked: u32)
      requires NewReno.Sound(NewReno.Window(cwnd, ssthresh, inRecovery), mss)
      modifies this`cwnd, this`inRecovery
      ensures NewReno.Window(cwnd, ssthresh, inRecovery)
           == NewReno.OnAck(old(NewReno.Window(cwnd, ssthresh, inRecovery)), mss, acked)
    {
      if acked == 0 { return; }
      if inRecovery {
        cwnd := ssthresh;
        inRecovery := false;
        return;
      }
      if cwnd < ssthresh {
        cwnd := Wrap(cwnd + Min(acked, mss));
      } else {
        var inc := AvoidanceIncrement(mss, cwnd);
        cwnd := Wrap(cwnd + inc);
      }
      if cwnd > NewReno.CWND_CAP { cwnd := NewReno.CWND_CAP; }
    }

    /** update_rtt */
    method UpdateRtt(sample: u32)
      modifies this`srtt, this`rttvar, this`rto
      ensures RttEstimator.Rtt(srtt, rttvar, rto)
           == RttEstimator.Update(old(RttEstimator.Rtt(srtt, rttvar, rto)), sample)
    {
      if srtt == 0 {
        srtt := sample;
        rttvar := sample / 2;
      } else {
        var delta := if sample > srtt then sample - srtt else srtt - sample;
        rttvar := Wrap(Wrap(3 * rttvar) + delta) / 4;
        srtt := Wrap(Wrap(7 * srtt) + sample) / 8;
      }
      var wanted := Wrap(srtt + Wrap(4 * rttvar));
      rto := RttEstimator.Clamp(wanted, RttEstimator.MIN_RTO_US, RttEstimator.MAX_RTO_US);
    }

    /** The next length to send at `offset`, bounded by the window and the effective MSS. */
    method SendLength(offset: nat) returns (n: nat)
      requires Valid() && sndBuf != null && offset < sndBuf.len
      ensures n == NextLength(View(), offset)
    {
      var optionBytes := if timestamps then 12 else 0;
      var effective := if mss > optionBytes then mss - optionBytes else 1;
      var inFlight := Wrap(nxt - una);
      var window := Min(cwnd, wnd);
      var avail := if window > inFlight then window - inFlight else 0;
      n := Min(sndBuf.len - offset, avail);
      n := Min(n, effective);
    }

    /** One pass of the drain loop: n is 0 when it stops. */
    method SendSlice(offset: nat, left: nat) returns (n: nat)
      requires Valid() && sndBuf != null && offset < sndBuf.len
      modifies this`nxt, this`wire
      ensures Valid() && offset + n <= sndBuf.len && View() == old(View()).(nxt := nxt)
      ensures n == 0 ==> nxt == old(nxt) && wire == old(wire)
                         && old(DrainFrom(View(), offset, left)) == (View(), [])
      ensures n > 0 ==> left > 0
                        && wire == old(wire) + [Segment(old(nxt), old(View()).buf[offset..offset + n])]
                        && var r := DrainFrom(View(), offset + n, left - 1);
                           old(DrainFrom(View(), offset, left))
                           == (r.0, [Segment(old(nxt), old(View()).buf[offset..offset + n])] + r.1)
    {
      hide Wrap;
      ghost var v := View();
      n := SendLength(offset);
      if n == 0 || left == 0 { return 0; }
      DrainFromStep(v, offset, left, n);
      Transmit(offset, n);
    }

    /** A successful transmit of n buffered bytes at snd_nxt. */
    method Transmit(offset: nat, n: nat)
      requires Valid() && sndBuf != null && offset + n <= sndBuf.len
      modifies this`nxt, this`wire
      ensures Valid() && View() == old(View()).(nxt := Wrap(old(nxt) + n))
      ensures wire == old(wire) + [Segment(old(nxt), old(View()).buf[offset..offset + n])]
    {
      hide Wrap;
      wire := wire + [Segment(nxt, sndBuf.data[offset..offset + n])];
      assert sndBuf.data[offset..offset + n] == sndBuf.Contents()[offset..offset + n];
      nxt := Wrap(nxt + n);
    }

    /** snd_buf_drain */
    method DrainBuffer(budget: nat)
      requires Valid()
      modifies this`nxt, this`wire
      ensures Valid()
      ensures var (s, segs) := old(Drain(View(), budget)); View() == s && wire == old(wire) + segs
    {
      assert wire + [] == wire;
      if sndBuf == null || sndBuf.len == 0 { return; }
      DrainLoop(budget);
    }

    method DrainLoop(budget: nat)
      requires Valid() && sndBuf != null
      modifies this`nxt, this`wire
      ensures Valid()
      ensures var (s, segs) := old(DrainFrom(View(), InFlight(View()), budget));
              View() == s && wire == old(wire) + segs
    {
      hide Wrap, DrainFrom, NextLength, Remaining;
      var offset: nat := Wrap(nxt - una);
      var left := budget;
      ghost var whole := DrainFrom(View(), offset, budget);
      ghost var rest := whole;
      RemainingStart(whole, wire);
      while offset < sndBuf.len
        invariant Valid() && sndBuf == old(sndBuf) && View() == old(View()).(nxt := nxt)
        invariant rest == DrainFrom(View(), offset, left)
        invariant Remaining(whole, old(wire), wire, rest)
        decreases sndBuf.len - offset
      {
        ghost var (before, g0, v) := (wire, nxt, View());
        var n := SendSlice(offset, left);
        if n == 0 { break; }
        ghost var r := DrainFrom(View(), offset + n, left - 1);
        RemainingStep(whole, old(wire), before, rest, Segment(g0, v.buf[offset..offset + n]), r);
        offset := offset + n;
        left := left - 1;
        rest := r;
      }
      if offset >= sndBuf.len { DrainFromEnd(View(), offset, left); }
      assert rest == (View(), []);
      RemainingDone(whole, old(wire), wire, rest.0);
    }

    /** The first send sizes the buffer so that it fits. */
    method MakeBuffer(needed: nat)
      requires Valid() && sndBuf == null && needed < MODULUS
      modifies this`sndBuf
      ensures Valid() && sndBuf != null && fresh(sndBuf) && fresh(sndBuf.data)
      ensures View() == old(View()).(
                hasBuf := true, buf := [], baseSeq := una, cap := FirstCapacity(needed))
    {
      var cap: u32 := DEFAULT_CAPACITY;
      if needed > cap { cap := Wrap(needed + FIRST_SEND_HEADROOM); }
      sndBuf := new SendBuffer(cap, una);
    }

    /** tcp_fsm_send */
    method Send(data: seq<byte>, allocates: bool, budget: nat) returns (queued: int)
      requires Valid() && |data| < MODULUS
      modifies Repr()
      ensures Valid() && fresh(Repr() - old(Repr()))
      ensures var (s, segs, n) := old(SenderSpec.Send(View(), data, allocates, budget));
              View() == s && wire == old(wire) + segs && queued == n
      ensures rcvNxt == old(rcvNxt) && delivered == old(delivered)
    {
      hide Wrap, Drain;
      if !open { return -1; }
      if sndBuf == null {
        if !allocates { return -1; }
        MakeBuffer(|data|);
      }
      ghost var s1 := View();
      var n := sndBuf.Append(data);
      assert View() == s1.(buf := s1.buf + data[..Accepted(s1, data)]);
      DrainBuffer(budget);
      if nxt != una && !armed { armed := true; }
      queued := Signed(n);
    }

    /** Acknowledgement beyond snd_una: sequence variables, congestion window, retry count. */
    method AdvanceVariables(ack: u32) returns (acked: u32)
      requires Valid()
      modifies this`una, this`nxt, this`dupAcks, this`retries, this`cwnd, this`inRecovery, this`armed
      ensures Valid() && acked == Wrap(ack - old(una)) && View() == old(Acknowledge(View(), ack))
    {
      hide Wrap, NewReno.OnAck, NewReno.AvoidanceIncrement;
      AckKeepsSound(NewReno.Window(cwnd, ssthresh, inRecovery), mss, Wrap(ack - una));
      hide NewReno.Sound;
      acked := Wrap(ack - una);
      una := ack;
      if SeqGt(una, nxt) { nxt := una; }
      dupAcks := 0;
      CongestionOnAck(acked);
      retries := 0;
      armed := una != nxt;
    }

    method TrimBuffer(acked: u32)
      requires Valid()
      modifies Repr() - {this}
      ensures Valid() && View() == old(Trim(View(), acked))
    {
      hide Wrap, NewReno.Sound;
      if sndBuf == null { return; }
      sndBuf.Ack(acked);
    }

    method TakeRttSample(sample: Sample)
      requires Valid()
      modifies this`srtt, this`rttvar, this`rto
      ensures Valid() && View() == old(TakeSample(View(), sample))
    {
      if sample.Sample? && timestamps && sample.us < RttEstimator.SAMPLE_LIMIT_US {
        UpdateRtt(sample.us);
      }
    }

    /** Acknowledgement beyond snd_una, up to the drain that follows it. */
    method NewAck(ack: u32, sample: Sample)
      requires Valid()
      modifies Repr()
      ensures Valid() && sndBuf == old(sndBuf)
      ensures View() == old(Advance(View(), ack, sample))
      ensures wire == old(wire) && rcvNxt == old(rcvNxt) && delivered == old(delivered)
    {
      hide Wrap, SeqGt, NewReno.OnAck, Trim;
      var acked := AdvanceVariables(ack);
      TrimBuffer(acked);
      TakeRttSample(sample);
    }

    method DuplicateAck(budget: nat)
      requires Valid()
      modifies this`dupAcks, this`ssthresh, this`cwnd, this`inRecovery, this`wire
      ensures Valid()
      ensures var (s, segs) := old(Duplicate(View(), budget)); View() == s && wire == old(wire) + segs
    {
      dupAcks := (dupAcks + 1) % 256;
      if dupAcks == 3 {
        FastRetransmit(budget);
      }
    }

    /** The ACK branch of tcp_fsm_input in ESTABLISHED. */
    method ReceiveAck(ack: u32, win: u32, sample: Sample, budget: nat)
      requires Valid()
      modifies Repr()
      ensures Valid() && sndBuf == old(sndBuf)
      ensures var (s, segs) := old(AckIn(View(), ack, win, sample, budget));
              View() == s && wire == old(wire) + segs
      ensures rcvNxt == old(rcvNxt) && delivered == old(delivered)
    {
      hide Wrap, SeqGt, Advance, Duplicate, Drain;
      if !open { return; }
      if SeqGt(ack, una) {
        NewAck(ack, sample);
        DrainBuffer(budget);
      } else if ack == una {
        DuplicateAck(budget);
      }
      wnd := win;
    }

    /** congestion_fast_retransmit and the retransmission that follows it. */
    method FastRetransmit(budget: nat)
      requires Valid()
      modifies this`ssthresh, this`cwnd, this`inRecovery, this`wire
      ensures Valid()
      ensures var s := old(View()).(cc := NewReno.OnFastRetransmit(old(View().cc), mss, InFlight(old(View()))));
              && View() == s
              && wire == old(wire) +
                   if !s.hasBuf || s.buf == [] || budget == 0 then []
                   else [Segment(s.una, s.buf[..Min(|s.buf|, EffectiveMss(s))])]
    {
      InflateWindow();
      hide Wrap, NewReno.Sound, NewReno.OnFastRetransmit;
      if sndBuf != null && sndBuf.len > 0 && budget > 0 {
        var optionBytes := if timestamps then 12 else 0;
        var n := Min(sndBuf.len, if mss > optionBytes then mss - optionBytes else 1);
        wire := wire + [Segment(una, sndBuf.data[..n])];
        assert sndBuf.data[..n] == sndBuf.Contents()[..n];
      }
    }

    /** The window part of congestion_fast_retransmit. */
    method InflateWindow()
      requires Valid()
      modifies this`ssthresh, this`cwnd, this`inRecovery
      ensures Valid()
      ensures View() == old(View()).(cc := NewReno.OnFastRetransmit(old(View().cc), mss, InFlight(old(View()))))
    {
      hide Wrap;
      var flight := Wrap(nxt - una);
      ssthresh := Max(flight / 2, 2 * mss);
      cwnd := Wrap(ssthresh + 3 * mss);
      inRecovery := true;
    }

    /** congestion_on_rto */
    method CongestionOnRto()
      modifies this`ssthresh, this`cwnd, this`inRecovery, this`dupAcks
      ensures NewReno.Window(cwnd, ssthresh, inRecovery)
           == NewReno.OnTimeout(old(NewReno.Window(cwnd, ssthresh, inRecovery)), mss, Wrap(nxt - una))
      ensures dupAcks == 0
    {
      ssthresh := Max(Wrap(nxt - una) / 2, 2 * mss);
      cwnd := mss;
      inRecovery := false;
      dupAcks := 0;
    }

    /** The backoff part of tcp_fsm_rto_expired, with congestion_on_rto. */
    method BackOffFields()
      requires Valid()
      modifies this`retries, this`rto, this`ssthresh, this`cwnd, this`inRecovery, this`dupAcks, this`nxt,
        this`armed
      ensures Valid() && View() == old(BackOff(View()))
    {
      hide Wrap, NewReno.OnTimeout;
      BackOffTimer();
      armed := true;
      if sndBuf != null && sndBuf.len > 0 { nxt := una; }
    }

    /** The retry count, the timeout and the congestion fields. */
    method BackOffTimer()
      requires Valid()
      modifies this`retries, this`rto, this`ssthresh, this`cwnd, this`inRecovery, this`dupAcks
      ensures View() == old(View()).(
                retries := (old(retries) + 1) % 256, rtt := RttEstimator.Backoff(old(View().rtt)), dupAcks := 0,
                cc := NewReno.Step(old(View().cc), mss, NewReno.Timeout(InFlight(old(View())))))
    {
      hide Wrap, NewReno.OnTimeout;
      retries := (retries + 1) % 256;
      rto := Min(Wrap(rto * 2), RttEstimator.MAX_RTO_US);
      CongestionOnRto();
    }

    /** tcp_fsm_rto_expired in ESTABLISHED. */
    method RtoExpired(budget: nat)
      requires Valid()
      modifies this
      ensures Valid() && sndBuf == old(sndBuf)
      ensures var (s, segs) := old(SenderSpec.RtoExpired(View(), budget));
              View() == s && wire == old(wire) + segs
      ensures rcvNxt == old(rcvNxt) && delivered == old(delivered)
    {
      hide Wrap, DrainFrom;
      if !open { return; }
      if (retries + 1) % 256 > MAX_RETRANSMITS {
        retries := (retries + 1) % 256;
        open, armed := false, false;
        return;
      }
      BackOffFields();
      if sndBuf != null && sndBuf.len > 0 { DrainBuffer(budget); }
    }

    /** The data branch of tcp_fsm_input in ESTABLISHED: only the next segment in order is taken. */
    method ReceiveData(start: u32, payload: seq<byte>)
      modifies this`rcvNxt, this`delivered, this`pendingAck
      ensures if start == old(rcvNxt) && payload != []
              then rcvNxt == Wrap(old(rcvNxt) + |payload|) && delivered == old(delivered) + payload && pendingAck
              else rcvNxt == old(rcvNxt) && delivered == old(delivered) && pendingAck == old(pendingAck)
    {
      if |payload| > 0 {
        if start == rcvNxt {
          rcvNxt := Wrap(rcvNxt + |payload|);
          delivered := delivered + payload;
          pendingAck := true;
        }
      }
    }
  }
}
