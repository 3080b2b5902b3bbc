/**
 * One sender and one in-order receiver over a network that loses, duplicates,
 * delays and reorders data segments and acknowledgements (tcp_fsm.c).
 *
 * The network is a set of packets: a delivery leaves the packet there, so it
 * may be delivered again and in any order, and a loss removes it. The
 * positions `off` and `upTo` of packets, and `acked`, are history variables
 * that no code reads: they are unbounded stream positions.
 */
module StreamTransfer {
  import opened Basics
  import opened SequenceNumbers
  import opened SenderSpec
  import NewReno
  import RttEstimator

  datatype Packet = Packet(start: u32, payload: seq<byte>, off: nat)
  datatype AckPacket = AckPacket(ack: u32, upTo: nat, win: u32)

  datatype System = System(
    origin: u32,                 // sequence number of the first data byte
    snd: Sender,
    queued: seq<byte>,           // every byte tcp_fsm_send has accepted
    acked: nat,                  // stream position of snd_una
    rcvNxt: u32,
    received: seq<byte>,         // every byte handed to the application
    pending: bool,               // accepted data still to be acknowledged
    data: set<Packet>,
    acks: set<AckPacket>)

  datatype Event =
    | AppSend(bytes: seq<byte>, allocates: bool, sendBudget: nat)
    | DeliverData(packet: Packet)
    | LoseData(packet: Packet)
    | EmitAck(win: u32)               // the acknowledgement that accepted data is owed
    | Piggyback(win: u32)             // one on a segment the receiver's application sends
    | DeliverAck(ackPacket: AckPacket, sample: Sample, ackBudget: nat)
    | LoseAck(ackPacket: AckPacket)
    | Timeout(rtoBudget: nat)

  /**
   * Which events can happen. The timer fires only when armed. A packet is delivered only while the stream has
   * not moved a whole sequence space (for data) or half of one (for
   * acknowledgements) past it: the maximum segment lifetime of section 3.4 of RFC 9293.
   */
  predicate Enabled(y: System, e: Event) {
    match e
    case AppSend(bytes, _, _) => |bytes| < HALF - FIRST_SEND_HEADROOM
    case DeliverData(p) => p in y.data && |y.received| - p.off < MODULUS
    case LoseData(_) => true
    case EmitAck(_) => y.pending
    case Piggyback(_) => true
    case DeliverAck(a, _, _) => a in y.acks && y.acked - a.upTo <= HALF
    case LoseAck(_) => true
    case Timeout(_) => y.snd.armed
  }

  function Emitted(segs: seq<Segment>, una: u32, acked: nat): set<Packet> {
    set g | g in segs :: Packet(g.start, g.payload, acked + Wrap(g.start - una))
  }

  /** The sender moved to s' and transmitted segs. */
  function Moved(y: System, s': Sender, segs: seq<Segment>): System {
    var acked := y.acked + Wrap(s'.una - y.snd.una);
    y.(snd := s', acked := acked, data := y.data + Emitted(segs, s'.una, acked))
  }

  /** An acknowledgement of everything accepted goes out. */
  function Acknowledged(y: System, win: u32): System {
    y.(acks := y.acks + {AckPacket(y.rcvNxt, |y.received|, win)})
  }

  function Step(y: System, e: Event): System
    requires Ok(y.snd) && Enabled(y, e)
  {
    match e
    case AppSend(bytes, allocates, budget) =>
      var (s', segs, n) := Send(y.snd, bytes, allocates, budget);
      Moved(y, s', segs).(queued := if 0 <= n <= |bytes| then y.queued + bytes[..n] else y.queued)
    case DeliverData(p) =>
      if p.start == y.rcvNxt && p.payload != []
      then y.(rcvNxt := Wrap(y.rcvNxt + |p.payload|), received := y.received + p.payload, pending := true)
      else y
    case LoseData(p) => y.(data := y.data - {p})
    case EmitAck(win) => Acknowledged(y, win).(pending := false)
    case Piggyback(win) => Acknowledged(y, win)
    case DeliverAck(a, sample, budget) =>
      var (s', segs) := AckIn(y.snd, a.ack, a.win, sample, budget);
      Moved(y, s', segs)
    case LoseAck(a) => y.(acks := y.acks - {a})
    case Timeout(budget) =>
      var (s', segs) := RtoExpired(y.snd, budget);
      Moved(y, s', segs)
  }

  // --------------------------------------------------------------- invariant

  /** The buffer is exactly the unacknowledged slice of the stream. */
  predicate SenderInv(y: System) {
    var s := y.snd;
    && Ok(s) && Spanned(s)
    && |s.buf| <= s.cap < HALF
    && (s.hasBuf ==> s.baseSeq == s.una && s.cap >= DEFAULT_CAPACITY) && (!s.hasBuf ==> s.buf == [] && s.cap == 0)
    && s.una == Wrap(y.origin + y.acked)
    && y.acked <= |y.queued| && s.buf == y.queued[y.acked..]
  }

  predicate ReceiverInv(y: System) {
    && y.received <= y.queued
    && y.acked <= |y.received|
    && y.rcvNxt == Wrap(y.origin + |y.received|)
  }

  predicate PacketOk(p: Packet, origin: u32, queued: seq<byte>) {
    && |p.payload| >= 1
    && p.start == Wrap(origin + p.off)
    && p.off + |p.payload| <= |queued|
    && p.payload == queued[p.off..p.off + |p.payload|]
  }

  ghost predicate DataInv(y: System) { forall p <- y.data :: PacketOk(p, y.origin, y.queued) }

  ghost predicate AckInv(y: System) {
    forall a <- y.acks :: a.ack == Wrap(y.origin + a.upTo) && a.upTo <= |y.received|
  }

  ghost predicate Inv(y: System) { SenderInv(y) && ReceiverInv(y) && DataInv(y) && AckInv(y) }

  // ------------------------------------------------------- sender operations

  /** What a sender operation may do to the stream: trim it at the front, extend it at the back. */
  predicate SenderMove(s: Sender, s': Sender, trimmed: nat, added: seq<byte>) {
    && trimmed <= |s.buf|
    && s'.una == Wrap(s.una + trimmed)
    && s'.buf == s.buf[trimmed..] + added
    && Ok(s') && Spanned(s') && |s'.buf| <= s'.cap < HALF
    && (s'.hasBuf ==> s'.baseSeq == s'.una && s'.cap >= DEFAULT_CAPACITY)
    && (!s'.hasBuf ==> s'.buf == [] && s'.cap == 0)
  }

  predicate Local(s: Sender) {
    && Ok(s) && Spanned(s) && |s.buf| <= s.cap < HALF
    && (s.hasBuf ==> s.baseSeq == s.una && s.cap >= DEFAULT_CAPACITY) && (!s.hasBuf ==> s.buf == [] && s.cap == 0)
  }

  ghost predicate AllCarry(segs: seq<Segment>, s: Sender) {
    forall g <- segs :: Carries(g, s.una, s.buf)
  }

  lemma DrainMoves(s: Sender, budget: nat)
    requires Local(s)
    ensures var (s', segs) := Drain(s, budget); SenderMove(s, s', 0, []) && AllCarry(segs, s')
  {
    hide Wrap;
    WrapSmall(s.una);
    DrainSends(s, budget);
    var (s', segs) := Drain(s, budget);
    assert s.buf[0..] + [] == s.buf;
    forall g <- segs ensures Carries(g, s'.una, s'.buf) {
      TiledMember(segs, s.una, s.buf, InFlight(s), EffectiveMss(s), SendWindow(s), g);
    }
  }

  lemma CapacityFits(n: nat)
    requires n < HALF - FIRST_SEND_HEADROOM
    ensures DEFAULT_CAPACITY <= FirstCapacity(n) < HALF && n <= FirstCapacity(n)
  {
    WrapSmall(n + FIRST_SEND_HEADROOM);
  }

  lemma SendMoves(s: Sender, data: seq<byte>, allocates: bool, budget: nat)
    requires Local(s) && |data| < HALF - FIRST_SEND_HEADROOM
    ensures var (s', segs, n) := Send(s, data, allocates, budget);
            && -1 <= n <= |data|
            && SenderMove(s, s', 0, if n < 0 then [] else data[..n]) && AllCarry(segs, s')
  {
    WrapSmall(s.una);
    hide Wrap, Drain, Spanned;
    assert s.buf[0..] + [] == s.buf;
    if s.open && (s.hasBuf || allocates) {
      var s1 := if s.hasBuf then s
                else s.(hasBuf := true, buf := [], baseSeq := s.una,
                        cap := FirstCapacity(|data|));
      CapacityFits(|data|);
      assert Local(s1) by { SameSpan(s, s1); }
      hide FirstCapacity;
      QueueMoves(s1, data, budget);
    }
  }

  lemma SameSpan(s: Sender, s1: Sender)
    requires s1.una == s.una && s1.nxt == s.nxt && s1.buf == s.buf && Spanned(s)
    ensures Spanned(s1)
  {
  }

  /** Queueing on an existing buffer, and the drain that follows. */
  lemma QueueMoves(s: Sender, data: seq<byte>, budget: nat)
    requires Local(s) && s.hasBuf && |data| < MODULUS
    ensures var n := Accepted(s, data);
            var (s', segs) := Drain(s.(buf := s.buf + data[..n]), budget);
            SenderMove(s, Armed(s'), 0, data[..n]) && AllCarry(segs, Armed(s'))
  {
    WrapSmall(s.una);
    var n := Accepted(s, data);
    var s2 := s.(buf := s.buf + data[..n]);
    assert Spanned(s2);
    hide Wrap, Drain, Spanned;
    assert s.buf[0..] + data[..n] == s2.buf && s2.buf[0..] + [] == s2.buf;
    DrainMoves(s2, budget);
    SameSpan(Drain(s2, budget).0, Armed(Drain(s2, budget).0));
  }

  /** snd_nxt after an acknowledgement: the rest of the flight, or nothing if it was passed. */
  lemma FlightAfterAck(una: u32, flight: nat, trimmed: nat)
    requires flight < HALF && trimmed < HALF
    ensures var nxt: int := Wrap(una + flight);
            var ack: int := Wrap(una + trimmed);
            var front: int := if SeqGt(ack, nxt) then ack else nxt;
            Wrap(front - ack) == Max(flight - trimmed, 0)
  {
    SeqGtExact(una, trimmed, flight);
    WrapDiff(una + flight, una + trimmed);
  }

  /** A new acknowledgement of `trimmed` buffered bytes trims exactly those, and snd_nxt stays ahead. */
  lemma AdvanceMoves(s: Sender, ack: u32, sample: Sample, trimmed: nat)
    requires Local(s) && 0 < trimmed <= |s.buf| && ack == Wrap(s.una + trimmed)
    ensures SenderMove(s, Advance(s, ack, sample), trimmed, [])
  {
    hide Wrap;
    var s' := Advance(s, ack, sample);
    WrapOffset(s.una, trimmed);
    assert s'.una == ack && s'.buf == s.buf[trimmed..] == s.buf[trimmed..] + [];
    assert InFlight(s') == Max(InFlight(s) - trimmed, 0) by {
      WrapBack(s.una, s.nxt);
      FlightAfterAck(s.una, InFlight(s), trimmed);
    }
  }

  lemma ThenDrain(s: Sender, s1: Sender, trimmed: nat, win: u32, budget: nat)
    requires SenderMove(s, s1, trimmed, [])
    ensures var (s', segs) := Drain(s1, budget);
            SenderMove(s, s'.(wnd := win), trimmed, []) && AllCarry(segs, s'.(wnd := win))
  {
    hide Wrap;
    WrapSmall(s.una);
    WrapSmall(s1.una);
    DrainMoves(s1, budget);
    assert s1.buf[0..] + [] == s1.buf;
  }

  lemma DuplicateMoves(s: Sender, budget: nat)
    requires Local(s)
    ensures var (s', segs) := Duplicate(s, budget); SenderMove(s, s', 0, []) && AllCarry(segs, s')
  {
    assert s.buf[0..] + [] == s.buf;
  }

  lemma AckCases(s: Sender, ack: u32, ahead: int)
    requires -HALF <= ahead < HALF && ack == Wrap(s.una + ahead)
    ensures SeqGt(ack, s.una) <==> ahead > 0
    ensures ack == s.una <==> ahead == 0
  {
    SeqGtExact(s.una, ahead, 0);
    SeqEqExact(s.una, ahead, 0);
  }

  /**
   * The ACK branch on an acknowledgement of stream position `ahead` past
   * snd_una, possibly behind it by up to half the sequence space: exactly the
   * new bytes are trimmed.
   */
  lemma AckMoves(s: Sender, ack: u32, win: u32, sample: Sample, budget: nat, ahead: int)
    requires Local(s) && s.open && -HALF <= ahead <= |s.buf| && ack == Wrap(s.una + ahead)
    ensures var (s', segs) := AckIn(s, ack, win, sample, budget);
            SenderMove(s, s', Max(ahead, 0), []) && AllCarry(segs, s')
  {
    hide Wrap;
    WrapSmall(s.una);
    AckCases(s, ack, ahead);
    if ahead > 0 {
      AdvanceMoves(s, ack, sample, ahead);
      ThenDrain(s, Advance(s, ack, sample), ahead, win, budget);
    } else if ahead == 0 {
      DuplicateMoves(s, budget);
    } else {
      assert s.buf[0..] + [] == s.buf;
    }
  }

  lemma TimeoutMoves(s: Sender, budget: nat)
    requires Local(s)
    ensures var (s', segs) := RtoExpired(s, budget); SenderMove(s, s', 0, []) && AllCarry(segs, s')
  {
    hide Wrap;
    WrapSmall(s.una);
    WrapSmall(0);
    assert s.buf[0..] + [] == s.buf;
    if s.open && (s.retries + 1) % 256 <= MAX_RETRANSMITS {
      DrainMoves(BackOff(s), budget);
    }
  }

  // ------------------------------------------------------------ preservation

  /** Gluing a sender operation into the system. */
  lemma MoveKeepsInv(y: System, s': Sender, segs: seq<Segment>, trimmed: nat, added: seq<byte>)
    requires Inv(y) && SenderMove(y.snd, s', trimmed, added) && AllCarry(segs, s')
    requires y.acked + trimmed <= |y.received|
    ensures Inv(Moved(y, s', segs).(queued := y.queued + added))
    ensures Moved(y, s', segs).acked == y.acked + trimmed
  {
    hide Wrap;
    var y' := Moved(y, s', segs).(queued := y.queued + added);
    WrapOffset(y.snd.una, trimmed);
    WrapSum(y.origin + y.acked, trimmed);
    assert y'.acked == y.acked + trimmed;
    hide Emitted, AllCarry, Spanned, Ok, DataInv;
    assert s'.buf == y'.queued[y'.acked..];
    assert SenderInv(y');
    assert ReceiverInv(y');
    assert AckInv(y') by { hide SenderMove, DataInv, SenderInv, ReceiverInv; }
    hide SenderMove, SenderInv, ReceiverInv, AckInv, DataInv;
    DataKept(y, y', s', segs);
  }

  lemma DataKept(y: System, y': System, s': Sender, segs: seq<Segment>)
    requires DataInv(y) && SenderInv(y') && y'.snd == s' && AllCarry(segs, s')
    requires y'.origin == y.origin && y.queued <= y'.queued
    requires y'.data == y.data + Emitted(segs, s'.una, y'.acked)
    ensures DataInv(y')
  {
    forall p <- y'.data ensures PacketOk(p, y'.origin, y'.queued) {
      if p in y.data {
        assert PacketOk(p, y.origin, y.queued);
      } else {
        var g :| g in segs && p == Packet(g.start, g.payload, y'.acked + Wrap(g.start - s'.una));
        EmittedOk(y', g);
      }
    }
  }

  lemma EmittedOk(y: System, g: Segment)
    requires SenderInv(y) && Carries(g, y.snd.una, y.snd.buf)
    ensures PacketOk(Packet(g.start, g.payload, y.acked + Wrap(g.start - y.snd.una)), y.origin, y.queued)
  {
    hide Wrap;
    var o := Wrap(g.start - y.snd.una);
    WrapBack(y.snd.una, g.start);
    WrapSum(y.origin + y.acked, o);
    assert g.start == Wrap(y.origin + y.acked + o);
    assert y.snd.buf[o..o + |g.payload|] == y.queued[y.acked + o..y.acked + o + |g.payload|];
  }

  lemma DeliveryKeepsInv(y: System, p: Packet)
    requires Inv(y) && p in y.data && |y.received| - p.off < MODULUS
    ensures Inv(Step(y, DeliverData(p)))
  {
    hide Wrap;
    assert PacketOk(p, y.origin, y.queued);
    if p.start == y.rcvNxt {
      SeqEqExact(y.origin, p.off, |y.received|);
      assert p.off == |y.received|;
      WrapSum(y.origin + |y.received|, |p.payload|);
      assert y.received + p.payload == y.queued[..p.off + |p.payload|];
    }
  }

  lemma SendKeepsInv(y: System, e: Event)
    requires Inv(y) && Enabled(y, e) && e.AppSend?
    ensures var y' := Step(y, e);
            Inv(y') && y.queued <= y'.queued && y'.received == y.received && y'.acked == y.acked
  {
    SendMoves(y.snd, e.bytes, e.allocates, e.sendBudget);
    var (s', segs, n) := Send(y.snd, e.bytes, e.allocates, e.sendBudget);
    var added := if n < 0 then [] else e.bytes[..n];
    MoveKeepsInv(y, s', segs, 0, added);
    assert y.queued + [] == y.queued;
  }

  lemma AckKeepsInv(y: System, e: Event)
    requires Inv(y) && Enabled(y, e) && e.DeliverAck?
    ensures var y' := Step(y, e);
            && Inv(y') && y'.queued == y.queued && y'.received == y.received
            && y'.acked == if y.snd.open then Max(y.acked, e.ackPacket.upTo) else y.acked
  {
    hide Wrap;
    WrapSmall(y.snd.una);
    var a := e.ackPacket;
    var (s', segs) := AckIn(y.snd, a.ack, a.win, e.sample, e.ackBudget);
    var ahead := a.upTo - y.acked;
    WrapSum(y.origin + y.acked, ahead);
    if y.snd.open {
      AckMoves(y.snd, a.ack, a.win, e.sample, e.ackBudget, ahead);
      MoveKeepsInv(y, s', segs, Max(ahead, 0), []);
    } else {
      assert y.snd.buf[0..] + [] == y.snd.buf;
      MoveKeepsInv(y, s', segs, 0, []);
    }
    assert y.queued + [] == y.queued;
  }

  lemma TimeoutKeepsInv(y: System, e: Event)
    requires Inv(y) && Enabled(y, e) && e.Timeout?
    ensures var y' := Step(y, e);
            Inv(y') && y'.queued == y.queued && y'.received == y.received && y'.acked == y.acked
  {
    TimeoutMoves(y.snd, e.rtoBudget);
    var (s', segs) := RtoExpired(y.snd, e.rtoBudget);
    MoveKeepsInv(y, s', segs, 0, []);
    assert y.queued + [] == y.queued;
  }

  /** Every step keeps the invariant and only extends the queued and received streams. */
  lemma StepKeepsInv(y: System, e: Event)
    requires Inv(y) && Enabled(y, e)
    ensures var y' := Step(y, e);
            && Inv(y') && y'.origin == y.origin
            && y.queued <= y'.queued && y.received <= y'.received && y.acked <= y'.acked
  {
    match e
    case AppSend(_, _, _) => SendKeepsInv(y, e);
    case DeliverData(p) => DeliveryKeepsInv(y, p);
    case LoseData(_) =>
    case EmitAck(_) =>
    case Piggyback(_) =>
    case DeliverAck(_, _, _) => AckKeepsInv(y, e);
    case LoseAck(_) =>
    case Timeout(_) => TimeoutKeepsInv(y, e);
  }

  // ------------------------------------------------------------- whole runs

  /** A run: an event that is not enabled does not happen. */
  ghost function Exec(y: System, es: seq<Event>): (y': System)
    requires Inv(y)
    ensures Inv(y')
    decreases |es|
  {
    if es == [] then y
    else if Enabled(y, es[0]) then StepKeepsInv(y, es[0]); Exec(Step(y, es[0]), es[1..])
    else Exec(y, es[1..])
  }

  /** Both ends after the handshake: nothing queued, nothing received, an empty network. */
  predicate Established(y: System) {
    && Ok(y.snd) && y.snd.open && !y.snd.hasBuf && y.snd.buf == [] && y.snd.cap == 0
    && y.snd.una == y.snd.nxt == y.rcvNxt == y.origin
    && y.queued == [] && y.acked == 0 && y.received == [] && !y.pending && y.data == {} && y.acks == {}
  }

  /**
   * What the handshake leaves, for every initial sequence number, window,
   * segment size and option set: an active open sets the congestion window to
   * the peer's window and disarms the timer, a passive one sets it to 65535
   * and leaves the timer of its SYN-ACK running.
   */
  lemma HandshakeEstablishes(origin: u32, window: u32, mss: u16, timestamps: bool, rtt: RttEstimator.Rtt, passive: bool)
    requires mss >= 1
    ensures var cc := NewReno.Window(if passive then 65535 else window, NewReno.MAX_U32, false);
            var snd := Sender(true, origin, origin, window, mss, timestamps, cc, 0, 0, rtt, passive, false, [], 0, 0);
            Established(System(origin, snd, [], 0, origin, [], false, {}, {}))
  {
  }

  lemma EstablishedInv(y: System)
    requires Established(y)
    ensures Inv(y)
  {
  }

  /**
   * Stream integrity over every run: the received bytes are a prefix of the
   * queued bytes; snd_una never passes the receiver's rcv_nxt; base_seq is
   * snd_una and the send buffer is exactly the unacknowledged slice; and every
   * data segment ever sent carries the stream bytes at its sequence number.
   */
  lemma StreamIntegrity(y: System, es: seq<Event>)
    requires Established(y)
    ensures Inv(y)
    ensures var z := Exec(y, es);
            && z.received <= z.queued
            && z.acked <= |z.received|
            && z.snd.una == Wrap(y.origin + z.acked) && z.rcvNxt == Wrap(y.origin + |z.received|)
            && z.snd.buf == z.queued[z.acked..]
            && (z.snd.hasBuf ==> z.snd.baseSeq == z.snd.una)
            && forall p <- z.data :: PacketOk(p, y.origin, z.queued)
  {
    EstablishedInv(y);
    ExecKeepsOrigin(y, es);
    hide Established, Exec, Wrap;
  }

  lemma {:induction false} ExecKeepsOrigin(y: System, es: seq<Event>)
    requires Inv(y)
    ensures Exec(y, es).origin == y.origin
    ensures y.queued <= Exec(y, es).queued && y.received <= Exec(y, es).received
    decreases |es|
  {
    if es != [] {
      if Enabled(y, es[0]) {
        StepKeepsInv(y, es[0]);
        ExecKeepsOrigin(Step(y, es[0]), es[1..]);
      } else {
        ExecKeepsOrigin(y, es[1..]);
      }
    }
  }

  // ------------------------------------------------------- timeout in a run

  predicate RtoInRange(s: Sender) { RttEstimator.MIN_RTO_US <= s.rtt.rto <= RttEstimator.MAX_RTO_US }

  lemma DrainKeepsRtt(s: Sender, budget: nat)
    ensures Drain(s, budget).0.rtt == s.rtt
  {
    DrainChangesNxt(s, budget);
  }

  lemma StepKeepsRto(y: System, e: Event)
    requires Inv(y) && Enabled(y, e) && RtoInRange(y.snd)
    ensures RtoInRange(Step(y, e).snd)
  {
    hide Wrap, Drain, SeqGt, NewReno.Step, RttEstimator.Update;
    match e
    case AppSend(bytes, allocates, budget) => SendKeepsRtt(y.snd, bytes, allocates, budget);
    case DeliverAck(a, sample, budget) =>
      DrainKeepsRtt(Advance(y.snd, a.ack, sample), budget);
      if sample.Sample? { RttEstimator.UpdateInRange(y.snd.rtt, sample.us); }
    case Timeout(budget) =>
      RttEstimator.BackoffInRange(y.snd.rtt);
      DrainKeepsRtt(BackOff(y.snd), budget);
    case _ =>
  }

  lemma SendKeepsRtt(s: Sender, data: seq<byte>, allocates: bool, budget: nat)
    requires |data| < MODULUS
    ensures Send(s, data, allocates, budget).0.rtt == s.rtt
  {
    hide Wrap, Drain;
    var s1 := if s.hasBuf then s
              else s.(hasBuf := true, buf := [], baseSeq := s.una, cap := FirstCapacity(|data|));
    DrainKeepsRtt(s1.(buf := s1.buf + data[..Accepted(s1, data)]), budget);
  }

  /** Over every run, samples and timeouts mixed, the timeout stays in [200 ms, 60 s]. */
  lemma {:induction false} RunKeepsRto(y: System, es: seq<Event>)
    requires Inv(y) && RtoInRange(y.snd)
    ensures RtoInRange(Exec(y, es).snd)
    decreases |es|
  {
    if es != [] {
      if Enabled(y, es[0]) {
        StepKeepsInv(y, es[0]);
        StepKeepsRto(y, es[0]);
        hide Inv, Step, Enabled, RtoInRange;
        RunKeepsRto(Step(y, es[0]), es[1..]);
      } else {
        RunKeepsRto(y, es[1..]);
      }
    }
  }

  // ------------------------------------- estimator and window in a transfer

  /** What an event means for the round-trip estimator: only news carry a sample, and a retransmission backs off. */
  function RttEvents(y: System, e: Event): seq<RttEstimator.Event> {
    match e
    case DeliverAck(a, sample, _) =>
      if y.snd.open && a.upTo > y.acked && y.snd.timestamps && sample.Sample? && sample.us < 60_000_000
      then [RttEstimator.Sampled(sample.us)] else []
    case Timeout(_) => if MayRetry(y.snd) then [RttEstimator.Expired] else []
    case _ => []
  }

  /** And for the congestion window: the newly acknowledged bytes, the third duplicate, the flight at a loss. */
  function WindowEvents(y: System, e: Event): seq<NewReno.Event> {
    match e
    case DeliverAck(a, _, _) =>
      if !y.snd.open then []
      else if 0 < a.upTo - y.acked < MODULUS then [NewReno.Ack(a.upTo - y.acked)]
      else if a.upTo == y.acked && (y.snd.dupAcks + 1) % 256 == 3 then [NewReno.ThirdDuplicate(InFlight(y.snd))]
      else []
    case Timeout(_) => if MayRetry(y.snd) then [NewReno.Timeout(InFlight(y.snd))] else []
    case _ => []
  }

  ghost function AllRttEvents(y: System, es: seq<Event>): seq<RttEstimator.Event>
    requires Inv(y)
    decreases |es|
  {
    if es == [] then []
    else if Enabled(y, es[0]) then
      StepKeepsInv(y, es[0]);
      RttEvents(y, es[0]) + AllRttEvents(Step(y, es[0]), es[1..])
    else AllRttEvents(y, es[1..])
  }

  ghost function AllWindowEvents(y: System, es: seq<Event>): seq<NewReno.Event>
    requires Inv(y)
    decreases |es|
  {
    if es == [] then []
    else if Enabled(y, es[0]) then
      StepKeepsInv(y, es[0]);
      WindowEvents(y, es[0]) + AllWindowEvents(Step(y, es[0]), es[1..])
    else AllWindowEvents(y, es[1..])
  }

  /** One event does to estimator and window exactly what it means. */
  lemma StepProjects(y: System, e: Event)
    requires Inv(y) && Enabled(y, e)
    ensures Ok(y.snd) && Step(y, e).snd.mss == y.snd.mss
    ensures Step(y, e).snd.rtt == RttEstimator.Run(y.snd.rtt, RttEvents(y, e))
    ensures Step(y, e).snd.cc == NewReno.Exec(y.snd.cc, y.snd.mss, WindowEvents(y, e))
  {
    hide Wrap, Drain, SeqGt, NewReno.Step, RttEstimator.Update, RttEstimator.Backoff, InFlight;
    match e
    case AppSend(bytes, allocates, budget) => SendKeepsBoth(y.snd, bytes, allocates, budget);
    case DeliverAck(a, sample, budget) => AckProjects(y, e);
    case Timeout(budget) =>
      if MayRetry(y.snd) {
        DrainChangesNxt(BackOff(y.snd), budget);
        assert WindowEvents(y, e)[1..] == [] && RttEvents(y, e)[1..] == [];
      }
    case _ =>
  }

  lemma AckProjects(y: System, e: Event)
    requires Inv(y) && Enabled(y, e) && e.DeliverAck?
    ensures Ok(y.snd) && Step(y, e).snd.mss == y.snd.mss
    ensures Step(y, e).snd.rtt == RttEstimator.Run(y.snd.rtt, RttEvents(y, e))
    ensures Step(y, e).snd.cc == NewReno.Exec(y.snd.cc, y.snd.mss, WindowEvents(y, e))
  {
    var s, a := y.snd, e.ackPacket;
    var ahead := a.upTo - y.acked;
    hide Wrap, SeqGt, InFlight, AckIn, Emitted, Inv, NewReno.Step;
    AckPosition(y, a);
    assert Step(y, e).snd == AckIn(s, a.ack, a.win, e.sample, e.ackBudget).0;
    hide Step;
    if !s.open {
      AckOfClosed(s, a.ack, a.win, e.sample, e.ackBudget);
    } else if ahead > 0 {
      AckDistance(y, a);
      AckOfNews(s, a.ack, a.win, e.sample, e.ackBudget, ahead);
      assert WindowEvents(y, e)[1..] == [];
      assert RttEvents(y, e) == [] || RttEvents(y, e)[1..] == [];
    } else {
      AckOfStale(s, a.ack, a.win, e.sample, e.ackBudget);
      assert WindowEvents(y, e) == [] || WindowEvents(y, e)[1..] == [];
    }
  }

  lemma AckDistance(y: System, a: AckPacket)
    requires Inv(y) && a in y.acks && a.upTo > y.acked
    ensures 0 < a.upTo - y.acked < HALF && Wrap(a.ack - y.snd.una) == a.upTo - y.acked
  {
    var ahead := a.upTo - y.acked;
    assert ahead < HALF && a.ack == Wrap(y.origin + a.upTo) && y.snd.una == Wrap(y.origin + y.acked);
    hide Wrap, Inv;
    WrapSum(y.origin + y.acked, ahead);
    WrapOffset(y.snd.una, ahead);
  }

  lemma AckOfClosed(s: Sender, ack: u32, win: u32, sample: Sample, budget: nat)
    requires Ok(s) && !s.open
    ensures AckIn(s, ack, win, sample, budget).0 == s
  {
  }

  /** Without news only a third duplicate concerns the window. */
  lemma AckOfStale(s: Sender, ack: u32, win: u32, sample: Sample, budget: nat)
    requires Ok(s) && s.open && !SeqGt(ack, s.una)
    ensures var s' := AckIn(s, ack, win, sample, budget).0;
            && s'.mss == s.mss && s'.rtt == s.rtt
            && s'.cc == if ack == s.una && (s.dupAcks + 1) % 256 == 3
                        then NewReno.Step(s.cc, s.mss, NewReno.ThirdDuplicate(InFlight(s))) else s.cc
  {
    hide Wrap, SeqGt, NewReno.Step;
  }

  /** News: the estimator takes the sample it brings, the window the bytes it acknowledges. */
  lemma AckOfNews(s: Sender, ack: u32, win: u32, sample: Sample, budget: nat, n: nat)
    requires Ok(s) && s.open && SeqGt(ack, s.una) && 0 < n < MODULUS && Wrap(ack - s.una) == n
    ensures var s' := AckIn(s, ack, win, sample, budget).0;
            && s'.mss == s.mss && s'.cc == NewReno.Step(s.cc, s.mss, NewReno.Ack(n))
            && s'.rtt == if s.timestamps && sample.Sample? && sample.us < 60_000_000 then RttEstimator.Update(s.rtt, sample.us) else s.rtt
  {
    DrainChangesNxt(Advance(s, ack, sample), budget);
    hide Drain, SeqGt, NewReno.Step, RttEstimator.Update;
  }

  lemma SendKeepsBoth(s: Sender, data: seq<byte>, allocates: bool, budget: nat)
    requires |data| < MODULUS
    ensures var s' := Send(s, data, allocates, budget).0; s'.rtt == s.rtt && s'.cc == s.cc && s'.mss == s.mss
  {
    hide Wrap, Drain;
    var s1 := if s.hasBuf then s
              else s.(hasBuf := true, buf := [], baseSeq := s.una, cap := FirstCapacity(|data|));
    DrainChangesNxt(s1.(buf := s1.buf + data[..Accepted(s1, data)]), budget);
  }

  lemma {:induction false} RttConcat(r: RttEstimator.Rtt, es: seq<RttEstimator.Event>, fs: seq<RttEstimator.Event>)
    ensures RttEstimator.Run(r, es + fs) == RttEstimator.Run(RttEstimator.Run(r, es), fs)
    decreases |es|
  {
    if es == [] {
      assert es + fs == fs;
    } else {
      assert (es + fs)[1..] == es[1..] + fs;
      hide RttEstimator.Step;
      RttConcat(RttEstimator.Step(r, es[0]), es[1..], fs);
    }
  }

  lemma {:induction false} WindowConcat(w: NewReno.Window, mss: u16, es: seq<NewReno.Event>, fs: seq<NewReno.Event>)
    requires NewReno.Sound(w, mss)
    ensures NewReno.Exec(w, mss, es + fs) == NewReno.Exec(NewReno.Exec(w, mss, es), mss, fs)
    decreases |es|
  {
    if es == [] {
      assert es + fs == fs;
    } else {
      assert (es + fs)[1..] == es[1..] + fs;
      hide NewReno.Step, NewReno.Sound;
      WindowConcat(NewReno.Step(w, mss, es[0]), mss, es[1..], fs);
    }
  }

  /**
   * Over every run the estimator has taken exactly the samples that came with
   * new acknowledgements and one backoff per retransmission, and the congestion
   * window has seen exactly the newly acknowledged bytes, third duplicates and timeouts.
   */
  lemma {:induction false} RunProjects(y: System, es: seq<Event>)
    requires Inv(y)
    ensures Ok(y.snd)
    ensures Exec(y, es).snd.rtt == RttEstimator.Run(y.snd.rtt, AllRttEvents(y, es))
    ensures Exec(y, es).snd.cc == NewReno.Exec(y.snd.cc, y.snd.mss, AllWindowEvents(y, es))
    decreases |es|
  {
    if es != [] {
      if Enabled(y, es[0]) {
        StepKeepsInv(y, es[0]);
        StepProjects(y, es[0]);
        hide Inv, Step, Enabled, RttEvents, WindowEvents;
        var z := Step(y, es[0]);
        RunProjects(z, es[1..]);
        RttConcat(y.snd.rtt, RttEvents(y, es[0]), AllRttEvents(z, es[1..]));
        WindowConcat(y.snd.cc, y.snd.mss, WindowEvents(y, es[0]), AllWindowEvents(z, es[1..]));
      } else {
        hide Inv, Enabled;
        RunProjects(y, es[1..]);
      }
    }
  }

  /** All samples the network can bring lie between lo and hi. */
  predicate SamplesIn(es: seq<Event>, lo: u32, hi: u32) {
    forall i :: 0 <= i < |es| && es[i].DeliverAck? && es[i].sample.Sample? ==> lo <= es[i].sample.us <= hi
  }

  lemma {:induction false} RttEventsIn(y: System, es: seq<Event>, lo: u32, hi: u32)
    requires Inv(y) && SamplesIn(es, lo, hi)
    ensures forall i :: 0 <= i < |AllRttEvents(y, es)| && AllRttEvents(y, es)[i].Sampled? ==> lo <= AllRttEvents(y, es)[i].us <= hi
    decreases |es|
  {
    if es != [] {
      if Enabled(y, es[0]) {
        StepKeepsInv(y, es[0]);
        hide Inv, Step, Enabled;
        RttEventsIn(Step(y, es[0]), es[1..], lo, hi);
      } else {
        hide Inv, Enabled;
        RttEventsIn(y, es[1..], lo, hi);
      }
    }
  }

  /** So in every transfer the smoothed round trip stays in the range of the samples, and the next sample is used as prescribed. */
  lemma TransferRttWithin(y: System, es: seq<Event>, lo: u32, hi: u32, next: u32)
    requires Inv(y) && RttEstimator.Within(y.snd.rtt, lo, hi) && lo <= next <= hi < 60_000_000 && SamplesIn(es, lo, hi)
    ensures var r := Exec(y, es).snd.rtt;
            var r' := RttEstimator.Update(r, next);
            RttEstimator.Within(r, lo, hi) && (r'.srtt, r'.rttvar, r'.rto) == RttEstimator.Ideal(r, next)
  {
    hide Inv, RttEstimator.Update, RttEstimator.Ideal;
    RunProjects(y, es);
    RttEventsIn(y, es, lo, hi);
    RttEstimator.RunStaysWithin(y.snd.rtt, AllRttEvents(y, es), lo, hi, next);
  }

  // ------------------------------------------------------- timer and counters

  /**
   * The retransmission timer and the counters, event by event, in terms of
   * stream positions: a send leaves the timer armed exactly when it was or
   * something is in flight; news leave it armed exactly when they do not cover the flight and clear both
   * counters; a duplicate only counts; a retransmitting timeout arms it again and counts, and the last one disarms and closes.
   */
  lemma TimerDiscipline(y: System, e: Event)
    requires Inv(y) && Enabled(y, e) && y.snd.open
    ensures var s, z := y.snd, Step(y, e).snd;
            && (e.AppSend? ==> (z.armed <==> s.armed || InFlight(z) > 0) && z.dupAcks == s.dupAcks && z.retries == s.retries)
            && (e.DeliverAck? && e.ackPacket.upTo > y.acked ==>
                  (z.armed <==> e.ackPacket.upTo < y.acked + InFlight(s)) && z.dupAcks == 0 && z.retries == 0)
            && (e.DeliverAck? && e.ackPacket.upTo <= y.acked ==>
                  z.armed == s.armed && z.retries == s.retries
                  && z.dupAcks == if e.ackPacket.upTo == y.acked then (s.dupAcks + 1) % 256 else s.dupAcks)
            && (e.Timeout? && s.retries < 15 ==> z.open && z.armed && z.retries == s.retries + 1 && z.dupAcks == 0)
            && (e.Timeout? && 15 <= s.retries < 255 ==> !z.open && !z.armed)
            && (!e.AppSend? && !e.DeliverAck? && !e.Timeout? ==> z == s)
  {
    hide Wrap, Drain, SeqGt, NewReno.Step, RttEstimator.Update, RttEstimator.Backoff;
    match e
    case AppSend(bytes, allocates, budget) => SendArms(y.snd, bytes, allocates, budget);
    case DeliverAck(a, sample, budget) => AckCounts(y, e);
    case Timeout(budget) => if MayRetry(y.snd) { DrainChangesNxt(BackOff(y.snd), budget); }
    case _ =>
  }

  lemma SendArms(s: Sender, data: seq<byte>, allocates: bool, budget: nat)
    requires s.open && |data| < MODULUS && InFlight(s) <= |s.buf| && (!s.hasBuf ==> s.buf == [])
    ensures var z := Send(s, data, allocates, budget).0;
            (z.armed <==> s.armed || InFlight(z) > 0) && z.dupAcks == s.dupAcks && z.retries == s.retries
  {
    var s1 := if s.hasBuf then s
              else s.(hasBuf := true, buf := [], baseSeq := s.una, cap := FirstCapacity(|data|));
    DrainChangesNxt(s1.(buf := s1.buf + data[..Accepted(s1, data)]), budget);
    var z := Send(s, data, allocates, budget).0;
    FlightOrNot(z);
    FlightOrNot(s);
    hide Wrap, Drain;
  }

  lemma FlightOrNot(s: Sender)
    ensures InFlight(s) > 0 <==> s.nxt != s.una
  {
    WrapBack(s.una, s.nxt);
    WrapSmall(s.una);
    WrapSmall(0);
  }

  lemma AckCounts(y: System, e: Event)
    requires Inv(y) && Enabled(y, e) && y.snd.open && e.DeliverAck?
    ensures var s, z := y.snd, Step(y, e).snd;
            var ahead := e.ackPacket.upTo - y.acked;
            && (ahead > 0 ==> (z.armed <==> ahead < InFlight(s)) && z.dupAcks == 0 && z.retries == 0)
            && (ahead <= 0 ==> z.armed == s.armed && z.retries == s.retries
                               && z.dupAcks == if ahead == 0 then (s.dupAcks + 1) % 256 else s.dupAcks)
  {
    var s, a := y.snd, e.ackPacket;
    var ahead := a.upTo - y.acked;
    hide Wrap, SeqGt, InFlight, AckIn, Emitted, Inv;
    AckPosition(y, a);
    assert Step(y, e).snd == AckIn(s, a.ack, a.win, e.sample, e.ackBudget).0;
    hide Step;
    if ahead > 0 {
      NewsCounts(s, a.ack, a.win, e.sample, e.ackBudget);
    } else {
      StaleCounts(s, a.ack, a.win, e.sample, e.ackBudget);
    }
  }

  /** How the numbers of an acknowledgement compare, in terms of positions. */
  lemma AckPosition(y: System, a: AckPacket)
    requires Inv(y) && a in y.acks && y.acked - a.upTo <= HALF
    ensures Ok(y.snd) && (SeqGt(a.ack, y.snd.una) <==> a.upTo > y.acked) && (a.ack == y.snd.una <==> a.upTo == y.acked)
    ensures a.upTo > y.acked ==> (!SeqGt(a.ack, y.snd.nxt) && a.ack != y.snd.nxt <==> a.upTo < y.acked + InFlight(y.snd))
  {
    var s, ahead := y.snd, a.upTo - y.acked;
    assert -HALF <= ahead < HALF && 0 <= InFlight(s) < HALF;
    assert a.ack == Wrap(y.origin + a.upTo) && s.una == Wrap(y.origin + y.acked);
    WrapBack(s.una, s.nxt);
    hide Wrap, SeqGt, InFlight, Inv;
    WrapSum(y.origin + y.acked, ahead);
    AckCases(s, a.ack, ahead);
    SeqGtExact(s.una, ahead, InFlight(s));
    SeqEqExact(s.una, ahead, InFlight(s));
  }

  lemma StaleCounts(s: Sender, ack: u32, win: u32, sample: Sample, budget: nat)
    requires Ok(s) && s.open && !SeqGt(ack, s.una)
    ensures var z := AckIn(s, ack, win, sample, budget).0;
            z.armed == s.armed && z.retries == s.retries && z.dupAcks == if ack == s.una then (s.dupAcks + 1) % 256 else s.dupAcks
  {
    hide Wrap, SeqGt, NewReno.Step;
  }

  lemma NewsCounts(s: Sender, ack: u32, win: u32, sample: Sample, budget: nat)
    requires Ok(s) && s.open && SeqGt(ack, s.una)
    ensures var z := AckIn(s, ack, win, sample, budget).0;
            (z.armed <==> !SeqGt(ack, s.nxt) && ack != s.nxt) && z.dupAcks == 0 && z.retries == 0
  {
    DrainChangesNxt(Advance(s, ack, sample), budget);
    hide Wrap, SeqGt, Drain, NewReno.Step, RttEstimator.Update;
  }

  // ---------------------------------------------------------- segment lifetime

  /**
   * Why delivery needs the lifetime bound. The receiver takes a data packet for
   * the next one in order exactly when it is next or a positive multiple of
   * 2^32 bytes stale; the sender takes an old acknowledgement for a new one
   * exactly when it is stale by more than half the sequence space, modulo the space.
   */
  lemma LifetimeExact(y: System, p: Packet, a: AckPacket)
    requires Inv(y) && p in y.data && a in y.acks && a.upTo <= y.acked
    ensures (p.start == y.rcvNxt ==> p.off == |y.received|)
            <==> (p.off < |y.received| ==> (|y.received| - p.off) % MODULUS != 0)
    ensures !SeqGt(a.ack, y.snd.una) <==> (y.acked - a.upTo) % MODULUS <= HALF
  {
    assert PacketOk(p, y.origin, y.queued);
    SeqEqExact(y.origin, p.off, |y.received|);
    SeqGtExact(y.origin, a.upTo, y.acked);
    Negate(|y.received| - p.off);
    Negate(y.acked - a.upTo);
    if p.off > |y.received| {
      assert p.off <= |y.queued| <= y.acked + |y.snd.buf|;
    }
  }

  lemma Negate(d: int)
    ensures Wrap(-d) == if d % MODULUS == 0 then 0 else MODULUS - d % MODULUS
  {
    var q := d / MODULUS;
    assert d == q * MODULUS + d % MODULUS;
    if d % MODULUS == 0 {
      WrapShift(0, -q);
    } else {
      WrapShift(MODULUS - d % MODULUS, -q - 1);
    }
  }

}
