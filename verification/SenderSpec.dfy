/**
 * Value-level specification of the sending half of an established connection
 * (tcp_fsm.c with tcp_snd_buf.h): queueing, window-limited draining, cumulative
 * acknowledgement, fast retransmit and go-back-N on timeout. `armed` says
 * whether a retransmission deadline is set.
 *
 * A transmit attempt may fail (no packet buffer): `budget` is the number of
 * attempts that succeed during one call.
 */
module SenderSpec {
  import opened Basics
  import opened SequenceNumbers
  import NewReno
  import RttEstimator
  import Powers

  const DEFAULT_CAPACITY: int := 65536
  const FIRST_SEND_HEADROOM: int := 4096
  const MAX_RETRANSMITS: int := 15

  datatype Segment = Segment(start: u32, payload: seq<byte>)

  datatype Sample = NoSample | Sample(us: u32)

  datatype Sender = Sender(
    open: bool,
    una: u32, nxt: u32, wnd: u32,
    mss: u16, timestamps: bool,
    cc: NewReno.Window, dupAcks: byte,
    retries: byte, rtt: RttEstimator.Rtt, armed: bool,
    hasBuf: bool, buf: seq<byte>, cap: u32, baseSeq: u32)

  /** What the handshake establishes and every operation needs: a usable MSS. */
  predicate Ok(s: Sender) { NewReno.Sound(s.cc, s.mss) }

  function EffectiveMss(s: Sender): (m: nat)
    ensures m >= 1
  {
    var opts := if s.timestamps then 12 else 0;
    if s.mss > opts then s.mss - opts else 1
  }

  function InFlight(s: Sender): u32 { Wrap(s.nxt - s.una) }

  function SendWindow(s: Sender): nat { Min(s.cc.cwnd, s.wnd) }

  // ---------------------------------------------------------------- draining

  function NextLength(s: Sender, offset: nat): nat
    requires offset < |s.buf|
  {
    var avail := if SendWindow(s) > InFlight(s) then SendWindow(s) - InFlight(s) else 0;
    Min(Min(|s.buf| - offset, avail), EffectiveMss(s))
  }

  function DrainFrom(s: Sender, offset: nat, budget: nat): (Sender, seq<Segment>)
    decreases |s.buf| - offset
  {
    if offset >= |s.buf| || NextLength(s, offset) == 0 || budget == 0 then (s, [])
    else
      var n := NextLength(s, offset);
      var (s', rest) := DrainFrom(s.(nxt := Wrap(s.nxt + n)), offset + n, budget - 1);
      (s', [Segment(s.nxt, s.buf[offset..offset + n])] + rest)
  }

  function Drain(s: Sender, budget: nat): (Sender, seq<Segment>) {
    if !s.hasBuf || s.buf == [] then (s, []) else DrainFrom(s, InFlight(s), budget)
  }

  // -------------------------------------------------------------- operations

  /** tcp_fsm_send; the result is the number of bytes queued, or -1 when the buffer cannot be allocated. */
  function Send(s: Sender, data: seq<byte>, allocates: bool, budget: nat): (Sender, seq<Segment>, int)
    requires |data| < MODULUS
  {
    if !s.open || (!s.hasBuf && !allocates) then (s, [], -1)
    else
      var s1 := if s.hasBuf then s
                else s.(hasBuf := true, buf := [], baseSeq := s.una,
                        cap := FirstCapacity(|data|));
      var n := Accepted(s1, data);
      var (s2, segs) := Drain(s1.(buf := s1.buf + data[..n]), budget);
      (Armed(s2), segs, Signed(n))
  }

  /** The capacity of a buffer made for a first send of n bytes, in 32-bit arithmetic. */
  function FirstCapacity(n: nat): u32 {
    if n > DEFAULT_CAPACITY then Wrap(n + FIRST_SEND_HEADROOM) else DEFAULT_CAPACITY
  }

  /** The timer runs once something is in flight. */
  function Armed(s: Sender): Sender { s.(armed := s.armed || s.nxt != s.una) }

  function Accepted(s: Sender, data: seq<byte>): (n: u32)
    requires |data| < MODULUS
    ensures n <= |data|
  {
    if s.cap <= |s.buf| then 0 else Min(|data|, s.cap - |s.buf|)
  }

  /** tcp_snd_buf_ack */
  function Trim(s: Sender, acked: u32): Sender {
    if !s.hasBuf then s
    else if acked >= |s.buf| then s.(baseSeq := Wrap(s.baseSeq + |s.buf|), buf := [])
    else s.(baseSeq := Wrap(s.baseSeq + acked), buf := s.buf[acked..])
  }

  function TakeSample(s: Sender, sample: Sample): Sender {
    if sample.Sample? && s.timestamps && sample.us < RttEstimator.SAMPLE_LIMIT_US
    then s.(rtt := RttEstimator.Update(s.rtt, sample.us)) else s
  }

  /**
   * The sequence variables and counters after an acknowledgement beyond snd_una.
   * With nothing left in flight the timer is disarmed, before the drain that follows.
   */
  function Acknowledge(s: Sender, ack: u32): (s': Sender)
    requires Ok(s)
    ensures Ok(s')
  {
    var nxt := if SeqGt(ack, s.nxt) then ack else s.nxt;
    s.(una := ack, nxt := nxt,
       dupAcks := 0, retries := 0, armed := ack != nxt,
       cc := NewReno.Step(s.cc, s.mss, NewReno.Ack(Wrap(ack - s.una))))
  }

  /** An acknowledgement beyond snd_una, before the drain that follows it. */
  function Advance(s: Sender, ack: u32, sample: Sample): (s': Sender)
    requires Ok(s)
    ensures Ok(s')
  {
    TakeSample(Trim(Acknowledge(s, ack), Wrap(ack - s.una)), sample)
  }

  /** A duplicate acknowledgement; the third one retransmits the oldest segment. */
  function Duplicate(s: Sender, budget: nat): (r: (Sender, seq<Segment>))
    requires Ok(s)
    ensures Ok(r.0)
  {
    var s1 := s.(dupAcks := (s.dupAcks + 1) % 256);
    if s1.dupAcks != 3 then (s1, [])
    else
      var s2 := s1.(cc := NewReno.Step(s1.cc, s1.mss, NewReno.ThirdDuplicate(InFlight(s1))));
      if !s2.hasBuf || s2.buf == [] || budget == 0 then (s2, [])
      else (s2, [Segment(s2.una, s2.buf[..Min(|s2.buf|, EffectiveMss(s2))])])
  }

  /** The ACK branch of tcp_fsm_input in ESTABLISHED; `win` is the scaled advertised window. */
  function AckIn(s: Sender, ack: u32, win: u32, sample: Sample, budget: nat): (Sender, seq<Segment>)
    requires Ok(s)
  {
    if !s.open then (s, [])
    else
      var (s1, segs) := AckBody(s, ack, sample, budget);
      (s1.(wnd := win), segs)
  }

  /** The ACK branch before its window update. */
  function AckBody(s: Sender, ack: u32, sample: Sample, budget: nat): (Sender, seq<Segment>)
    requires Ok(s)
  {
    if SeqGt(ack, s.una) then Drain(Advance(s, ack, sample), budget)
    else if ack == s.una then Duplicate(s, budget)
    else (s, [])
  }

  /** tcp_fsm_rto_expired in ESTABLISHED without its retransmission; the timer is armed again. */
  function BackOff(s: Sender): (s': Sender)
    requires Ok(s)
    ensures Ok(s')
  {
    var s1 := s.(retries := (s.retries + 1) % 256, rtt := RttEstimator.Backoff(s.rtt), dupAcks := 0, armed := true,
                 cc := NewReno.Step(s.cc, s.mss, NewReno.Timeout(InFlight(s))));
    if s1.hasBuf && s1.buf != [] then s1.(nxt := s1.una) else s1
  }

  function RtoExpired(s: Sender, budget: nat): (Sender, seq<Segment>)
    requires Ok(s)
  {
    if !s.open then (s, [])
    else if (s.retries + 1) % 256 > MAX_RETRANSMITS then (s.(open := false, armed := false, retries := (s.retries + 1) % 256), [])
    else Drain(BackOff(s), budget)
  }

  // -------------------------------------------------------------- properties

  /** The segments cover buf[from..] without gap, in order, each at its own sequence number. */
  predicate Tiled(segs: seq<Segment>, una: u32, buf: seq<byte>, from: nat, maxLen: nat, window: nat)
    decreases |segs|
  {
    segs == [] ||
    var n := |segs[0].payload|;
    && 1 <= n <= maxLen && from + n <= |buf| && from + n <= window
    && segs[0] == Segment(Wrap(una + from), buf[from..from + n])
    && Tiled(segs[1..], una, buf, from + n, maxLen, window)
  }

  function TotalLength(segs: seq<Segment>): nat
    decreases |segs|
  {
    if segs == [] then 0 else |segs[0].payload| + TotalLength(segs[1..])
  }

  lemma TiledCons(g: Segment, rest: seq<Segment>, una: u32, buf: seq<byte>, from: nat, n: nat, maxLen: nat, window: nat)
    requires 1 <= n <= maxLen && from + n <= |buf| && from + n <= window
    requires g == Segment(Wrap(una + from), buf[from..from + n])
    requires Tiled(rest, una, buf, from + n, maxLen, window)
    ensures Tiled([g] + rest, una, buf, from, maxLen, window)
    ensures TotalLength([g] + rest) == n + TotalLength(rest)
  {
    assert ([g] + rest)[1..] == rest;
  }

  /** The span of sequence numbers in use never exceeds the buffer, so 32-bit offsets are exact. */
  predicate Spanned(s: Sender) { InFlight(s) <= |s.buf| < HALF }

  /**
   * What draining from `offset` sends: consecutive slices of the buffer, each
   * at most one effective MSS and inside min(cwnd, snd_wnd); and it stops only when the
   * buffer is exhausted, the window is full or a transmit failed.
   */
  predicate Drained(s: Sender, offset: nat, budget: nat, s': Sender, segs: seq<Segment>) {
    var end := offset + TotalLength(segs);
    && Tiled(segs, s.una, s.buf, offset, EffectiveMss(s), SendWindow(s))
    && end <= |s.buf|
    && s' == s.(nxt := Wrap(s.una + end))
    && |segs| <= budget
    && (|segs| == budget || end == |s.buf| || end >= SendWindow(s))
  }

  lemma DrainedNothing(s: Sender, offset: nat, budget: nat)
    requires offset <= |s.buf| < HALF && s.nxt == Wrap(s.una + offset)
    requires offset == |s.buf| || NextLength(s, offset) == 0 || budget == 0
    ensures Drained(s, offset, budget, s, [])
  {
    hide Wrap;
    WrapOffset(s.una, offset);
  }

  lemma DrainedCons(s: Sender, offset: nat, budget: nat, n: nat, s1: Sender, s': Sender, rest: seq<Segment>)
    requires offset < |s.buf| < HALF && s.nxt == Wrap(s.una + offset) && budget > 0
    requires n == NextLength(s, offset) > 0
    requires s1 == s.(nxt := s1.nxt) && Drained(s1, offset + n, budget - 1, s', rest)
    ensures Drained(s, offset, budget, s', [Segment(s.nxt, s.buf[offset..offset + n])] + rest)
  {
    hide Wrap;
    WrapOffset(s.una, offset);
    TiledCons(Segment(s.nxt, s.buf[offset..offset + n]), rest, s.una, s.buf, offset, n,
              EffectiveMss(s), SendWindow(s));
  }

  lemma {:induction false} DrainFromStep(s: Sender, offset: nat, budget: nat, n: nat)
    requires offset < |s.buf| && n == NextLength(s, offset) > 0 && budget > 0
    ensures var r := DrainFrom(s.(nxt := Wrap(s.nxt + n)), offset + n, budget - 1);
            DrainFrom(s, offset, budget) == (r.0, [Segment(s.nxt, s.buf[offset..offset + n])] + r.1)
  {
  }

  lemma {:induction false} DrainFromSends(s: Sender, offset: nat, budget: nat)
    requires offset <= |s.buf| < HALF && s.nxt == Wrap(s.una + offset)
    ensures var r := DrainFrom(s, offset, budget); Drained(s, offset, budget, r.0, r.1)
    decreases |s.buf| - offset
  {
    hide Wrap;
    if offset >= |s.buf| || NextLength(s, offset) == 0 || budget == 0 {
      DrainedNothing(s, offset, budget);
    } else {
      var n := NextLength(s, offset);
      var s1 := s.(nxt := Wrap(s.nxt + n));
      WrapSum(s.una + offset, n);
      DrainFromSends(s1, offset + n, budget - 1);
      var r := DrainFrom(s1, offset + n, budget - 1);
      DrainedCons(s, offset, budget, n, s1, r.0, r.1);
      DrainFromStep(s, offset, budget, n);
    }
  }

  lemma DrainSends(s: Sender, budget: nat)
    requires Spanned(s)
    ensures var (s', segs) := Drain(s, budget);
            && Tiled(segs, s.una, s.buf, InFlight(s), EffectiveMss(s), SendWindow(s))
            && InFlight(s') == InFlight(s) + TotalLength(segs) <= |s.buf|
            && s' == s.(nxt := Wrap(s.una + InFlight(s')))
            && |segs| <= budget
            && (s.hasBuf ==> |segs| == budget || InFlight(s') == |s.buf| || InFlight(s') >= SendWindow(s))
  {
    hide Wrap;
    WrapBack(s.una, s.nxt);
    if s.hasBuf && s.buf != [] { DrainFromSends(s, InFlight(s), budget); }
    var (s', segs) := Drain(s, budget);
    WrapOffset(s.una, InFlight(s) + TotalLength(segs));
  }

  /** Every segment of a tiling carries the buffer bytes at its sequence number. */
  lemma {:induction false} TiledMember(segs: seq<Segment>, una: u32, buf: seq<byte>, from: nat,
                                       maxLen: nat, window: nat, g: Segment)
    requires Tiled(segs, una, buf, from, maxLen, window) && |buf| < HALF && g in segs
    ensures Carries(g, una, buf)
    decreases |segs|
  {
    if g == segs[0] {
      WrapOffset(una, from);
    } else {
      TiledMember(segs[1..], una, buf, from + |segs[0].payload|, maxLen, window, g);
    }
  }

  predicate Carries(g: Segment, una: u32, buf: seq<byte>) {
    var o := Wrap(g.start - una);
    |g.payload| >= 1 && o + |g.payload| <= |buf| && g.payload == buf[o..o + |g.payload|]
  }

  // ------------------------------------------------- which offsets are sent

  /** A whole number of steps of m. */
  predicate Grid(d: int, m: nat)
    requires m > 0
  {
    d % m == 0
  }

  lemma GridStep(d: int, m: nat)
    requires m > 0 && d >= m
    ensures Grid(d - m, m) <==> Grid(d, m)
  {
    var q, r := (d - m) / m, (d - m) % m;
    assert (q + 1) * m == q * m + m;
    QuotientUnique(d, m, q + 1, r);
  }

  lemma GridStart(d: nat, m: nat)
    requires m > 0
    ensures d == 0 ==> Grid(d, m)
    ensures Grid(d, m) && d > 0 ==> d >= m
  {
  }

  /** A segment shorter than the effective MSS is the last. */
  lemma ShortIsLast(s: Sender, offset: nat, n: nat, budget: nat)
    requires offset < |s.buf| < HALF && s.nxt == Wrap(s.una + offset) && n == NextLength(s, offset) > 0
    ensures n < EffectiveMss(s) ==> DrainFrom(s.(nxt := Wrap(s.nxt + n)), offset + n, budget).1 == []
  {
    hide Wrap;
    WrapOffset(s.una, offset);
    WrapSum(s.una + offset, n);
    WrapOffset(s.una, offset + n);
  }

  /** Segments start a whole number of effective MSS after the first unsent byte, inside window and buffer. */
  lemma {:induction false} DrainGrid(s: Sender, offset: nat, budget: nat, g: Segment)
    requires offset <= |s.buf| < HALF && s.nxt == Wrap(s.una + offset) && g in DrainFrom(s, offset, budget).1
    ensures var o := Wrap(g.start - s.una);
            offset <= o < Min(|s.buf|, SendWindow(s)) && Grid(o - offset, EffectiveMss(s))
    decreases |s.buf| - offset
  {
    hide Wrap, Grid, EffectiveMss;
    assert offset < |s.buf| && NextLength(s, offset) > 0 && budget > 0;
    var n, m := NextLength(s, offset), EffectiveMss(s);
    var s1 := s.(nxt := Wrap(s.nxt + n));
    DrainFromStep(s, offset, budget, n);
    WrapOffset(s.una, offset);
    ShortIsLast(s, offset, n, budget - 1);
    hide DrainFrom;
    GridStart(0, m);
    if g != Segment(s.nxt, s.buf[offset..offset + n]) {
      WrapSum(s.una + offset, n);
      assert EffectiveMss(s1) == m by { SameMss(s, s1); }
      DrainGrid(s1, offset + n, budget - 1, g);
      GridStep(Wrap(g.start - s.una) - offset, m);
    }
  }

  lemma SameMss(s: Sender, s1: Sender)
    requires s1.mss == s.mss && s1.timestamps == s.timestamps
    ensures EffectiveMss(s1) == EffectiveMss(s)
  {
  }

  /** With enough transmits every such offset is reached. */
  lemma {:induction false} DrainReaches(s: Sender, offset: nat, budget: nat, o: nat) returns (g: Segment)
    requires offset <= o < Min(|s.buf|, SendWindow(s)) && |s.buf| < HALF && s.nxt == Wrap(s.una + offset)
    requires Grid(o - offset, EffectiveMss(s)) && budget > o - offset
    ensures g in DrainFrom(s, offset, budget).1 && g.start == Wrap(s.una + o) && g.payload != []
    decreases o - offset
  {
    hide Wrap, Grid, EffectiveMss;
    WrapOffset(s.una, offset);
    var n, m := NextLength(s, offset), EffectiveMss(s);
    var s1 := s.(nxt := Wrap(s.nxt + n));
    DrainFromStep(s, offset, budget, n);
    hide DrainFrom;
    g := Segment(s.nxt, s.buf[offset..offset + n]);
    if o > offset {
      GridStart(o - offset, m);
      GridStep(o - offset, m);
      WrapSum(s.una + offset, n);
      SameMss(s, s1);
      g := DrainReaches(s1, offset + n, budget - 1, o);
    }
  }

  // ------------------------------------------------------- how full they are

  /** All segments but the last are of length m; a shorter last one ends at the end of the data or of the window. */
  predicate Filled(segs: seq<Segment>, m: nat, ends: bool) {
    forall k {:trigger segs[k]} :: 0 <= k < |segs| ==>
      |segs[k].payload| <= m && (|segs[k].payload| == m || (k == |segs| - 1 && ends))
  }

  /** Where a drain that sent something ends: all data sent, or the window full. */
  predicate EndsFull(s: Sender, end: nat) { end == |s.buf| || end == SendWindow(s) }

  predicate Fills(s: Sender, offset: nat, segs: seq<Segment>) {
    Filled(segs, EffectiveMss(s), EndsFull(s, offset + TotalLength(segs)))
  }

  lemma {:induction false} DrainFromFills(s: Sender, offset: nat, budget: nat)
    requires offset <= |s.buf| < HALF && s.nxt == Wrap(s.una + offset)
    ensures Fills(s, offset, DrainFrom(s, offset, budget).1)
    decreases |s.buf| - offset
  {
    hide Wrap, EffectiveMss, SendWindow, EndsFull;
    if offset < |s.buf| && NextLength(s, offset) > 0 && budget > 0 {
      var n := NextLength(s, offset);
      var s1 := s.(nxt := Wrap(s.nxt + n));
      WrapSum(s.una + offset, n);
      ShortEnds(s, offset, n);
      DrainFromStep(s, offset, budget, n);
      ShortIsLast(s, offset, n, budget - 1);
      hide DrainFrom, NextLength, Filled, Fills;
      DrainFromFills(s1, offset + n, budget - 1);
      FillsOn(s, s1, offset, n, DrainFrom(s1, offset + n, budget - 1).1);
    }
  }

  lemma FillsOn(s: Sender, s1: Sender, offset: nat, n: nat, rest: seq<Segment>)
    requires s1 == s.(nxt := s1.nxt) && offset + n <= |s.buf| && n <= EffectiveMss(s)
    requires Fills(s1, offset + n, rest) && (n < EffectiveMss(s) ==> rest == [] && EndsFull(s, offset + n))
    ensures Fills(s, offset, [Segment(s.nxt, s.buf[offset..offset + n])] + rest)
  {
    SameMss(s, s1);
    hide EffectiveMss, Filled, SendWindow;
    FilledCons(Segment(s.nxt, s.buf[offset..offset + n]), rest, EffectiveMss(s), EndsFull(s, offset + n + TotalLength(rest)));
  }

  lemma ShortEnds(s: Sender, offset: nat, n: nat)
    requires offset < |s.buf| < HALF && s.nxt == Wrap(s.una + offset) && n == NextLength(s, offset) > 0
    ensures n <= EffectiveMss(s) && (n < EffectiveMss(s) ==> EndsFull(s, offset + n))
  {
    WrapOffset(s.una, offset);
    hide Wrap, EffectiveMss;
  }

  lemma FilledCons(g: Segment, rest: seq<Segment>, m: nat, ends: bool)
    requires Filled(rest, m, ends) && |g.payload| <= m && (|g.payload| < m ==> rest == [] && ends)
    ensures Filled([g] + rest, m, ends) && TotalLength([g] + rest) == |g.payload| + TotalLength(rest)
  {
    assert ([g] + rest)[1..] == rest;
  }

  /** Option bytes of a data segment: the padded timestamps. */
  function OptionBytes(s: Sender): nat { if s.timestamps then 12 else 0 }

  /**
   * Draining fills segments and window: every segment with its options makes
   * up the MSS, except one that ends the data or the window (and one-byte
   * segments where the options leave no room); nothing goes beyond cwnd or snd_wnd, and unless transmits run
   * out it stops only at the end of the data or of one of them.
   */
  lemma DrainFills(s: Sender, budget: nat)
    requires Spanned(s) && s.hasBuf
    ensures var (s', segs) := Drain(s, budget);
            && (segs != [] ==> InFlight(s') <= s.cc.cwnd && InFlight(s') <= s.wnd)
            && (|segs| == budget || InFlight(s') == |s.buf| || InFlight(s') >= s.cc.cwnd || InFlight(s') >= s.wnd)
            && forall k {:trigger segs[k]} :: 0 <= k < |segs| ==>
                 var full := |segs[k].payload| + OptionBytes(s);
                 if s.mss <= OptionBytes(s) then |segs[k].payload| == 1
                 else full == s.mss || (full < s.mss && k == |segs| - 1
                                        && (InFlight(s') == |s.buf| || InFlight(s') == s.cc.cwnd || InFlight(s') == s.wnd))
  {
    var (s', segs) := Drain(s, budget);
    DrainSends(s, budget);
    WrapBack(s.una, s.nxt);
    if s.buf != [] { DrainFromFills(s, InFlight(s), budget); }
    if segs != [] { TiledTotal(segs, s.una, s.buf, InFlight(s), EffectiveMss(s), SendWindow(s)); }
    hide Wrap, Drain, InFlight;
    forall k | 0 <= k < |segs| ensures |segs[k].payload| >= 1 {
      TiledMember(segs, s.una, s.buf, InFlight(s), EffectiveMss(s), SendWindow(s), segs[k]);
    }
  }

  // ------------------------------------------------------ timeout retransmit

  /**
   * After a timeout at most one MSS is in flight. The comment at
   * tcp_fsm.c:1452-1454 promises exactly one segment: that holds exactly when a
   * transmit succeeds, something may be sent, and it fits one effective MSS (or
   * the second transmit fails).
   */
  lemma TimeoutSends(s: Sender, budget: nat)
    requires Ok(s) && s.open && s.retries < MAX_RETRANSMITS && s.hasBuf && 0 < |s.buf| < HALF
    ensures var (s', segs) := RtoExpired(s, budget);
            var room := Min(Min(|s.buf|, s.mss), s.wnd);
            && InFlight(s') == TotalLength(segs) <= room
            && (|segs| == 1 <==> budget >= 1 && room >= 1 && (room <= EffectiveMss(s) || budget == 1))
  {
    hide Wrap;
    var b := BackOff(s);
    WrapSmall(0);
    assert InFlight(b) == 0 && Spanned(b) && EffectiveMss(b) == EffectiveMss(s);
    var (s', segs) := RtoExpired(s, budget);
    DrainSends(b, budget);
    var room := SendWindow(b);
    if segs != [] {
      assert segs[0].payload == b.buf[..|segs[0].payload|];
      FirstLength(b, budget);
      if |segs| > 1 { assert segs[1] == segs[1..][0]; } else { assert segs[1..] == []; }
      TiledTotal(segs, b.una, b.buf, 0, EffectiveMss(b), room);
    }
  }

  /** What a timeout can put on the network: offsets on the grid of effective segments inside min(MSS, snd_wnd). */
  predicate TimeoutOffset(s: Sender, o: nat) {
    o < Min(|s.buf|, Min(s.mss, s.wnd)) && Grid(o, EffectiveMss(s))
  }

  /** The next timeout retransmits; otherwise it resets the connection. */
  predicate MayRetry(s: Sender) { s.open && (s.retries + 1) % 256 <= MAX_RETRANSMITS }

  /** A retransmitting timeout drains from snd_una with a window of one MSS. */
  lemma TimeoutDrains(s: Sender, budget: nat)
    requires Ok(s) && MayRetry(s) && s.hasBuf && s.buf != []
    ensures var b := BackOff(s);
            && RtoExpired(s, budget) == DrainFrom(b, 0, budget)
            && b.nxt == b.una == s.una == Wrap(s.una + 0) && b.buf == s.buf
            && SendWindow(b) == Min(s.mss, s.wnd) && EffectiveMss(b) == EffectiveMss(s)
  {
    WrapSmall(0);
    WrapSmall(s.una);
    hide Wrap, DrainFrom, RttEstimator.Backoff;
  }

  lemma NoTimeoutSegments(s: Sender, budget: nat)
    requires Ok(s) && (s.hasBuf || s.buf == [])
    ensures !MayRetry(s) || s.buf == [] ==> RtoExpired(s, budget).1 == []
  {
    hide Wrap, DrainFrom, RttEstimator.Backoff;
  }

  lemma TimeoutGrid(s: Sender, budget: nat, g: Segment)
    requires Ok(s) && |s.buf| < HALF && (s.hasBuf || s.buf == []) && g in RtoExpired(s, budget).1
    ensures TimeoutOffset(s, Wrap(g.start - s.una))
  {
    hide *;
    NoTimeoutSegments(s, budget);
    TimeoutDrains(s, budget);
    DrainGrid(BackOff(s), 0, budget, g);
    TimeoutOffsetIs(s, Wrap(g.start - s.una));
  }

  lemma TimeoutOffsetIs(s: Sender, o: nat)
    ensures TimeoutOffset(s, o) <==> o < Min(|s.buf|, Min(s.mss, s.wnd)) && Grid(o - 0, EffectiveMss(s))
  {
    hide Grid;
    assert o - 0 == o;
  }

  lemma TimeoutReaches(s: Sender, o: nat) returns (g: Segment)
    requires Ok(s) && MayRetry(s) && s.hasBuf && |s.buf| < HALF && TimeoutOffset(s, o)
    ensures g in RtoExpired(s, o + 1).1 && g.start == Wrap(s.una + o) && g.payload != []
  {
    assert s.buf != [];
    hide *;
    TimeoutOffsetIs(s, o);
    TimeoutDrains(s, o + 1);
    g := DrainReaches(BackOff(s), 0, o + 1, o);
  }

  lemma FirstLength(s: Sender, budget: nat)
    requires Spanned(s) && Drain(s, budget).1 != []
    ensures InFlight(s) < |s.buf| && |Drain(s, budget).1[0].payload| == NextLength(s, InFlight(s))
  {
  }

  lemma {:induction false} TiledTotal(segs: seq<Segment>, una: u32, buf: seq<byte>, from: nat, maxLen: nat, window: nat)
    requires Tiled(segs, una, buf, from, maxLen, window) && segs != []
    ensures from + TotalLength(segs) <= window && from + TotalLength(segs) <= |buf|
    ensures TotalLength(segs) >= |segs|
    decreases |segs|
  {
    if |segs| > 1 {
      TiledTotal(segs[1..], una, buf, from + |segs[0].payload|, maxLen, window);
    } else {
      assert segs[1..] == [];
    }
  }

  /** Draining changes snd_nxt and nothing else. */
  lemma {:induction false} DrainFromChangesNxt(s: Sender, offset: nat, budget: nat)
    ensures var s' := DrainFrom(s, offset, budget).0; s' == s.(nxt := s'.nxt)
    decreases |s.buf| - offset
  {
    if offset >= |s.buf| || NextLength(s, offset) == 0 || budget == 0 {
    } else {
      var n := NextLength(s, offset);
      DrainFromChangesNxt(s.(nxt := Wrap(s.nxt + n)), offset + n, budget - 1);
    }
  }

  lemma DrainChangesNxt(s: Sender, budget: nat)
    ensures var s' := Drain(s, budget).0; s' == s.(nxt := s'.nxt)
  {
    DrainFromChangesNxt(s, InFlight(s), budget);
  }

  /** One timeout without an answer. */
  lemma TimeoutBacksOff(s: Sender, budget: nat)
    requires Ok(s) && s.open && s.retries <= MAX_RETRANSMITS
    ensures var e := RtoExpired(s, budget).0;
            && Ok(e) && e.retries == s.retries + 1
            && (e.open <==> s.retries < MAX_RETRANSMITS)
            && (e.open ==> e.rtt == RttEstimator.Backoff(s.rtt))
  {
    hide Wrap;
    DrainChangesNxt(BackOff(s), budget);
  }

  /** The states after j consecutive timeouts with nothing acknowledged in between. */
  ghost predicate Unanswered(states: seq<Sender>) {
    && states != []
    && forall i :: 0 <= i < |states| - 1 ==>
         Ok(states[i]) && exists budget :: states[i + 1] == RtoExpired(states[i], budget).0
  }

  /**
   * j consecutive unanswered timeouts after a fresh acknowledgement: the timeout is 2^j times
   * the measured one, at most 60 s, and the connection is still open exactly up to the 15th.
   */
  lemma {:induction false} UnansweredTimeouts(states: seq<Sender>, j: nat)
    requires Unanswered(states) && j < |states| && j <= MAX_RETRANSMITS + 1
    requires var s := states[0];
             && Ok(s) && s.open && s.retries == 0
             && RttEstimator.MIN_RTO_US <= s.rtt.rto <= RttEstimator.MAX_RTO_US
    ensures Ok(states[j]) && states[j].retries == j
    ensures states[j].open <==> j <= MAX_RETRANSMITS
    ensures states[j].open ==>
              states[j].rtt == RttEstimator.BackoffTimes(states[0].rtt, j)
              && states[j].rtt.rto
                 == Min(Powers.Pow2(j) * states[0].rtt.rto, RttEstimator.MAX_RTO_US)
  {
    if j > 0 {
      UnansweredTimeouts(states, j - 1);
      var p := states[j - 1];
      assert states[j - 1 + 1] == states[j];
      var budget :| states[j] == RtoExpired(p, budget).0;
      TimeoutBacksOff(p, budget);
    }
    RttEstimator.BackoffIsExponential(states[0].rtt, j);
  }

  // ------------------------------------------------------ duplicate ACK runs

  /** The oldest unacknowledged segment. */
  function Oldest(s: Sender): Segment { Segment(s.una, s.buf[..Min(|s.buf|, EffectiveMss(s))]) }

  /** j duplicate acknowledgements in a row, and what they make the sender transmit. */
  function Duplicates(s: Sender, budget: nat, j: nat): (r: (Sender, seq<Segment>))
    requires Ok(s)
    ensures Ok(r.0)
  {
    if j == 0 then (s, [])
    else
      var (s1, segs) := Duplicates(s, budget, j - 1);
      var (s2, more) := Duplicate(s1, budget);
      (s2, segs + more)
  }

  /**
   * After new data is acknowledged, j duplicates retransmit the oldest segment
   * at the third one and, because the counter is eight bits wide, at every 256th
   * one after it; nothing else is sent and neither snd_nxt nor the buffer moves.
   */
  lemma {:induction false} DuplicatesRetransmit(s: Sender, budget: nat, j: nat)
    requires Ok(s) && s.dupAcks == 0 && s.hasBuf && s.buf != [] && budget >= 1
    ensures var (s', segs) := Duplicates(s, budget, j);
            && s' == s.(dupAcks := j % 256, cc := s'.cc)
            && segs == seq((j + 253) / 256, _ => Oldest(s))
  {
    if j > 0 {
      DuplicatesRetransmit(s, budget, j - 1);
      hide Wrap, NewReno.OnFastRetransmit;
      var (s1, segs) := Duplicates(s, budget, j - 1);
      DuplicateStep(s, s1, budget, j - 1);
      CountThirds(j);
      var before, after := (j + 252) / 256, (j + 253) / 256;
      assert after == before + 1 ==>
          seq(before, _ => Oldest(s)) + [Oldest(s)] == seq(after, _ => Oldest(s));
      assert seq(before, _ => Oldest(s)) + [] == seq(before, _ => Oldest(s));
    }
  }

  lemma DuplicateStep(s: Sender, s1: Sender, budget: nat, k: nat)
    requires Ok(s) && Ok(s1) && s.hasBuf && s.buf != [] && budget >= 1 && s1 == s.(dupAcks := k % 256, cc := s1.cc)
    ensures var (s2, more) := Duplicate(s1, budget);
            && s2 == s.(dupAcks := (k + 1) % 256, cc := s2.cc)
            && more == if (k + 1) % 256 == 3 then [Oldest(s)] else []
  {
    hide Wrap, NewReno.OnFastRetransmit;
    assert (k % 256 + 1) % 256 == (k + 1) % 256;
  }

  lemma CountThirds(j: nat)
    requires j > 0
    ensures (j + 253) / 256 == (j + 252) / 256 + if j % 256 == 3 then 1 else 0
  {
  }
}
