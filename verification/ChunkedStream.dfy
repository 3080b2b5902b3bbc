/**
 * The streaming server response (server.c): srv_stream_pump cuts a body of
 * 'A's into chunks and queues them on a connection whose send buffer is drained
 * by acknowledgements over the network of StreamTransfer.
 */
module ChunkedStream {
  import opened Basics
  import opened SequenceNumbers
  import opened SenderSpec
  import Connection
  import NewReno
  import RttEstimator
  import N = StreamTransfer
  import H = HttpChunks

  const CHUNK_SIZE: int := 4096
  const FRAME_SIZE: int := CHUNK_SIZE + 16
  const LETTER: byte := 65

  /** app_state values of a plain HTTP server connection. */
  const SERVING: int := 11
  const STREAMING: int := 12

  datatype Stream = Stream(appState: int, total: u32, sent: u32)

  // --------------------------------------------------------------------- pump

  /** What one call of the pump does. */
  datatype Action = Idle | Frame(n: nat) | Finish

  function Decide(t: Stream, s: Sender): (a: Action)
    ensures a.Frame? ==> 0 < a.n <= CHUNK_SIZE
  {
    if t.appState != STREAMING || t.total == 0 then Idle
    else if s.hasBuf && |s.buf| > CHUNK_SIZE * 4 then Idle
    else if Wrap(t.total - t.sent) == 0 then Finish
    else Frame(Min(Wrap(t.total - t.sent), CHUNK_SIZE))
  }

  function Letters(n: nat): (s: seq<byte>)
    ensures |s| == n && forall k :: 0 <= k < n ==> s[k] == 'A' as int
  {
    seq(n, _ => LETTER)
  }

  /** The bytes an action hands to tcp_fsm_send. */
  function Bytes(a: Action): (s: seq<byte>) {
    match a
    case Idle => []
    case Frame(n) => H.Chunk(Letters(n))
    case Finish => H.END
  }

  function After(t: Stream, a: Action): Stream {
    match a
    case Idle => t
    case Frame(n) => t.(sent := Wrap(t.sent + n))
    case Finish => Stream(SERVING, 0, 0)
  }

  /** A frame of at most 4096 bytes fits the builder's buffer and, below the high-water mark, the send buffer. */
  lemma FrameSize(a: Action)
    requires a.Frame? ==> a.n <= CHUNK_SIZE
    ensures |Bytes(a)| <= CHUNK_SIZE + 8 < FRAME_SIZE
  {
    if a.Frame? { H.HexLength(a.n); }
    hide H.HexDigits;
  }

  /** The server side of one connection. */
  class Streamer {
    const conn: Connection.Connection
    var appState: int
    var total: u32
    var sent: u32

    constructor (c: Connection.Connection)
      ensures conn == c && View() == Stream(SERVING, 0, 0)
    {
      conn, appState, total, sent := c, SERVING, 0, 0;
    }

    function View(): Stream
      reads this
    {
      Stream(appState, total, sent)
    }

    /** The streaming branch of srv_on_data, up to its first pump. */
    method Start(header: seq<byte>, bodySize: u32, allocates: bool, budget: nat) returns (queued: int)
      requires conn.Valid() && this !in conn.Repr() && |header| < HALF - FIRST_SEND_HEADROOM
      modifies this, conn.Repr()
      ensures conn.Valid() && View() == Stream(STREAMING, bodySize, 0)
      ensures var (s, segs, n) := old(Send(conn.View(), header, allocates, budget));
              conn.View() == s && conn.wire == old(conn.wire) + segs && queued == n
    {
      queued := conn.Send(header, allocates, budget);
      appState, total, sent := STREAMING, bodySize, 0;
    }

    /** srv_stream_pump */
    method Pump(allocates: bool, budget: nat)
      requires conn.Valid() && this !in conn.Repr()
      modifies this, conn.Repr()
      ensures conn.Valid()
      ensures var a := old(Decide(View(), conn.View()));
              && View() == After(old(View()), a)
              && |Bytes(a)| < FRAME_SIZE
              && var (s, segs, _) := old(Send(conn.View(), Bytes(a), allocates, budget));
                 if a.Idle? then conn.View() == old(conn.View()) && conn.wire == old(conn.wire)
                 else conn.View() == s && conn.wire == old(conn.wire) + segs
    {
      ghost var a := Decide(View(), conn.View());
      FrameSize(a);
      hide Send, H.HexDigits, Wrap, Bytes;
      if appState != STREAMING || total == 0 { return; }
      if conn.sndBuf != null && conn.sndBuf.len > CHUNK_SIZE * 4 { return; }
      var remaining := Wrap(total - sent);
      if remaining == 0 {
        EmitEnd(allocates, budget);
        appState, total, sent := SERVING, 0, 0;
      } else {
        var body := Min(remaining, CHUNK_SIZE);
        EmitFrame(body, allocates, budget);
        sent := Wrap(sent + body);
      }
    }

    method EmitEnd(allocates: bool, budget: nat)
      requires conn.Valid() && this !in conn.Repr()
      modifies conn.Repr()
      ensures conn.Valid()
      ensures |Bytes(Finish)| < HALF - FIRST_SEND_HEADROOM
      ensures var (s, segs, _) := old(Send(conn.View(), Bytes(Finish), allocates, budget));
              conn.View() == s && conn.wire == old(conn.wire) + segs
    {
      hide Send;
      var buf := new byte[8](_ => 0);
      var n := H.BuildEnd(buf, buf.Length);
      assert buf[..n] == Bytes(Finish);
      var queued := conn.Send(buf[..n], allocates, budget);
    }

    method EmitFrame(body: nat, allocates: bool, budget: nat)
      requires conn.Valid() && this !in conn.Repr() && 0 < body <= CHUNK_SIZE
      modifies conn.Repr()
      ensures conn.Valid()
      ensures |Bytes(Frame(body))| < HALF - FIRST_SEND_HEADROOM
      ensures var (s, segs, _) := old(Send(conn.View(), Bytes(Frame(body)), allocates, budget));
              conn.View() == s && conn.wire == old(conn.wire) + segs
    {
      FrameSize(Frame(body));
      hide Send, H.HexDigits;
      var frame := new byte[FRAME_SIZE](_ => 0);
      var n := H.BuildChunk(frame, frame.Length, Letters(body));
      assert frame[..n] == Bytes(Frame(body));
      var queued := conn.Send(frame[..n], allocates, budget);
    }
  }

  // -------------------------------------------------------------- body layout

  /** The chunks of the first n body bytes: all of full size but the last. */
  function Pieces(n: nat): (list: seq<seq<byte>>)
    ensures forall i :: 0 <= i < |list| ==> 0 < |list[i]| <= CHUNK_SIZE
    ensures |list| == (n + CHUNK_SIZE - 1) / CHUNK_SIZE
  {
    if n == 0 then []
    else if n % CHUNK_SIZE == 0 then Pieces(n - CHUNK_SIZE) + [Letters(CHUNK_SIZE)]
    else Pieces(n - n % CHUNK_SIZE) + [Letters(n % CHUNK_SIZE)]
  }

  lemma LastPiece(n: nat) returns (k: nat)
    requires n > 0
    ensures 0 < k <= CHUNK_SIZE && k <= n && (n - k) % CHUNK_SIZE == 0
    ensures Pieces(n) == Pieces(n - k) + [Letters(k)]
  {
    k := if n % CHUNK_SIZE == 0 then CHUNK_SIZE else n % CHUNK_SIZE;
  }

  lemma {:induction false} PiecesJoin(n: nat)
    ensures H.Joined(Pieces(n)) == Letters(n)
  {
    if n > 0 {
      var k := LastPiece(n);
      PiecesJoin(n - k);
      assert Pieces(n)[..|Pieces(n)| - 1] == Pieces(n - k);
      hide Pieces;
      assert Letters(n) == Letters(n - k) + Letters(k);
    }
  }

  lemma {:induction false} ChunksAppend(list: seq<seq<byte>>, data: seq<byte>)
    ensures H.Chunks(list + [data]) == H.Chunks(list) + H.Chunk(data)
    decreases |list|
  {
    hide H.Chunk;
    if list == [] {
      assert ([] + [data])[1..] == [] && list + [data] == [data];
    } else {
      assert (list + [data])[1..] == list[1..] + [data];
      ChunksAppend(list[1..], data);
      Assoc(H.Chunk(list[0]), H.Chunks(list[1..]), H.Chunk(data));
    }
  }

  /** One more chunk of n bytes after `sent`, a whole number of full chunks. */
  lemma NextPiece(sent: nat, n: nat)
    requires sent % CHUNK_SIZE == 0 && 0 < n <= CHUNK_SIZE
    ensures Pieces(sent + n) == Pieces(sent) + [Letters(n)]
    ensures H.Chunks(Pieces(sent + n)) == H.Chunks(Pieces(sent)) + H.Chunk(Letters(n))
  {
    if n == CHUNK_SIZE {
      assert (sent + n) % CHUNK_SIZE == 0;
    } else {
      assert (sent + n) % CHUNK_SIZE == n;
    }
    ChunksAppend(Pieces(sent), Letters(n));
  }

  // ------------------------------------------------------------------- system

  /**
   * A streaming server over the network, with the number of pumps that queued
   * something, and whether its record is on the timer wheel. A passively opened
   * connection has no other deadlines than its retransmission timer and, while streaming, the pump.
   */
  datatype Server = Server(net: N.System, stream: Stream, pumps: nat, scheduled: bool)

  datatype Event =
    | Visit(expired: bool, rtoBudget: nat, allocates: bool, budget: nat)    // by the timer wheel
    | AckArrives(a: N.AckPacket, sample: Sample, ackBudget: nat, pumpBudget: nat)
    | Net(e: N.Event)

  /**
   * The wheel visits only records on it, and finds the retransmission timer
   * expired only when it is armed. The pump is the only sender while streaming.
   */
  predicate Enabled(v: Server, e: Event) {
    match e
    case Visit(expired, _, _, _) => v.scheduled && v.net.snd.open && (expired ==> v.net.snd.armed)
    case AckArrives(a, sample, budget, _) => N.Enabled(v.net, N.DeliverAck(a, sample, budget))
    case Net(e) => N.Enabled(v.net, e) && !e.AppSend? && !e.DeliverAck? && !e.Timeout?
  }

  predicate Streaming(v: Server) { v.stream.appState == STREAMING }

  /** srv_stream_pump on the server's connection; a send that arms the timer schedules the record. */
  function Pumped(v: Server, allocates: bool, budget: nat): Server
    requires Ok(v.net.snd)
  {
    var a := Decide(v.stream, v.net.snd);
    FrameSize(a);
    if a.Idle? then v
    else
      var net := N.Step(v.net, N.AppSend(Bytes(a), allocates, budget));
      Server(net, After(v.stream, a), v.pumps + 1, v.scheduled || net.snd.armed)
  }

  function WithWindow(y: N.System, wnd: u32): (y': N.System)
    ensures Ok(y'.snd) <==> Ok(y.snd)
  {
    y.(snd := y.snd.(wnd := wnd))
  }

  /** The ACK handler up to its pump: news disarm or restart the timer and reschedule the record. */
  function Acked(v: Server, a: N.AckPacket, sample: Sample, budget: nat): (v': Server)
    requires Ok(v.net.snd) && N.Enabled(v.net, N.DeliverAck(a, sample, budget))
    ensures Ok(v'.net.snd)
  {
    StaysOk(v.net.snd, a.ack, a.win, sample, budget);
    var net := WithWindow(N.Step(v.net, N.DeliverAck(a, sample, budget)), v.net.snd.wnd);
    v.(net := net, scheduled := if SeqGt(a.ack, v.net.snd.una) then net.snd.armed || Streaming(v) else v.scheduled)
  }

  /** The retransmission part of a visit. */
  function Expired(v: Server, expired: bool, budget: nat): (v': Server)
    requires Ok(v.net.snd) && (expired ==> v.net.snd.armed)
    ensures Ok(v'.net.snd)
  {
    TimeoutStaysOk(v.net.snd, budget);
    if expired then v.(net := N.Step(v.net, N.Timeout(budget))) else v
  }

  lemma TimeoutStaysOk(s: Sender, budget: nat)
    requires Ok(s)
    ensures Ok(RtoExpired(s, budget).0)
  {
    hide Wrap, Drain, NewReno.Step;
    DrainChangesNxt(BackOff(s), budget);
  }

  /** What tcp_timer_resched leaves: on the wheel with the timer armed or the stream to be pumped. */
  function Rescheduled(v: Server): Server { v.(scheduled := v.net.snd.armed || (v.net.snd.open && Streaming(v))) }

  lemma StaysOk(s: Sender, ack: u32, win: u32, sample: Sample, budget: nat)
    requires Ok(s)
    ensures Ok(AckIn(s, ack, win, sample, budget).0)
  {
    hide Wrap, SeqGt, Drain, NewReno.Step;
    DrainChangesNxt(Advance(s, ack, sample), budget);
  }

  /**
   * Inside the ACK handler the pump runs after the drain and before the window
   * update. A visit fires the retransmission timer, pumps and reschedules.
   */
  function Step(v: Server, e: Event): Server
    requires Ok(v.net.snd) && Enabled(v, e)
  {
    match e
    case Net(e) => v.(net := N.Step(v.net, e))
    case Visit(expired, rtoBudget, allocates, budget) =>
      var v1 := Expired(v, expired, rtoBudget);
      Rescheduled(if v1.net.snd.open then Pumped(v1, allocates, budget) else v1)
    case AckArrives(a, sample, budget, pumpBudget) =>
      if !v.net.snd.open then v
      else
        var v1 := Acked(v, a, sample, budget);
        var v2 := if SeqGt(a.ack, v.net.snd.una) then Pumped(v1, true, pumpBudget) else v1;
        v2.(net := WithWindow(v2.net, a.win))
  }

  /** What has been queued behind `before` for a body of `size` bytes. */
  predicate Layout(v: Server, before: seq<byte>, size: nat) {
    if v.stream.appState == STREAMING then
      && v.stream.total == size && v.stream.sent <= size
      && (v.stream.sent % CHUNK_SIZE == 0 || v.stream.sent == size)
      && v.net.queued == before + H.Chunks(Pieces(v.stream.sent)) && v.pumps == |Pieces(v.stream.sent)|
    else
      v.net.queued == before + H.Chunks(Pieces(size)) + H.END && v.pumps == |Pieces(size)| + 1
  }

  /** The send buffer exists and is of at least the default capacity. */
  predicate Roomy(s: Sender) { s.hasBuf && s.cap >= DEFAULT_CAPACITY }

  /** An armed timer is on the wheel; a stream that is not has unacknowledged bytes, its headers at least. */
  predicate WheelKnows(v: Server) {
    && (v.net.snd.armed ==> v.scheduled)
    && (Streaming(v) && v.net.snd.open && !v.scheduled ==> v.net.snd.buf != [])
  }

  ghost predicate Inv(v: Server, before: seq<byte>, size: nat) {
    N.Inv(v.net) && Roomy(v.net.snd) && Layout(v, before, size) && WheelKnows(v)
  }

  /** Below the high-water mark the send buffer takes the whole frame. */
  lemma SendTakesAll(s: Sender, data: seq<byte>, allocates: bool, budget: nat)
    requires s.open && Roomy(s) && |s.buf| <= CHUNK_SIZE * 4 && |data| < FRAME_SIZE
    ensures var (s', _, n) := Send(s, data, allocates, budget);
            && n == |data| && Roomy(s')
            && s' == s.(buf := s.buf + data, nxt := s'.nxt, armed := s.armed || s'.nxt != s.una)
  {
    var n := Accepted(s, data);
    assert n == |data| && data[..n] == data;
    DrainChangesNxt(s.(buf := s.buf + data[..n]), budget);
    hide Drain;
  }

  /** Nothing but the first send touches the buffer's existence and capacity. */
  lemma NetKeepsRoomy(y: N.System, e: N.Event)
    requires Ok(y.snd) && N.Enabled(y, e) && !e.AppSend? && Roomy(y.snd)
    ensures Roomy(N.Step(y, e).snd)
  {
    hide Wrap, Drain, SeqGt, NewReno.OnAck, NewReno.OnTimeout, NewReno.OnFastRetransmit, RttEstimator.Backoff, RttEstimator.Update;
    match e
    case DeliverAck(a, sample, budget) => DrainChangesNxt(Advance(y.snd, a.ack, sample), budget);
    case Timeout(budget) => DrainChangesNxt(BackOff(y.snd), budget);
    case _ =>
  }

  lemma NetKeepsInv(v: Server, e: N.Event, before: seq<byte>, size: nat)
    requires Inv(v, before, size) && Enabled(v, Net(e))
    ensures Inv(Step(v, Net(e)), before, size)
  {
    N.StepKeepsInv(v.net, e);
    NetKeepsQueued(v.net, e);
    assert N.Step(v.net, e).snd == v.net.snd;
    hide N.Inv, N.Step, Roomy, Pieces, H.Chunks;
  }

  lemma ExpiredKeepsInv(v: Server, expired: bool, budget: nat, before: seq<byte>, size: nat)
    requires Inv(v, before, size) && v.net.snd.open && v.scheduled && (expired ==> v.net.snd.armed)
    ensures var z := Expired(v, expired, budget);
            Inv(z, before, size) && z.scheduled && z.stream == v.stream && z.pumps == v.pumps
  {
    if expired {
      var e := N.Timeout(budget);
      N.StepKeepsInv(v.net, e);
      NetKeepsRoomy(v.net, e);
      NetKeepsQueued(v.net, e);
      hide N.Inv, N.Step, Roomy, Pieces, H.Chunks;
    }
  }

  lemma RescheduledKeepsInv(v: Server, before: seq<byte>, size: nat)
    requires Inv(v, before, size)
    ensures Inv(Rescheduled(v), before, size)
  {
    hide N.Inv, Roomy, Pieces, H.Chunks;
  }

  lemma VisitKeepsInv(v: Server, e: Event, before: seq<byte>, size: nat)
    requires Inv(v, before, size) && Enabled(v, e) && e.Visit?
    ensures Inv(Step(v, e), before, size)
  {
    ExpiredKeepsInv(v, e.expired, e.rtoBudget, before, size);
    hide Inv, Expired, Pumped, Rescheduled;
    var v1 := Expired(v, e.expired, e.rtoBudget);
    if v1.net.snd.open { PumpKeepsInv(v1, e.allocates, e.budget, before, size); }
    RescheduledKeepsInv(if v1.net.snd.open then Pumped(v1, e.allocates, e.budget) else v1, before, size);
  }

  lemma NetKeepsQueued(y: N.System, e: N.Event)
    requires Ok(y.snd) && N.Enabled(y, e) && !e.AppSend?
    ensures N.Step(y, e).queued == y.queued
  {
    hide AckIn, RtoExpired;
  }

  lemma QueueAll(y: N.System, data: seq<byte>, allocates: bool, budget: nat)
    requires N.Inv(y) && y.snd.open && Roomy(y.snd) && |y.snd.buf| <= CHUNK_SIZE * 4 && |data| < FRAME_SIZE
    ensures var y' := N.Step(y, N.AppSend(data, allocates, budget));
            && N.Inv(y') && Roomy(y'.snd) && y'.queued == y.queued + data
            && y'.snd == y.snd.(buf := y.snd.buf + data, nxt := y'.snd.nxt, armed := y.snd.armed || y'.snd.nxt != y.snd.una)
            && y' == y.(snd := y'.snd, queued := y'.queued, data := y'.data) && y.data <= y'.data
  {
    N.SendKeepsInv(y, N.AppSend(data, allocates, budget));
    SendTakesAll(y.snd, data, allocates, budget);
    hide Send, N.Inv, Roomy;
    assert data[..|data|] == data;
  }

  /** What a pump leaves alone. */
  ghost predicate PumpFrame(v: Server, v': Server) {
    var s, s' := v.net.snd, v'.net.snd;
    && s' == s.(buf := s'.buf, nxt := s'.nxt, armed := s.armed || (s'.buf != s.buf && s'.nxt != s.una))
    && v'.net == v.net.(snd := s', queued := v'.net.queued, data := v'.net.data) && v.net.data <= v'.net.data
  }

  /** An effective pump queues its whole frame, whatever the network has done. */
  lemma PumpKeepsInv(v: Server, allocates: bool, budget: nat, before: seq<byte>, size: nat)
    requires Inv(v, before, size) && v.net.snd.open
    ensures var v' := Pumped(v, allocates, budget);
            && Inv(v', before, size) && PumpFrame(v, v') && v'.scheduled == (v.scheduled || v'.net.snd.armed)
            && v'.net.queued == v.net.queued + Bytes(Decide(v.stream, v.net.snd))
  {
    var a := Decide(v.stream, v.net.snd);
    if a.Idle? {
      assert v.net.queued + [] == v.net.queued;
    } else {
      FrameSize(a);
      BytesNonempty(a);
      QueueAll(v.net, Bytes(a), allocates, budget);
      var v' := Pumped(v, allocates, budget);
      assert v'.scheduled == (v.scheduled || v'.net.snd.armed);
      hide N.Inv, N.Step, Roomy, Bytes, Pumped, H.Chunks, Pieces;
      PumpLayout(v, v', a, before, size);
      assert v'.net.snd.buf != v.net.snd.buf && v'.net.snd.buf != [];
    }
  }

  lemma BytesNonempty(a: Action)
    ensures a.Idle? || Bytes(a) != []
  {
  }

  lemma PumpLayout(v: Server, v': Server, a: Action, before: seq<byte>, size: nat)
    requires Layout(v, before, size) && a == Decide(v.stream, v.net.snd) && !a.Idle?
    requires v'.net.queued == v.net.queued + Bytes(a) && v'.stream == After(v.stream, a) && v'.pumps == v.pumps + 1
    ensures Layout(v', before, size)
  {
    hide H.Chunk, H.Chunks, Pieces;
    WrapSmall(size - v.stream.sent);
    if a.Frame? {
      NextPiece(v.stream.sent, a.n);
      WrapSmall(v.stream.sent + a.n);
      Assoc(before, H.Chunks(Pieces(v.stream.sent)), Bytes(a));
      assert a.n < CHUNK_SIZE ==> v'.stream.sent == size;
      assert a.n == CHUNK_SIZE ==> v'.stream.sent % CHUNK_SIZE == 0;
    }
  }

  lemma WindowFree(y: N.System, wnd: u32)
    requires N.Inv(y)
    ensures N.Inv(WithWindow(y, wnd))
  {
    hide Wrap;
    var y' := WithWindow(y, wnd);
    assert InFlight(y'.snd) == InFlight(y.snd);
    assert N.SenderInv(y') && N.ReceiverInv(y') && N.DataInv(y') && N.AckInv(y');
  }

  lemma AckedKeepsInv(v: Server, a: N.AckPacket, sample: Sample, budget: nat, before: seq<byte>, size: nat)
    requires Inv(v, before, size) && v.net.snd.open && N.Enabled(v.net, N.DeliverAck(a, sample, budget))
    ensures Inv(Acked(v, a, sample, budget), before, size) && Acked(v, a, sample, budget).net.snd.open
  {
    var e := N.DeliverAck(a, sample, budget);
    N.StepKeepsInv(v.net, e);
    NetKeepsRoomy(v.net, e);
    NetKeepsQueued(v.net, e);
    AckStaysOpen(v.net.snd, a.ack, a.win, sample, budget);
    if !SeqGt(a.ack, v.net.snd.una) { AckKeepsBuffer(v.net.snd, a.ack, a.win, sample, budget); }
    WindowFree(N.Step(v.net, e), v.net.snd.wnd);
    hide N.Inv, Pieces, AckIn, H.Chunks, SeqGt;
  }

  /** Without news neither timer nor buffer change. */
  lemma AckKeepsBuffer(s: Sender, ack: u32, win: u32, sample: Sample, budget: nat)
    requires Ok(s) && s.open && !SeqGt(ack, s.una)
    ensures var s' := AckIn(s, ack, win, sample, budget).0; s'.armed == s.armed && s'.buf == s.buf
  {
    hide Wrap, SeqGt, NewReno.Step;
  }

  lemma AckStaysOpen(s: Sender, ack: u32, win: u32, sample: Sample, budget: nat)
    requires Ok(s) && s.open
    ensures AckIn(s, ack, win, sample, budget).0.open
  {
    hide Wrap, SeqGt, Drain, NewReno.Step;
    DrainChangesNxt(Advance(s, ack, sample), budget);
  }

  lemma AckKeepsInv(v: Server, e: Event, before: seq<byte>, size: nat)
    requires Inv(v, before, size) && Enabled(v, e) && e.AckArrives?
    ensures Inv(Step(v, e), before, size)
  {
    if v.net.snd.open {
      AckedKeepsInv(v, e.a, e.sample, e.ackBudget, before, size);
      var v1 := Acked(v, e.a, e.sample, e.ackBudget);
      PumpKeepsInv(v1, true, e.pumpBudget, before, size);
      hide N.Inv, Acked, Pumped, Pieces, H.Chunks, SeqGt;
      var v2 := if SeqGt(e.a.ack, v.net.snd.una) then Pumped(v1, true, e.pumpBudget) else v1;
      WindowFree(v2.net, e.a.win);
    }
  }

  lemma StepKeepsInv(v: Server, e: Event, before: seq<byte>, size: nat)
    requires Inv(v, before, size) && Enabled(v, e)
    ensures Inv(Step(v, e), before, size)
  {
    match e
    case Visit(_, _, _, _) => VisitKeepsInv(v, e, before, size);
    case AckArrives(_, _, _, _) => AckKeepsInv(v, e, before, size);
    case Net(e) => NetKeepsInv(v, e, before, size);
  }

  ghost function Exec(v: Server, es: seq<Event>, before: seq<byte>, size: nat): (v': Server)
    requires Inv(v, before, size)
    ensures Inv(v', before, size)
    decreases |es|
  {
    if es == [] then v
    else if Enabled(v, es[0]) then StepKeepsInv(v, es[0], before, size); Exec(Step(v, es[0]), es[1..], before, size)
    else Exec(v, es[1..], before, size)
  }

  /** The streaming branch was just entered: the headers are queued and nothing else. */
  ghost predicate Started(v: Server, size: nat) {
    && N.Inv(v.net) && v.net.snd.open && Roomy(v.net.snd) && WheelKnows(v)
    && v.pumps == 0 && size < MODULUS && v.stream == Stream(STREAMING, size, 0)
  }

  /** The streaming branch of srv_on_data up to its first pump; it does not reschedule the record. */
  function WithHeaders(y: N.System, onWheel: bool, header: seq<byte>, size: u32, allocates: bool, budget: nat): (v: Server)
    requires Ok(y.snd) && |header| < HALF - FIRST_SEND_HEADROOM
  {
    var y' := N.Step(y, N.AppSend(header, allocates, budget));
    Server(y', Stream(STREAMING, size, 0), 0, onWheel || y'.snd.armed)
  }

  /** A send queues all its data: there is a buffer, and room in it. */
  predicate FitsWhole(s: Sender, n: nat, allocates: bool) {
    if s.hasBuf then |s.buf| + n <= s.cap else allocates || n == 0
  }

  /**
   * The streaming branch of srv_on_data leads there from every open connection,
   * new or used, unless its first buffer cannot be allocated; the headers are
   * queued whole exactly when they fit.
   */
  lemma HeadersStart(y: N.System, onWheel: bool, header: seq<byte>, size: u32, allocates: bool, budget: nat)
    requires N.Inv(y) && y.snd.open && (y.snd.armed ==> onWheel) && 0 < |header| < HALF - FIRST_SEND_HEADROOM
    ensures var v := WithHeaders(y, onWheel, header, size, allocates, budget);
            && (v.net.queued == y.queued + header <==> FitsWhole(y.snd, |header|, allocates))
            && (Started(v, size) <==> y.snd.hasBuf || allocates)
  {
    N.SendKeepsInv(y, N.AppSend(header, allocates, budget));
    SendsHeaders(y.snd, header, allocates, budget);
    hide N.Inv, Send, FitsWhole, N.Emitted, Wrap;
    var n := Send(y.snd, header, allocates, budget).2;
    if n >= 0 { assert |y.queued + header[..n]| == |y.queued + header| <==> n == |header|; }
  }

  lemma SendsHeaders(s: Sender, header: seq<byte>, allocates: bool, budget: nat)
    requires s.open && |s.buf| <= s.cap && (s.hasBuf ==> s.cap >= DEFAULT_CAPACITY) && (!s.hasBuf ==> s.buf == [])
    requires 0 < |header| < HALF - FIRST_SEND_HEADROOM
    ensures var (s', _, n) := Send(s, header, allocates, budget);
            if s.hasBuf || allocates then
              0 <= n <= |header| && s'.buf != [] && Roomy(s') && s'.open && (n == |header| <==> FitsWhole(s, |header|, allocates))
            else s' == s && n < 0 && !FitsWhole(s, |header|, allocates)
  {
    N.CapacityFits(|header|);
    if s.hasBuf || allocates {
      var s1 := if s.hasBuf then s
                else s.(hasBuf := true, buf := [], baseSeq := s.una, cap := FirstCapacity(|header|));
      assert |s1.buf| <= s1.cap && s1.cap >= DEFAULT_CAPACITY;
      var n := Accepted(s1, header);
      assert s1.buf + header[..n] != [];
      DrainChangesNxt(s1.(buf := s1.buf + header[..n]), budget);
      hide Drain, Wrap, FirstCapacity;
    }
  }

  lemma StartedInv(v: Server, size: nat)
    requires Started(v, size)
    ensures Inv(v, v.net.queued, size)
  {
    assert H.Chunks(Pieces(0)) == [] && v.net.queued + [] == v.net.queued;
  }

  lemma BodyDecodes(size: nat)
    ensures H.DecodesTo(H.Chunks(Pieces(size)) + H.END, Letters(size))
  {
    hide H.DecodesTo, H.Chunks;
    H.ChunkedRoundTrip(Pieces(size));
    PiecesJoin(size);
  }

  /**
   * Chunked streaming, from the first pump on and over every interleaving of
   * visits, acknowledgements and losses: no frame is truncated, what the receiver has is at all
   * times a prefix of the headers and the chunked body, and once the pump has
   * finished the queued body decodes to exactly `size` letters, after
   * ceil(size / 4096) + 1 effective pumps.
   */
  lemma StreamedBody(v: Server, size: nat, allocates: bool, budget: nat, es: seq<Event>)
    requires Started(v, size)
    ensures Ok(v.net.snd) && Inv(Pumped(v, allocates, budget), v.net.queued, size)
    ensures var z := Exec(Pumped(v, allocates, budget), es, v.net.queued, size);
            && v.net.queued <= z.net.queued && z.net.received <= z.net.queued
            && z.net.queued <= v.net.queued + H.Chunks(Pieces(size)) + H.END
            && (z.stream.appState != STREAMING ==>
                  && H.DecodesTo(z.net.queued[|v.net.queued|..], Letters(size))
                  && z.pumps == (size + 4095) / 4096 + 1)
  {
    var before := v.net.queued;
    StartedInv(v, size);
    PumpKeepsInv(v, allocates, budget, before, size);
    var z := Exec(Pumped(v, allocates, budget), es, before, size);
    assert N.ReceiverInv(z.net) && Layout(z, before, size) && z.net.received <= z.net.queued;
    hide *;
    LayoutMeans(z, before, size);
  }

  lemma LayoutMeans(z: Server, before: seq<byte>, size: nat)
    requires Layout(z, before, size)
    ensures before <= z.net.queued <= before + H.Chunks(Pieces(size)) + H.END
    ensures z.stream.appState != STREAMING ==>
              && H.DecodesTo(z.net.queued[|before|..], Letters(size))
              && z.pumps == (size + CHUNK_SIZE - 1) / CHUNK_SIZE + 1
  {
    hide H.Chunks, Pieces, H.DecodesTo;
    if z.stream.appState != STREAMING {
      BodyDecodes(size);
      Assoc(before, H.Chunks(Pieces(size)), H.END);
      assert z.net.queued[|before|..] == H.Chunks(Pieces(size)) + H.END;
    } else {
      PiecesPrefix(z.stream.sent, size);
      PrefixIn(before, H.Chunks(Pieces(z.stream.sent)), H.Chunks(Pieces(size)), H.END);
    }
  }

  lemma PrefixIn<T>(a: seq<T>, b: seq<T>, c: seq<T>, d: seq<T>)
    requires b <= c
    ensures a + b <= a + c + d
  {
    assert (a + c + d)[..|a| + |b|] == a + b;
  }

  /** What is queued part of the way is a prefix of the whole body. */
  lemma {:induction false} PiecesPrefix(sent: nat, size: nat)
    requires sent <= size && (sent % CHUNK_SIZE == 0 || sent == size)
    ensures H.Chunks(Pieces(sent)) <= H.Chunks(Pieces(size))
    decreases size
  {
    if sent < size {
      var k := LastPiece(size);
      WholeChunks(sent, size, k);
      hide Pieces, H.Chunks, H.Chunk;
      PiecesPrefix(sent, size - k);
      ChunksAppend(Pieces(size - k), Letters(k));
    }
  }

  lemma WholeChunks(sent: nat, size: nat, k: nat)
    requires sent < size && sent % CHUNK_SIZE == 0 && 0 < k <= CHUNK_SIZE && k <= size && (size - k) % CHUNK_SIZE == 0
    ensures sent <= size - k
  {
    var a, b := sent / CHUNK_SIZE, (size - k) / CHUNK_SIZE;
    assert sent == a * CHUNK_SIZE && size - k == b * CHUNK_SIZE;
  }
}
