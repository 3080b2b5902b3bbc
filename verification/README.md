# vaigAI TCP engine: a verified model

vaigAI is a DPDK traffic generator with its own TCP implementation. This
project models the per-worker engine in Dafny and proves what its parts
guarantee over whole runs: the send and receive path over an unreliable
network, the hashed timer wheel, the connection (TCB) store, the ephemeral
port pool, and the codecs and arithmetic around them.

Each component that the C code updates in place is a class whose methods are
proved to compute a function on values; the functions carry the theorems.

| file | source | content |
|---|---|---|
| `Basics.dfy` | | options, minima and maxima, products and quotients |
| `SequenceNumbers.dfy` | `net/tcp_fsm.c` | 32-bit sequence numbers and their comparison |
| `SenderSpec.dfy`, `Connection.dfy` | `net/tcp_fsm.c`, `net/tcp_snd_buf.h` | queueing, draining, ACKs, fast retransmit, timeouts: specification and class |
| `StreamTransfer.dfy` | `net/tcp_fsm.c` | sender and receiver over a network that loses, duplicates and reorders |
| `StreamRecovery.dfy` | `net/tcp_fsm.c` | which transfers can still complete, and the runs into a wedge |
| `NewReno.dfy`, `RttEstimator.dfy` | `net/tcp_congestion.c`, `net/tcp_fsm.c` | congestion window, round-trip estimate, backoff |
| `WheelSpec.dfy`, `TimerWheel.dfy` | `net/tcp_timer.c`, `net/tcp_tcb.c` | timer wheel as chains of indices, and as intrusive doubly linked lists |
| `WheelClock.dfy`, `WheelMembers.dfy` | `net/tcp_timer.c` | runs with a clock: how late a timer can be; which records are on the wheel |
| `Powers.dfy`, `TcbStore.dfy` | `common/util.c`, `net/tcp_tcb.c` | rounding to a power of two, open addressing with tombstones, free stack |
| `PortBitmap.dfy`, `PortPoolSpec.dfy`, `PortPool.dfy`, `RssFilter.dfy` | `net/tcp_port_pool.c` | word-scanned bitmaps, per-address pools, hold-off ring, split among workers |
| `ClientSystem.dfy` | `core/tx_gen.c`, `net/tcp_fsm.c`, `core/worker_loop.c` | store and pool together in client runs |
| `WorkerEngine.dfy` | `net/tcp_tcb.c`, `core/worker_loop.c` | store, pool and timer wheel together |
| `TcpOptions.dfy`, `TcpWire.dfy` | `net/tcp_options.c` | option writers and parser, and the octets on the wire |
| `HttpChunks.dfy`, `ChunkedStream.dfy`, `ChunkedRecovery.dfy` | `app/http11.c`, `app/server.c` | chunk builder and decoder, streaming pump over the network, which responses can still be finished |
| `TokenBucket.dfy`, `Histogram.dfy` | `core/tx_gen.c`, `telemetry/` | rate limiting, latency histograms |

Inputs of the model, quantified over in every theorem: clock readings (which do
not go back), how many transmit attempts of a call succeed, whether an
allocation succeeds, the 4-tuple hash, the address hash, the RSS queue of a
port, the window each acknowledgement announces, what the timer callback does to the record it is called for, and which packets the
network delivers, in which order and how often.

## Where the code does less than its comments or a reader would expect

Each of these is stated as a lemma with the exact condition under which the
expected property holds.

- A timeout is said to send exactly one segment (tcp_fsm.c:1452-1454). With
  timestamps a second, 12-byte segment fits the window: `TimeoutSends`.
- A timer less than one slot ahead goes into the slot just passed and waits a
  whole revolution; connections opened actively keep their creation time in
  `timewait_deadline_tsc`, so all their timers are of this kind: `NearDeadlineCostsRevolution`.
  The TLS branch of `tcb_earliest_deadline` never contributes for the same reason: `EarliestIsMinimum`.
- Slots ahead are counted from the clock and advances from the last tick, so a timely tick can visit
  a record before its deadline; the record is then rescheduled 0 slots ahead and
  fires a revolution late: `EarlyForSureIff`, `EarlyVisitFiresLate`.
- An overdue timer is visited within two revolutions if its record is rescheduled after
  every timer change: `TwoRevolutions`. The first request of a connection and the start
  of streaming change timers without rescheduling (tcp_fsm.c:803, 827, 987; server.c:249); the exact
  condition for such records is in `VisitedAfterWrap`, and a run that needs almost three in `StreamingVisitedLate`.
- An acknowledgement of the whole flight disarms the retransmission timer before the
  drain that follows it, which does not arm it (tcp_fsm.c:880-896), and the receiver acknowledges only data
  it accepts. From every established connection a run leads into a wedge: data is queued,
  nothing is in flight and no timer runs (`TransmitFailureWedges`). Exactly which transfers complete by
  themselves: `CompletesExactly`, and in closed form `CompletesIff` and `EmptyNetworkIff`; which
  streamed responses can be finished: `FinishesExactly`, `FinishesIff`.
- A served connection whose data is all acknowledged is off the timer wheel, and the start of
  streaming does not put it there (server.c:242-251, tcp_timer.c:167-177). If headers and first
  chunk cannot be transmitted, the response is never pumped again: `MuteStartIff`, `StreamStartWedges`.
- A freed port is held off exactly when the hold-off ring has room; with 65535 entries
  waiting it is available at once: `HeldOffIffRoom`.
- Segments older than 2^32 bytes of stream and acknowledgements older than 2^31
  are taken for new ones: `LifetimeExact`, `StaleDataCorrupts`.
- The duplicate-ACK counter wraps, so the 259th duplicate retransmits again: `DuplicatesRetransmit`.
- With MSS 0 the congestion-avoidance division can be by zero: `TimeoutDivisibleIff`.
- The TCB table size is cut to 32 bits, which is harmless exactly up to a
  capacity of 2^30; above it the size is 0 and initialisation fails: `SizeFitsIff`, `SizeCut`, `Init`. Allocating a live key breaks the map: `AllocKeepsMapIff`.
- With one receive queue and several workers no RSS filter is applied and all
  workers share all ports: `ExactlyOneOwnerIff`.
- Resetting the connections without the port pool, as serving, stopping a server and the start of a
  first flow that is not TCP do (worker_loop.c:203, 228, 249, 267), loses the ports of the live
  connections: `StepKeepsTightIff`, `RunKeepsTight`. The first TCP flow resets the pools before the
  connections (cli.c:760-764); while a connection is live that breaks the claims, and one that closes into hold-off in
  between leaves a ring entry whose port is available: `PoolResetKeepsInvIff`, `CloseAfterPoolReset`.
- With timestamps, four SACK blocks do not fit 40 bytes and none is written: `SackInSegment`.
- A limit on initiations is overshot by up to 31: `TokenBound`, `FirstBurst`.

## Model

| member | source | states |
|---|---|---|
| `SequenceNumbers.SeqGtExact` | vaigAI/src/net/tcp_fsm.c:123-126 | SEQ_GT agrees with the order of unbounded stream positions exactly while they are less than half the sequence space apart |
| `SequenceNumbers.SeqEqExact` | vaigAI/src/net/tcp_fsm.c:123-126 | equal sequence numbers mean equal positions modulo 2^32 |
| `SenderSpec.DrainSends` | vaigAI/src/net/tcp_fsm.c:556-584 | draining sends consecutive slices of the buffer from snd_nxt on, each at most one effective MSS and inside min(cwnd, snd_wnd), and stops only when the data, the window or the transmits are exhausted |
| `SenderSpec.DrainGrid` | vaigAI/src/net/tcp_fsm.c:556-584 | every segment of a drain starts a whole number of effective segments after the first unsent byte and inside min(cwnd, snd_wnd) |
| `SenderSpec.DrainReaches` | vaigAI/src/net/tcp_fsm.c:556-584 | with enough transmits a segment starts at each such offset |
| `SenderSpec.DrainFills` | vaigAI/src/net/tcp_fsm.c:548-584 | every segment with its option bytes makes up the MSS unless it ends the data or the window; nothing passes cwnd or snd_wnd, and unless transmits run out the drain stops only at the end of the data or of one of them |
| `SenderSpec.TimeoutSends` | vaigAI/src/net/tcp_fsm.c:1450-1459 | after a timeout at most one MSS is in flight; exactly one segment is sent if and only if the room fits one effective MSS or the second transmit fails |
| `SenderSpec.TimeoutGrid` | vaigAI/src/net/tcp_fsm.c:1450-1463 | a timeout retransmits only from offsets on the grid of effective segments inside min(MSS, snd_wnd) |
| `SenderSpec.TimeoutReaches` | vaigAI/src/net/tcp_fsm.c:1450-1463 | with enough transmits it retransmits from each of them |
| `SenderSpec.UnansweredTimeouts` | vaigAI/src/net/tcp_fsm.c:1420-1435 | after j unanswered timeouts the timeout is min(2^j RTO, 60 s) and the connection is open exactly for j up to 15 |
| `SenderSpec.DuplicatesRetransmit` | vaigAI/src/net/tcp_fsm.c:900-914 | j duplicates retransmit the oldest segment at the third and, the counter being 8 bits wide, at every 256th after it; nothing else is sent, snd_nxt and buffer stay |
| `StreamTransfer.HandshakeEstablishes` | vaigAI/src/net/tcp_fsm.c:658-661 | the state every run starts from exists for every sequence number, window, segment size, option set and round-trip state: after an active open cwnd is the window and no timer runs, after a passive one cwnd is 65535, snd_wnd the announced window, and the timer of the SYN-ACK still runs |
| `StreamTransfer.SendMoves` | vaigAI/src/net/tcp_fsm.c:1513-1532 | a send extends the unacknowledged stream by the accepted prefix of the data and sends only stream bytes |
| `StreamTransfer.AckMoves` | vaigAI/src/net/tcp_fsm.c:866-917 | an acknowledgement up to half the sequence space old trims exactly the newly acknowledged bytes, whatever snd_nxt was |
| `StreamTransfer.TimeoutMoves` | vaigAI/src/net/tcp_fsm.c:1420-1463 | going back N keeps the stream and retransmits only its bytes |
| `StreamTransfer.DeliveryKeepsInv` | vaigAI/src/net/tcp_fsm.c:920-934 | the in-order test on 32-bit numbers accepts only the next bytes of the stream |
| `StreamTransfer.StepKeepsInv` | vaigAI/src/net/tcp_fsm.c:866-934 | every send, delivery, acknowledgement owed or piggybacked, loss, duplication and timeout of an armed timer keeps the protocol invariant; queued, received and acknowledged only grow |
| `StreamTransfer.StreamIntegrity` | vaigAI/src/net/tcp_fsm.c:866-934 | over every run: received is a prefix of queued, snd_una never passes rcv_nxt, base_seq is snd_una, the buffer is exactly the unacknowledged slice, every segment ever sent carries the stream bytes at its number |
| `StreamTransfer.RunKeepsRto` | vaigAI/src/net/tcp_fsm.c:379-401 | over every run of the transfer the retransmission timeout stays in [200 ms, 60 s] |
| `StreamTransfer.RunProjects` | vaigAI/src/net/tcp_fsm.c:867-917 | over every run of the transfer the estimator has taken exactly the samples below 60 s that came with new acknowledgements and one backoff per retransmission, and the congestion window exactly the newly acknowledged bytes, third duplicates and timeouts |
| `StreamTransfer.TransferRttWithin` | vaigAI/src/net/tcp_fsm.c:888-893 | so in every transfer srtt stays in the range of the samples and the next sample changes it as section 2 of RFC 6298 prescribes |
| `StreamTransfer.TimerDiscipline` | vaigAI/src/net/tcp_fsm.c:872-917 | a send leaves the timer armed exactly when it was or something is in flight; a new acknowledgement exactly when it does not cover the flight, and clears both counters; a duplicate only counts; the timeout arms again, and the sixteenth in a row disarms and closes |
| `StreamTransfer.LifetimeExact` | vaigAI/src/net/tcp_fsm.c:867-927 | exactly which stale data and acknowledgements are taken for new ones |
| `StreamRecovery.StaleDataCorrupts` | vaigAI/src/net/tcp_fsm.c:927-928 | from every established connection with a window a run reaches a state in which a segment 2^32 bytes stale is accepted and corrupts the stream |
| `StreamRecovery.CanComplete` | vaigAI/src/net/tcp_fsm.c:866-934 | a transfer with one sign of life can complete: next bytes on the network, an acknowledgement owed or under way that says how far the receiver is (delivered as often as it takes), or an armed timer with a retry left whose retransmission starts at the byte the receiver waits for |
| `StreamRecovery.CopiesNeeded` | vaigAI/src/net/tcp_fsm.c:900-914 | how often that is: a sender that already knows the acknowledgement retransmits what the receiver waits for exactly from the copy on that makes the 8-bit counter three; without duplication exactly when two duplicates were counted before |
| `StreamRecovery.WedgedForever` | vaigAI/src/net/tcp_fsm.c:866-934 | without one and with no acknowledgement ahead of the sender no run without a further send completes |
| `StreamRecovery.CompletesExactly` | vaigAI/src/net/tcp_fsm.c:866-934 | in every reachable state: a transfer completes without a further send if and only if acknowledgements on the network and timeouts alone lead to a sign of life |
| `StreamRecovery.CompletesIff` | vaigAI/src/net/tcp_fsm.c:866-934 | with no acknowledgement between sender and receiver it completes if and only if there is a sign of life now |
| `StreamRecovery.EmptyNetworkIff` | vaigAI/src/net/tcp_fsm.c:880-887 | on an empty network: if and only if all is received, an acknowledgement is owed, or the armed timer has a retry left, window and a segment that starts where the receiver waits |
| `StreamRecovery.TransmitFailureWedges` | vaigAI/src/net/tcp_fsm.c:880-896 | from every established connection and every send of more than one segment a run of six events wedges it: sender open, timer disarmed, nothing in flight, data queued, completion impossible |
| `Connection.SendBuffer.constructor` | vaigAI/src/net/tcp_snd_buf.h:26-34 | an empty buffer of the given capacity and base |
| `Connection.SendBuffer.Append` | vaigAI/src/net/tcp_snd_buf.h:38-48 | appends the longest prefix that fits |
| `Connection.SendBuffer.Ack` | vaigAI/src/net/tcp_snd_buf.h:50-62 | drops the acknowledged front, moves the rest down, advances base_seq by what was dropped |
| `Connection.Connection.SendLength` | vaigAI/src/net/tcp_fsm.c:548-574 | the length of the next segment: data left, window left, effective MSS |
| `Connection.Connection.DrainBuffer` | vaigAI/src/net/tcp_fsm.c:556-584 | the drain loop computes the drain of the specification on fields and trace |
| `Connection.Connection.Send` | vaigAI/src/net/tcp_fsm.c:1478-1534 | tcp_fsm_send outside throughput mode for every 32-bit length: result, fields, buffer, segments and the arming of the timer as specified, including failed allocation and closed state |
| `Connection.Connection.ReceiveAck` | vaigAI/src/net/tcp_fsm.c:866-917 | the ACK branch of ESTABLISHED computes the specification, the timer disarmed or restarted before the drain and the window updated after it |
| `Connection.Connection.FastRetransmit` | vaigAI/src/net/tcp_fsm.c:902-914 | the third duplicate retransmits the oldest segment and enters recovery, without touching snd_nxt |
| `Connection.Connection.RtoExpired` | vaigAI/src/net/tcp_fsm.c:1420-1463 | the timeout handler computes the specification, re-arming or reset included |
| `Connection.Connection.ReceiveData` | vaigAI/src/net/tcp_fsm.c:919-934 | in-order data is delivered, advances rcv_nxt and is owed an acknowledgement; other data changes nothing |
| `Connection.Connection.CongestionOnAck` | vaigAI/src/net/tcp_congestion.c:37-57 | newreno_on_ack on the fields |
| `Connection.Connection.CongestionOnRto` | vaigAI/src/net/tcp_congestion.c:192-215 | the NewReno branch of congestion_on_rto on the fields |
| `Connection.Connection.UpdateRtt` | vaigAI/src/net/tcp_fsm.c:379-394 | update_rtt on the fields, in 32-bit arithmetic |
| `NewReno.RunKeepsWindow` | vaigAI/src/net/tcp_congestion.c:37-57 | over every run with MSS at least 1: no division by zero, ssthresh initial or at least 2 MSS, cwnd at most 64 MiB when the flight is |
| `NewReno.TimeoutDivisibleIff` | vaigAI/src/net/tcp_congestion.c:205-211 | after a timeout the next division is safe if and only if MSS >= 1 or two bytes were in flight |
| `NewReno.AvoidanceGrowth` | vaigAI/src/net/tcp_congestion.c:46-56 | k avoidance ACKs of any sizes with k MSS <= cwnd grow the window by at most max(MSS, k) and, below the cap, by at least k max(MSS^2 / (cwnd + max(MSS, k)), 1) |
| `NewReno.SlowStartExact` | vaigAI/src/net/tcp_congestion.c:46-48 | below ssthresh and 64 MiB a run of ACKs outside recovery adds exactly the acknowledged bytes, at most one MSS each |
| `NewReno.SlowStartDoubles` | vaigAI/src/net/tcp_congestion.c:46-48 | whole-segment ACKs that cover one window double it |
| `NewReno.BackToThreshold` | vaigAI/src/net/tcp_congestion.c:205-211 | after a timeout ssthresh is half the flight but at least 2 MSS, the window one MSS and j + 1 MSS after j whole-segment ACKs, and it is back at ssthresh after exactly ceil((ssthresh - MSS) / MSS) of them |
| `NewReno.RecoveryEnds` | vaigAI/src/net/tcp_congestion.c:172-178 | a fast retransmit leaves cwnd at ssthresh + 3 MSS, and the first new ACK leaves cwnd == ssthresh, half the flight but at least 2 MSS |
| `RttEstimator.RunStaysWithin` | vaigAI/src/net/tcp_fsm.c:379-394 | for every sequence of timeouts and samples below 60 s: srtt stays between the least and the greatest sample, RTO in [200 ms, 60 s], and no 32-bit step wraps |
| `RttEstimator.UpdateIsIdeal` | vaigAI/src/net/tcp_fsm.c:379-394 | the 32-bit step equals section 2 of RFC 6298 in unbounded arithmetic |
| `RttEstimator.BackoffIsExponential` | vaigAI/src/net/tcp_fsm.c:1431 | j doublings give min(2^j RTO, 60 s) |
| `RttEstimator.SynGivesUp` | vaigAI/src/net/tcp_fsm.c:1422-1439 | in SYN_SENT three retries with doubled waits, reset by the fourth timeout |
| `WheelSpec.EarliestIsMinimum` | vaigAI/src/net/tcp_timer.c:80-120 | tcb_earliest_deadline is the least deadline awaited, none exactly when none is |
| `WheelSpec.ReschedOk` | vaigAI/src/net/tcp_timer.c:140-177 | rescheduling puts a record on exactly the chain of its deadline, takes one that awaits none off the wheel, and moves nothing else |
| `WheelSpec.VisitAllOk` | vaigAI/src/net/tcp_timer.c:305-328 | a walk over a detached chain keeps the structure although each callback may free or re-insert its record |
| `WheelSpec.RunKeepsStructure` | vaigAI/src/net/tcp_timer.c:286-347 | over every run of ticks, handlers, opens, frees and store resets each scheduled live record is on exactly one chain exactly once and no freed record on any |
| `WheelSpec.PlacedAhead` | vaigAI/src/net/tcp_timer.c:140-159 | a deadline k slots ahead lands k advances away for k in 1..4095, 4096 away for k = 0, in overflow beyond |
| `WheelSpec.DrainsExactlyOnWrap` | vaigAI/src/net/tcp_timer.c:329-347 | the overflow chain is re-hashed exactly on ticks in which the current slot wraps |
| `WheelSpec.VisitedExactlyWhenDue` | vaigAI/src/net/tcp_timer.c:292-328 | an untouched record d advances away is visited at exactly the d-th advance of the run |
| `WheelSpec.NearDeadlineCostsRevolution` | vaigAI/src/net/tcp_timer.c:149-158 | a deadline under one slot away, or an expired creation time, waits a whole revolution |
| `WheelClock.RunKeepsClock` | vaigAI/src/net/tcp_timer.c:140-159 | over every run with a clock that does not go back, a record in overflow that is rescheduled after every timer change has no deadline before the next wrap of the wheel |
| `WheelClock.OverdueWraps` | vaigAI/src/net/tcp_timer.c:292-304 | hence the first tick that finds such a deadline passed wraps |
| `WheelClock.VisitedAfterRehash` | vaigAI/src/net/tcp_timer.c:329-347 | and the record is visited at exactly the 4096th advance after that tick |
| `WheelClock.TwoRevolutions` | vaigAI/src/net/tcp_timer.c:286-347 | from initialisation, over every clocked run: an overdue record rescheduled after every timer change is visited within two revolutions |
| `WheelClock.VisitedAfterWrap` | vaigAI/src/net/tcp_timer.c:286-347 | without rescheduling: visited at exactly advance 2 * 4096 - current + e, where e is the slot after the first tick that wraps, so two revolutions suffice if and only if e <= current |
| `WheelClock.StreamingVisitedLate` | vaigAI/src/net/tcp_timer.c:286-347 | on every wheel a clocked run from initialisation in which two revolutions are not enough: a record in overflow starts to stream and is first visited at advance 12192 |
| `WheelClock.EarlyForSureIff` | vaigAI/src/net/tcp_timer.c:140-158 | a record scheduled 1 to 4095 slots ahead is visited by exactly that advance, and every timely tick of every clocked run makes it before the deadline if and only if the fractions of a slot dropped in slots ahead and since the last tick make up a whole slot |
| `WheelClock.EarlyVisitFiresLate` | vaigAI/src/net/tcp_timer.c:305-328 | a record visited less than a slot early is next visited exactly one revolution later, more than 4095 slots past its deadline less what the wheel lagged behind the clock |
| `WheelClock.RunClock` | vaigAI/src/net/tcp_timer.c:292-304 | over every run last_tick_tsc counts the slot advances |
| `WheelMembers.OnWheelIff` | vaigAI/src/net/tcp_timer.c:167-177 | over every run from initialisation whose handlers reschedule a record after changing its timers: the record is on the wheel if and only if it is in use and awaits some deadline |
| `WheelMembers.OffWheelStays` | vaigAI/src/net/tcp_timer.c:305-347 | a record off the wheel that nobody touches is visited by no tick and stays off |
| `TimerWheel.UnlinkRealises` | vaigAI/src/net/tcp_timer.c:28-55 | unlinking in the linked lists removes the record from its chain, even while another chain is being walked |
| `TimerWheel.LinkRealises` | vaigAI/src/net/tcp_timer.c:58-77 | linking at the head puts the record first in its chain |
| `TimerWheel.WheelTable.constructor` | vaigAI/src/net/tcp_timer.c:123-137 | an empty wheel with slots of 1 ms |
| `TimerWheel.WheelTable.Remove` | vaigAI/src/net/tcp_timer.c:28-55 | wheel_remove: off its chain, links and slot cleared |
| `TimerWheel.WheelTable.InsertSlot` | vaigAI/src/net/tcp_timer.c:58-77 | wheel_insert_slot: at the head of the slot's list |
| `TimerWheel.WheelTable.ScheduleAt` | vaigAI/src/net/tcp_timer.c:140-159 | tcp_timer_schedule computes the specification |
| `TimerWheel.WheelTable.Reschedule` | vaigAI/src/net/tcp_timer.c:167-177 | tcp_timer_resched computes the specification |
| `TimerWheel.WheelTable.Free` | vaigAI/src/net/tcp_tcb.c:139-160 | freeing a TCB takes it off the wheel first |
| `TimerWheel.WheelTable.OpenRecord` | vaigAI/src/net/tcp_tcb.c:83-94 | the record part of tcb_alloc: in use, on no chain, although a freed record names slot 0 |
| `TimerWheel.WheelTable.ResetStore` | vaigAI/src/net/tcp_tcb.c:178-187 | the wheel part of tcb_store_reset: every chain empty, every record unused, clock and current slot kept |
| `TimerWheel.WheelTable.FireTimers` | vaigAI/src/net/tcp_timer.c:191-283 | any sequence of rescheduling, re-arming and freeing of the visited record keeps lists and specification together |
| `TimerWheel.WheelTable.Walk` | vaigAI/src/net/tcp_timer.c:309-328 | the walk visits exactly the detached chain in order, whatever each callback does |
| `TimerWheel.WheelTable.TurnSlot` | vaigAI/src/net/tcp_timer.c:305-309 | the next slot becomes current and its chain is taken off its head |
| `TimerWheel.WheelTable.AdvanceSlot` | vaigAI/src/net/tcp_timer.c:305-328 | one slot advance: the slot's chain is detached and visited |
| `TimerWheel.WheelTable.RehashOverflow` | vaigAI/src/net/tcp_timer.c:329-347 | the overflow chain is detached and every record re-hashed |
| `TimerWheel.WheelTable.TickWheel` | vaigAI/src/net/tcp_timer.c:286-347 | the whole tick on linked lists computes the specified tick, visits included |
| `Powers.NextPow2` | vaigAI/src/common/util.c:105-116 | the least power of two at least v for v up to 2^63, 0 above |
| `TcbStore.FreeSlotExists` | vaigAI/src/net/tcp_tcb.c:44-46 | with more slots than records an insertion slot exists (pigeonhole) |
| `TcbStore.InsertKeepsTable` | vaigAI/src/net/tcp_tcb.c:95-109 | filling the first free slot of a probe path keeps every probe path unbroken |
| `TcbStore.RemoveKeepsTable` | vaigAI/src/net/tcp_tcb.c:156-172 | a tombstone keeps every other probe path |
| `TcbStore.SizeFitsIff` | vaigAI/src/net/tcp_tcb.c:45 | the table size survives the 32-bit cast if and only if the capacity is at most 2^30 |
| `TcbStore.SizeCut` | vaigAI/src/net/tcp_tcb.c:45 | a table size that does not fit 32 bits is cut to 0, and only such a one |
| `TcbStore.StoreSizes` | vaigAI/src/net/tcp_tcb.c:66-71 | free_top plus count equals the capacity |
| `TcbStore.StepKeepsStore` | vaigAI/src/net/tcp_tcb.c:76-196 | alloc, free and reset keep the free stack exactly the unused indices without repeats |
| `TcbStore.RunRefinesMap` | vaigAI/src/net/tcp_tcb.c:76-196 | over every run of fresh-key allocs, frees and resets the live records are exactly a finite map's entries |
| `TcbStore.AllocKeepsMapIff` | vaigAI/src/net/tcp_tcb.c:76-109 | allocating keeps the store a map if and only if the key is not live |
| `TcbStore.LastFreedFirst` | vaigAI/src/net/tcp_tcb.c:80-83 | indices are handed out from 0 on, and the one freed last is handed out next |
| `TcbStore.TcbTable.constructor` | vaigAI/src/net/tcp_tcb.c:45-71 | an empty store whose table is the least power of two at least twice the capacity |
| `TcbStore.TcbTable.Init` | vaigAI/src/net/tcp_tcb.c:32-72 | tcb_store_init with enough memory, for every 32-bit capacity: it fails exactly for capacity 0 and above 2^30, otherwise the store is empty |
| `TcbStore.TcbTable.Lookup` | vaigAI/src/net/tcp_tcb.c:113-130 | the record of the key or NULL, exactly as the map says |
| `TcbStore.TcbTable.Insert` | vaigAI/src/net/tcp_tcb.c:95-109 | the probe loop always finds a slot and keeps the table |
| `TcbStore.TcbTable.Alloc` | vaigAI/src/net/tcp_tcb.c:76-110 | the top free index gets the key; NULL exactly when none is free |
| `TcbStore.TcbTable.Remove` | vaigAI/src/net/tcp_tcb.c:162-172 | the probe loop finds the record's slot and leaves a tombstone |
| `TcbStore.TcbTable.Free` | vaigAI/src/net/tcp_tcb.c:139-172 | the index returns to the stack and its key is gone |
| `TcbStore.TcbTable.Reset` | vaigAI/src/net/tcp_tcb.c:175-196 | the store is as after initialisation |
| `PortBitmap.SetBitAvail` | vaigAI/src/net/tcp_port_pool.c:88-98 | bm_set adds exactly one port |
| `PortBitmap.ClearBitAvail` | vaigAI/src/net/tcp_port_pool.c:94-98 | bm_clear removes exactly one port |
| `PortBitmap.FullIsAll` | vaigAI/src/net/tcp_port_pool.c:197-199 | the all-ones map holds every port |
| `PortBitmap.FindNext` | vaigAI/src/net/tcp_port_pool.c:108-142 | the word scan equals the bit-by-bit cyclic scan from start over the 50000 real ports, padding bits or not |
| `PortPoolSpec.ScanIn` | vaigAI/src/net/tcp_port_pool.c:108-142 | the scan returns an available port and fails exactly when none is |
| `PortPoolSpec.GetSettles` | vaigAI/src/net/tcp_port_pool.c:147-176 | ip_pool_get routes its address for good and moves no other address |
| `PortPoolSpec.AllocateKeepsSafe` | vaigAI/src/net/tcp_port_pool.c:237-254 | no port is handed out while held or in hold-off |
| `PortPoolSpec.AllocNextFit` | vaigAI/src/net/tcp_port_pool.c:237-254 | the port handed out is the first available from the cursor on, cyclically, the cursor moves behind it, allocation fails exactly when none is available, and a new address starts from a copy of the shared map |
| `PortPoolSpec.FreshAllocates` | vaigAI/src/net/tcp_port_pool.c:217-234 | after a reset every address can allocate, and gets the first port |
| `PortPoolSpec.ExpireExact` | vaigAI/src/net/tcp_port_pool.c:291-304 | a tick releases exactly the entries whose time has come, each to its own pool, and nothing else changes |
| `PortPoolSpec.StepKeepsSafe` | vaigAI/src/net/tcp_port_pool.c:237-304 | every operation, with frees at any clock reading and ticks at older ones, keeps routing, holdings, ring order and ring distinctness |
| `PortPoolSpec.NeverHandedOutTwice` | vaigAI/src/net/tcp_port_pool.c:237-304 | over every run from reset, frees between ticks included, the next port handed out is neither held nor in hold-off |
| `PortPoolSpec.HeldOffOverRuns` | vaigAI/src/net/tcp_port_pool.c:257-304 | over every run until its release time a port in the ring stays there, keeps its pool, and is not handed out to any address of that pool |
| `PortPoolSpec.HeldOffIffRoom` | vaigAI/src/net/tcp_port_pool.c:257-279 | after tcp_port_free the port is held off until the free plus the hold time if and only if the ring has room |
| `PortPoolSpec.UnservedIsSafe` | vaigAI/src/net/tcp_port_pool.c:182-205 | a pool that has served no address is safe to start from and owns what its shared map holds |
| `PortPoolSpec.RunKeepsRoutes` | vaigAI/src/net/tcp_port_pool.c:147-176 | over every run an address that was served keeps its pool |
| `PortPoolSpec.RunKeepsOwns` | vaigAI/src/net/tcp_port_pool.c:165-304 | over every run a worker only ever holds, offers or keeps in hold-off ports it started with |
| `PortPool.WorkerPool.constructor` | vaigAI/src/net/tcp_port_pool.c:182-205 | all maps full, no address served, ring empty; safe for every run, before any reset |
| `PortPool.WorkerPool.GetPool` | vaigAI/src/net/tcp_port_pool.c:147-176 | the probe loop computes the specified route, claiming a slot with a copy of the shared map |
| `PortPool.WorkerPool.AllocPort` | vaigAI/src/net/tcp_port_pool.c:237-254 | tcp_port_alloc on bitmaps and cursor computes the specification |
| `PortPool.WorkerPool.FreeImmediate` | vaigAI/src/net/tcp_port_pool.c:282-289 | tcp_port_free_immediate, ports outside the range ignored |
| `PortPool.WorkerPool.FreePort` | vaigAI/src/net/tcp_port_pool.c:257-279 | tcp_port_free on the circular ring: appended with its release time, or freed at once when full |
| `PortPool.WorkerPool.TickRing` | vaigAI/src/net/tcp_port_pool.c:291-304 | tcp_port_pool_tick on the circular ring computes the specified expiry |
| `PortPool.WorkerPool.Reset` | vaigAI/src/net/tcp_port_pool.c:217-234 | tcp_port_pool_reset |
| `RssFilter.ApplyFilter` | vaigAI/src/net/tcp_port_pool.c:313-396 | every worker's shared map and claimed slots become exactly its own ports, whatever the queue function; addresses, cursors and unclaimed slots stay, and nothing changes with one queue or worker |
| `RssFilter.QueueAffinity` | vaigAI/src/net/tcp_port_pool.c:373-396 | with more than one queue and worker a port is left in a shared map, and in every claimed slot, exactly of the worker that polls the queue its replies hash to: that queue's own number, or the remainder beyond the workers |
| `RssFilter.AffinityOverRuns` | vaigAI/src/net/tcp_port_pool.c:165-396 | over every later run a worker holds, and keeps in hold-off, only ports whose replies reach it |
| `RssFilter.SharedAfter` | vaigAI/src/net/tcp_port_pool.c:350-396 | what the filter leaves of a pool as after reset: a pool that serves no address and whose shared map is exactly its own ports, or all of them where no filter runs |
| `RssFilter.ExactlyOneOwnerIff` | vaigAI/src/net/tcp_port_pool.c:350-396 | on the maps the filter leaves after reset: every port is in exactly one shared map if and only if there is one worker or more than one queue |
| `RssFilter.WorkersStayDisjoint` | vaigAI/src/net/tcp_port_pool.c:165-396 | over every pair of later runs from the maps the filter leaves two workers never hold or keep in hold-off the same port |
| `ClientSystem.OpenIsFresh` | vaigAI/src/core/tx_gen.c:385-396 | an active open never inserts a 4-tuple that is live |
| `ClientSystem.OpenAdds` | vaigAI/src/core/tx_gen.c:385-396 | an open adds exactly one connection, with the addresses asked for and the port taken from the pool, or none |
| `ClientSystem.CloseFrees` | vaigAI/src/net/tcp_fsm.c:1386-1399 | a close removes its connection and makes its port available at once, or puts it at the end of the ring for the hold time while there is room |
| `ClientSystem.StepKeepsInv` | vaigAI/src/net/tcp_fsm.c:1386-1399 | opens, closes with and without hold-off, expiry and resets keep every live connection's port claimed |
| `ClientSystem.ClientRuns` | vaigAI/src/core/tx_gen.c:374-396 | over every client run each live connection's port is unavailable in its address's pool, no two share address and port, and the store refines a finite map |
| `ClientSystem.StepKeepsTightIff` | vaigAI/src/core/worker_loop.c:196-203 | an event conserves ports (every port out is a live connection's) if and only if it is not a reset of live connections without the pool |
| `ClientSystem.RunKeepsTight` | vaigAI/src/net/tcp_fsm.c:1171-1178 | after every prefix of a run no port is lost if and only if no event of it resets live connections without the pool |
| `ClientSystem.PoolResetKeepsInvIff` | vaigAI/src/mgmt/cli.c:760-764 | resetting the pool without the connections keeps every claim if and only if no connection is live |
| `ClientSystem.CloseAfterPoolReset` | vaigAI/src/mgmt/cli.c:760-764 | a connection that closes into hold-off after it leaves a ring entry whose port is available |
| `WorkerEngine.StepKeepsInv` | vaigAI/src/net/tcp_tcb.c:76-196 | opens, closes, handlers, wheel ticks with the closes their callbacks perform in the order of their visits, port ticks and resets keep store, pool and wheel in agreement |
| `WorkerEngine.TickUse` | vaigAI/src/net/tcp_timer.c:304-347 | a tick takes out of use exactly the records its callbacks release; re-hashing the overflow chain releases none |
| `WorkerEngine.WorkerRuns` | vaigAI/src/net/tcp_tcb.c:139-172 | over every run of a worker: a scheduled record is a live connection whose port is taken, is on one chain only, and a connection that is gone is on none |
| `TcpOptions.TokensExact` | vaigAI/src/net/tcp_options.c:21-29 | the options read from a byte string are the only list whose encoding is a prefix followed by a point where reading must stop |
| `TcpOptions.Parse` | vaigAI/src/net/tcp_options.c:9-74 | fails exactly on a header under five words; otherwise the effects of the announced area's options in order, on every byte string |
| `TcpOptions.ParseArea` | vaigAI/src/net/tcp_options.c:20-72 | the loop folds the effects of exactly the options of the area |
| `TcpOptions.OthersIgnored` | vaigAI/src/net/tcp_options.c:30-71 | options of other kinds, or of a length that does not suit their kind, have no effect |
| `TcpOptions.CopyBlocks` | vaigAI/src/net/tcp_options.c:54-67 | SACK blocks are appended up to four |
| `TcpOptions.WriteSyn` | vaigAI/src/net/tcp_options.c:77-125 | the buffer holds the groups that fit and padding, and is otherwise unchanged |
| `TcpOptions.WriteData` | vaigAI/src/net/tcp_options.c:128-173 | the same for timestamps and SACK blocks |
| `TcpWire.SynOnTheWire` | vaigAI/src/net/tcp_options.c:87-124 | the SYN options octet by octet: kinds, lengths, network byte order, padding |
| `TcpWire.DataOnTheWire` | vaigAI/src/net/tcp_options.c:137-173 | the same for timestamps and up to four SACK blocks |
| `TcpOptions.SynRoundTrip` | vaigAI/src/net/tcp_options.c:9-125 | parsing the written SYN options recovers all of them, the scale up to 14, if and only if the buffer has room for all |
| `TcpOptions.DataRoundTrip` | vaigAI/src/net/tcp_options.c:9-173 | what is recovered from written data options, for every buffer size: timestamps when they fit, the first four blocks or none |
| `TcpOptions.SackInSegment` | vaigAI/src/net/tcp_options.c:148-166 | in 40 bytes up to four blocks are recovered, except four with timestamps, of which none is |
| `TcpOptions.HeaderAnnounces` | vaigAI/src/net/tcp_options.c:117-124 | in 40 bytes the output is a multiple of four and the data offset announces exactly it |
| `HttpChunks.BuildChunk` | vaigAI/src/app/http11.c:346-361 | the whole frame or an error and no change |
| `HttpChunks.BuildEnd` | vaigAI/src/app/http11.c:363-368 | the end marker or an error and no change |
| `HttpChunks.FindCrlf` | vaigAI/src/app/http11.c:104-112 | the position after the first line end, none exactly when there is none |
| `HttpChunks.RxChunks` | vaigAI/src/app/http11.c:235-255 | the receiving loop on a complete buffer computes the specified reading, with strtoul in full: blanks, sign, 0x prefix, saturation |
| `HttpChunks.StrtoulDigits` | vaigAI/src/app/http11.c:243 | a size line that starts with a digit is its hexadecimal number |
| `HttpChunks.StrtoulForms` | vaigAI/src/app/http11.c:243 | a plus sign and a 0x prefix change nothing, a minus sign negates modulo 2^64, and the value stops at 2^64 - 1 |
| `HttpChunks.StrtoulBlank` | vaigAI/src/app/http11.c:243 | blanks in front of anything change nothing |
| `HttpChunks.StrtoulNothing` | vaigAI/src/app/http11.c:243 | a line that starts with no number is read as 0, which ends the body |
| `HttpChunks.WaitsForBody` | vaigAI/src/app/http11.c:249-251 | a chunk whose body or line end is not there in full is not reported |
| `HttpChunks.WaitsForSize` | vaigAI/src/app/http11.c:240-242 | without a line end nothing is read |
| `HttpChunks.HexRoundTrip` | vaigAI/src/app/http11.c:351 | the size line's number is read back |
| `HttpChunks.HexExact` | vaigAI/src/app/http11.c:351 | the size line is lower-case hexadecimal, most significant digit first, without leading zeros |
| `HttpChunks.ChunkOnTheWire` | vaigAI/src/app/http11.c:346-368 | size line, data and line ends of a frame, and the end marker, octet by octet |
| `HttpChunks.ReadsBack` | vaigAI/src/app/http11.c:235-255 | every list of non-empty chunks and an end marker is read to its end as exactly those chunks |
| `HttpChunks.ChunkedRoundTrip` | vaigAI/src/app/http11.c:235-368 | every chunked body decodes to the chunks put together |
| `ChunkedStream.FrameSize` | vaigAI/src/app/server.c:366-372 | a frame always fits the builder's buffer |
| `ChunkedStream.Streamer.Start` | vaigAI/src/app/server.c:242-250 | the streaming branch queues the headers and starts at zero |
| `ChunkedStream.Streamer.Pump` | vaigAI/src/app/server.c:337-382 | srv_stream_pump on the connection's fields: idle above the high-water mark, next frame, or end |
| `ChunkedStream.HeadersStart` | vaigAI/src/app/server.c:242-250 | from every open connection, on the wheel or not, the streaming branch starts exactly when there is or can be a send buffer, and the headers are queued whole exactly when they fit it |
| `ChunkedStream.PumpKeepsInv` | vaigAI/src/app/server.c:337-382 | an effective pump queues its whole frame in every reachable state |
| `ChunkedStream.StreamedBody` | vaigAI/src/app/server.c:337-382 | from the first pump on and over every interleaving, visits of the wheel and pumps inside the ACK handler before its window update included: no frame is truncated, the receiver has a prefix of headers and chunked body, and the finished body decodes to exactly the configured number of letters after ceil(size / 4096) + 1 pumps |
| `ChunkedRecovery.CanFinish` | vaigAI/src/app/server.c:337-382 | a response with a sign of life, now including a pump below the high-water mark of a record on the wheel, can be finished and delivered whole |
| `ChunkedRecovery.DeadForever` | vaigAI/src/app/server.c:337-382 | a response whose up-to-date sender has none is never finished, however often the wheel visits it |
| `ChunkedRecovery.FinishesExactly` | vaigAI/src/app/server.c:337-382 | in every reachable state: a response can be finished without the client if and only if acknowledgements and visits of the wheel alone lead to a sign of life |
| `ChunkedRecovery.FinishesIff` | vaigAI/src/net/tcp_fsm.c:880-899 | with the sender up to date, or the stream queued and no acknowledgement in between: if and only if there is a sign of life now |
| `ChunkedRecovery.ServingOnWheel` | vaigAI/src/net/tcp_timer.c:167-177 | a passively opened connection that does not stream is on the wheel exactly while its timer is armed |
| `ChunkedRecovery.RecordOnWheel` | vaigAI/src/net/tcp_timer.c:167-177 | on the wheel itself: over every run that reschedules the record after each timer change, it is on a chain exactly while its timer is armed or it streams |
| `ChunkedRecovery.MuteStartIff` | vaigAI/src/app/server.c:242-251 | a response started off the wheel without a transmit, for want of window or because transmits fail, can be finished if and only if an acknowledgement of everything received is owed or under way |
| `ChunkedRecovery.StreamStartWedges` | vaigAI/src/app/server.c:242-251 | from every established connection with a window, opened passively, a run reaches such a start that can never be finished |
| `TokenBucket.Generator.Start` | vaigAI/src/core/tx_gen.c:241-266 | tx_gen_start |
| `TokenBucket.Generator.DoBurst` | vaigAI/src/core/tx_gen.c:274-430 | the control part of tx_gen_burst computes the specification |
| `TokenBucket.RampBelowRate` | vaigAI/src/core/tx_gen.c:316-321 | the ramp never exceeds the configured rate, wrap-around included |
| `TokenBucket.TokensPaidFor` | vaigAI/src/core/tx_gen.c:321-323 | new tokens are paid for by elapsed time at the configured rate, wrap-around included |
| `TokenBucket.RefillExact` | vaigAI/src/core/tx_gen.c:314-331 | where the products fit 64 bits a refill gains the n tokens with n hz <= elapsed * rate < (n + 1) hz, up to 32, and spends the time, ramp-up included |
| `TokenBucket.BurstExact` | vaigAI/src/core/tx_gen.c:274-430 | one burst on the refilled bucket: an end at deadline or limit, otherwise as many as succeed of the tokens that fit under 4096 live connections, each for a token |
| `TokenBucket.TokenBound` | vaigAI/src/core/tx_gen.c:311-430 | over every run: sent and attempted within 32 + rate (t - start) / hz, live connections at most 4096, initiations at most the limit plus 31 |
| `TokenBucket.TokenFloor` | vaigAI/src/core/tx_gen.c:311-430 | the rate is reached: over every run whose bursts succeed and come in time for their tokens to fit the bucket, out plus tokens is more than 32 + rate (t - start) / hz, less one per refill and one |
| `TokenBucket.StopsOnTime` | vaigAI/src/core/tx_gen.c:258-292 | a run with a duration is active until it is over, and then nothing goes out |
| `TokenBucket.FirstBurst` | vaigAI/src/core/tx_gen.c:249-256 | the first burst stays within a limit below 32 if and only if it stops at once, or there is a rate and no token was gained (or the 64-bit sum wraps) |
| `Histogram.BucketBelow` | vaigAI/src/telemetry/histogram.h:37-45 | a sample is in the first i+1 buckets exactly when it is below 2^(i+1) |
| `Histogram.CorrectedExact` | vaigAI/src/telemetry/histogram.h:63-76 | a corrected record adds exactly max(1, us / interval) samples, us - k interval each |
| `Histogram.Recorder.Record` | vaigAI/src/telemetry/histogram.h:41-51 | the fields stay the histogram of all samples recorded |
| `Histogram.EdgesExact` | vaigAI/src/telemetry/histogram.h:49-50 | minimum and maximum are bounds of all samples and attained |
| `Histogram.Recorder.RecordCorrected` | vaigAI/src/telemetry/histogram.h:63-76 | the loop records exactly the corrected samples |
| `Histogram.Recorder.Percentile` | vaigAI/src/telemetry/histogram.c:5-21 | for all 64-bit samples, with k the greatest number that is at most p percent of them (but at least 1): the least power-of-two bound with at least k samples below it; 0 when empty, the maximum when k exceeds the count; any value where k falls into the last bucket, whose bound does not fit |
| `Histogram.PercentilesOrdered` | vaigAI/src/telemetry/histogram.c:5-21 | the percentile is monotone in p |
| `Histogram.PercentileAccurate` | vaigAI/src/telemetry/histogram.c:13-19 | the percentile is above the true sample of its rank and at most twice it |
| `Histogram.PercentileMeans` | vaigAI/src/telemetry/histogram.c:10-19 | on the samples: those below the value and one more are over p percent, those below half of it and one more at most p percent (or there are none) |
| `Histogram.PercentileAccurateFor` | vaigAI/src/telemetry/histogram.c:10-19 | for p: the value is above the sample of the rank p percent ask for and at most twice it |
| `Histogram.Snapshot` | vaigAI/src/telemetry/metrics.c:48-61 | the merged snapshot is the histogram of all workers' samples together |

## Left out

- StreamTransfer.StreamIntegrity: delivery assumes the segment lifetimes named above and honest acknowledgements, which the modelled receiver produces; sends of 2^31 - 4096 bytes or more in one call, which the class covers, are no event of the runs; data runs end before any FIN.
- StreamTransfer.SendMoves: likewise sends of 2^31 - 4096 bytes or more in one call, whose buffer would span half the sequence space.
- Connection.Connection.Send: throughput mode, which bypasses the send buffer, is not modelled.
- Connection.Connection.ReceiveData: what the application does with delivered bytes, and TLS.
- StreamRecovery.CompletesIff: the closed form is for states without an acknowledgement between sender and receiver; with one, where the drain after it starts depends on window and timeout history, and the exact condition is that of `CompletesExactly`.
- ChunkedRecovery.FinishesIff: likewise; while streaming the closed form is for a sender that knows all the receiver has, and otherwise the condition is that of `FinishesExactly`.
- ChunkedRecovery.FinishesExactly: when the wheel visits a record on it, and whether it then finds the timer expired, are inputs; connections are opened passively, so that timer and pump are their only deadlines.
- WheelClock.TwoRevolutions: the first tick is less than 2^32 slots late, beyond which the 32-bit count of elapsed slots is cut.
- NewReno.AvoidanceGrowth: the product of two MSS values is taken as unsigned; in C it is a signed product that overflows for an MSS above 46340.
- ChunkedStream.StreamedBody: a second request arriving while a response is being streamed.
- HttpChunks.RxChunks: resumption on a partial buffer, and the status and header parser.
- TcbStore.TcbTable.Init: failed allocations for want of memory.
- PortPool.WorkerPool.FreePort: 64-bit wrap-around of the cycle counter.
- TokenBucket.Generator.DoBurst: building and sending packets, and the throughput generator; how many opens or packets succeed is an input.
- TokenBucket.TokenFloor: from a start without ramp-up; the refills of a ramp are those of `RefillExact`.
- Histogram.Recorder.Percentile: rounding of the double-precision rank.
- Histogram.Recorder.Record: 64-bit wrap-around of counters and sums.
- ClientSystem.ClientRuns: passive opens, which free ports they never allocated, RSS re-filtering during a run, and opens that let tcp_fsm_connect choose the port.
- TimerWheel.WheelTable.FireTimers: which timer does what is abstracted to any sequence of rescheduling, re-arming and freeing of the visited record; callbacks do not touch other records.
- The delayed-ACK list, CUBIC growth, FIN and handshake states, IPv6 keys, TLS, packet building and device I/O, ARP, NDP and ICMP, REST, CLI, JSON export, pcap, configuration and the Python test harness.
