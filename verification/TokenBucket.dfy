/**
 * Rate control of the traffic generator (tx_gen.c): a token bucket of 32 with
 * optional ramp-up, a limit on live connections and a limit on initiations.
 * Cycle counters and token arithmetic are 64 bits wide. How many opens or
 * transmits of a burst succeed, the live-connection count and the clock are inputs.
 */
module TokenBucket {
  import opened Basics
  import opened SequenceNumbers

  const MAX_BURST: int := 32
  const MAX_INFLIGHT: int := 4096
  const MODULUS64: int := 0x1_0000_0000_0000_0000

  type u64 = x: int | 0 <= x < 0x1_0000_0000_0000_0000

  function Wrap64(x: int): u64 { x % MODULUS64 }

  /** `connects` tells the TCP and HTTP generators, which open connections, from the packet generators. */
  datatype Config = Config(rate: u64, ramp: u32, duration: u32, maxInit: u32, connects: bool)

  datatype Gen = Gen(cfg: Config, active: bool, start: u64, deadline: u64, tokens: u64, last: u64, sent: u64)

  // --------------------------------------------------------------- operations

  /** tx_gen_start */
  function Started(cfg: Config, now: u64, hz: u64): Gen {
    Gen(cfg, true, now, if cfg.duration > 0 then Wrap64(now + Wrap64(cfg.duration * hz)) else 0,
        if 0 < cfg.maxInit < MAX_BURST then cfg.maxInit else MAX_BURST, now, 0)
  }

  /** The configured rate, or the share of it reached so far in the ramp-up. */
  function EffectiveRate(g: Gen, now: u64, hz: u64): (r: u64)
    requires hz > 0
  {
    var age := Wrap64(now - g.start) / hz;
    if g.cfg.ramp > 0 && age < g.cfg.ramp then
      DivisionFits(Wrap64(g.cfg.rate * (age + 1)), g.cfg.ramp);
      Wrap64(g.cfg.rate * (age + 1)) / g.cfg.ramp
    else g.cfg.rate
  }

  lemma DivisionFits(x: u64, d: nat)
    requires d > 0
    ensures 0 <= x / d < MODULUS64
  {
    MulMonotone(1, d, x);
    QuotientAtMost(x, d, x);
  }

  function NewTokens(g: Gen, now: u64, hz: u64): (n: u64)
    requires hz > 0
  {
    DivisionFits(Wrap64(Wrap64(now - g.last) * EffectiveRate(g, now, hz)), hz);
    Wrap64(Wrap64(now - g.last) * EffectiveRate(g, now, hz)) / hz
  }

  function Refill(g: Gen, now: u64, hz: u64): Gen
    requires hz > 0
  {
    var gained := NewTokens(g, now, hz);
    if gained == 0 then g else g.(tokens := Min(Wrap64(g.tokens + gained), MAX_BURST), last := now)
  }

  /** Stopped by the deadline or by the number of initiations. */
  predicate Stops(g: Gen, now: u64) {
    (g.deadline > 0 && now >= g.deadline) || (g.cfg.maxInit > 0 && g.sent >= g.cfg.maxInit)
  }

  /** How much a burst may send after refilling. */
  function Allowance(g: Gen, live: nat): (n: nat) {
    var tokens := if g.cfg.rate > 0 then Wrap(g.tokens) else MAX_BURST;
    if !g.cfg.connects then tokens else if live >= MAX_INFLIGHT then 0 else Min(tokens, MAX_INFLIGHT - live)
  }

  /** Tokens a burst that reached its send loop takes: at least one per attempt to connect. */
  function Consumed(g: Gen, n: nat): nat {
    if g.cfg.rate == 0 then 0 else if g.cfg.connects && n == 0 then 1 else n
  }

  /** tx_gen_burst; the result is the new state and how many packets or connections went out. */
  function Burst(g: Gen, now: u64, hz: u64, live: nat, succeed: nat): (r: (Gen, nat))
    requires hz > 0
  {
    if !g.active then (g, 0)
    else if Stops(g, now) then (g.(active := false), 0)
    else
      var g1 := if g.cfg.rate > 0 then Refill(g, now, hz) else g;
      var limit := Allowance(g1, live);
      if limit == 0 then (g1, 0)
      else
        var n := Min(limit, succeed);
        var c := Consumed(g1, n);
        (g1.(tokens := if c <= g1.tokens then g1.tokens - c else if g1.cfg.connects then 0 else g1.tokens,
             sent := Wrap64(g1.sent + n)), n)
  }

  /** The generator's mutable state. */
  class Generator {
    const cfg: Config
    var active: bool
    var start: u64
    var deadline: u64
    var tokens: u64
    var last: u64
    var sent: u64

    function View(): Gen
      reads this
    {
      Gen(cfg, active, start, deadline, tokens, last, sent)
    }

    constructor (c: Config)
      ensures cfg == c && !active
    {
      cfg, active, start, deadline, tokens, last, sent := c, false, 0, 0, 0, 0, 0;
    }

    method Start(now: u64, hz: u64)
      modifies this
      ensures View() == Started(cfg, now, hz)
    {
      start, last, sent := now, now, 0;
      if cfg.maxInit > 0 && cfg.maxInit < MAX_BURST { tokens := cfg.maxInit; } else { tokens := MAX_BURST; }
      deadline := 0;
      if cfg.duration > 0 { deadline := Wrap64(now + Wrap64(cfg.duration * hz)); }
      active := true;
    }

    method TakeNewTokens(now: u64, hz: u64)
      requires hz > 0
      modifies this`tokens, this`last
      ensures View() == Refill(old(View()), now, hz)
    {
      hide Wrap64;
      var rate := cfg.rate;
      if cfg.ramp > 0 {
        var age := Wrap64(now - start) / hz;
        if age < cfg.ramp { rate := Wrap64(cfg.rate * (age + 1)) / cfg.ramp; }
      }
      var elapsed := Wrap64(now - last);
      var gained := Wrap64(elapsed * rate) / hz;
      if gained > 0 {
        tokens := Wrap64(tokens + gained);
        last := now;
        if tokens > MAX_BURST { tokens := MAX_BURST; }
      }
    }

    method DoBurst(now: u64, hz: u64, live: nat, succeed: nat) returns (n: nat)
      requires hz > 0
      modifies this
      ensures (View(), n) == Burst(old(View()), now, hz, live, succeed)
    {
      hide Wrap64, Refill;
      if !active { return 0; }
      if deadline > 0 && now >= deadline {
        active := false;
        return 0;
      }
      if cfg.maxInit > 0 && sent >= cfg.maxInit {
        active := false;
        return 0;
      }
      var toSend := MAX_BURST;
      if cfg.rate > 0 {
        TakeNewTokens(now, hz);
        toSend := Wrap(tokens);
        if toSend == 0 { return 0; }
      }
      if cfg.connects {
        if live >= MAX_INFLIGHT { return 0; }
        toSend := Min(toSend, MAX_INFLIGHT - live);
      }
      n := Min(toSend, succeed);           // the first open or packet that fails ends the loop
      sent := Wrap64(sent + n);
      if cfg.rate > 0 {
        var consumed := if cfg.connects && n == 0 then 1 else n;
        if consumed <= tokens { tokens := tokens - consumed; } else if cfg.connects { tokens := 0; }
      }
    }
  }

  // ------------------------------------------------------------- one refill

  lemma Wrap64Small(x: int)
    requires 0 <= x < MODULUS64
    ensures Wrap64(x) == x
  {
  }

  lemma Wrap64Once(x: int)
    requires MODULUS64 <= x < 2 * MODULUS64
    ensures Wrap64(x) == x - MODULUS64
  {
  }

  lemma Wrap64AtMost(x: nat)
    ensures Wrap64(x) <= x
  {
  }

  lemma ShareBelow(w: nat, rate: nat, age: nat, ramp: nat)
    requires age < ramp && w <= rate * (age + 1)
    ensures w / ramp <= rate
  {
    var q := w / ramp;
    QuotientWithin(w, ramp);
    MulMonotone(age + 1, ramp, rate);
    assert rate * (age + 1) == (age + 1) * rate && ramp * rate == rate * ramp;
    CancelFactor(q, rate, ramp);
  }

  /** The ramp never exceeds the configured rate, even where its product wraps. */
  lemma RampBelowRate(g: Gen, now: u64, hz: u64)
    requires hz > 0
    ensures EffectiveRate(g, now, hz) <= g.cfg.rate
  {
    hide Wrap64;
    var age := Wrap64(now - g.start) / hz;
    if g.cfg.ramp > 0 && age < g.cfg.ramp {
      Wrap64AtMost(g.cfg.rate * (age + 1));
      ShareBelow(Wrap64(g.cfg.rate * (age + 1)), g.cfg.rate, age, g.cfg.ramp);
    }
  }

  /** New tokens are paid for by the elapsed time at the configured rate, wrap-around or not. */
  lemma TokensPaidFor(g: Gen, now: u64, hz: u64)
    requires hz > 0 && g.last <= now
    ensures NewTokens(g, now, hz) * hz <= (now - g.last) * g.cfg.rate
  {
    RampBelowRate(g, now, hz);
    Wrap64Small(now - g.last);
    hide Wrap64, EffectiveRate;
    var elapsed: nat := now - g.last;
    var rate := EffectiveRate(g, now, hz);
    Wrap64AtMost(elapsed * rate);
    QuotientWithin(Wrap64(elapsed * rate), hz);
    MulMonotone(rate, g.cfg.rate, elapsed);
  }

  /** The rate in force: the configured one, or in the ramp-up the share of it for the seconds begun. */
  predicate IsRate(g: Gen, now: u64, hz: u64, rate: nat)
    requires hz > 0
  {
    var age := (now - g.start) / hz;
    if age >= g.cfg.ramp then rate == g.cfg.rate
    else rate * g.cfg.ramp <= g.cfg.rate * (age + 1) < (rate + 1) * g.cfg.ramp
  }

  lemma RateIsExact(g: Gen, now: u64, hz: u64, rate: nat)
    requires hz > 0 && g.start <= now && IsRate(g, now, hz, rate) && g.cfg.rate * ((now - g.start) / hz + 1) < MODULUS64
    ensures EffectiveRate(g, now, hz) == rate
  {
    Wrap64Small(now - g.start);
    var age := (now - g.start) / hz;
    var product := g.cfg.rate * (age + 1);
    Wrap64Small(product);
    hide Wrap64;
    if age < g.cfg.ramp { QuotientIs(product, g.cfg.ramp, rate); }
  }

  lemma QuotientIs(x: nat, d: nat, q: nat)
    requires d > 0 && q * d <= x < (q + 1) * d
    ensures x / d == q
  {
    assert (q + 1) * d == q * d + d;
    QuotientUnique(x, d, q, x - q * d);
  }

  /**
   * A refill is exact: where the products fit 64 bits it gains the n tokens for
   * which n hz <= elapsed * rate < (n + 1) hz, up to a full bucket of 32, and
   * the time that was paid for is spent; with less than one token's time nothing changes.
   */
  lemma RefillExact(g: Gen, now: u64, hz: u64, rate: nat, n: nat)
    requires hz > 0 && g.start <= now && g.last <= now && g.tokens <= MAX_BURST && IsRate(g, now, hz, rate)
    requires g.cfg.rate * ((now - g.start) / hz + 1) < MODULUS64 && (now - g.last) * rate < MODULUS64 - MAX_BURST
    requires n * hz <= (now - g.last) * rate < (n + 1) * hz
    ensures Refill(g, now, hz) == if n == 0 then g else g.(tokens := if g.tokens + n > 32 then 32 else g.tokens + n, last := now)
  {
    RateIsExact(g, now, hz, rate);
    Wrap64Small(now - g.last);
    Wrap64Small((now - g.last) * rate);
    hide Wrap64, EffectiveRate, IsRate;
    QuotientIs((now - g.last) * rate, hz, n);
    MulMonotone(1, hz, n);
    Wrap64Small(g.tokens + n);
  }

  // --------------------------------------------------------------- whole runs

  /** A generator with its worker's live connections, the clock, and totals that no code reads. */
  datatype Load = Load(g: Gen, live: nat, now: u64, out: nat, attempts: nat, spent: nat)

  datatype Event =
    | BurstAt(at: u64, succeed: nat)
    | Closed                          // a connection of this worker went away

  /** The generator after refilling, and whether the burst gets to its send loop. */
  function Refilled(g: Gen, now: u64, hz: u64): Gen
    requires hz > 0
  {
    if g.cfg.rate > 0 then Refill(g, now, hz) else g
  }

  predicate Enters(g: Gen, now: u64, hz: u64, live: nat)
    requires hz > 0
  {
    g.active && !Stops(g, now) && Allowance(Refilled(g, now, hz), live) > 0
  }

  /** Time does not go back. */
  function Step(l: Load, hz: u64, e: Event): Load
    requires hz > 0
  {
    match e
    case Closed => if l.live > 0 then l.(live := l.live - 1) else l
    case BurstAt(at, succeed) =>
      if at < l.now then l
      else
        var (g, n) := Burst(l.g, at, hz, l.live, succeed);
        if !Enters(l.g, at, hz, l.live) then l.(g := g, now := at)
        else Load(g, if g.cfg.connects then l.live + n else l.live, at, l.out + n, l.attempts + 1,
                  l.spent + Max(n, Consumed(g, n)))
  }

  function Exec(l: Load, hz: u64, es: seq<Event>): Load
    requires hz > 0
    decreases |es|
  {
    if es == [] then l else Exec(Step(l, hz, es[0]), hz, es[1..])
  }

  /** Everything granted, spent or still in the bucket, is within the first allowance and the refill since. */
  ghost predicate Budget(g: Gen, spent: nat, hz: u64) {
    (spent + g.tokens) * hz <= MAX_BURST * hz + (g.last - g.start) * g.cfg.rate
  }

  ghost predicate Paid(l: Load, hz: u64) {
    && l.g.start <= l.g.last <= l.now && l.g.tokens <= MAX_BURST
    && l.g.sent == Wrap64(l.out) && l.out <= l.spent
    && (l.g.cfg.rate > 0 ==> Budget(l.g, l.spent, hz))
    && (l.g.cfg.rate > 0 && l.g.cfg.connects ==> l.attempts <= l.spent)
    && (l.g.cfg.maxInit > 0 ==> l.out < l.g.cfg.maxInit + MAX_BURST)
  }

  lemma RefillPays(g: Gen, now: u64, hz: u64, spent: nat)
    requires hz > 0 && g.start <= g.last <= now && g.tokens <= MAX_BURST && Budget(g, spent, hz)
    ensures var g' := Refill(g, now, hz);
            && g'.start <= g'.last <= now && g'.tokens <= MAX_BURST && Budget(g', spent, hz)
            && g' == g.(tokens := g'.tokens, last := g'.last)
  {
    var gained := NewTokens(g, now, hz);
    TokensPaidFor(g, now, hz);
    Wrap64AtMost(g.tokens + gained);
    hide Wrap64, NewTokens;
    var g' := Refill(g, now, hz);
    if gained > 0 { BudgetGrows(spent, g.tokens, gained, g'.tokens, hz, g.last - g.start, now - g.last, g.cfg.rate); }
  }

  lemma BudgetGrows(spent: nat, tokens: nat, gained: nat, after: nat, hz: nat, past: nat, elapsed: nat, rate: nat)
    requires after <= tokens + gained && gained * hz <= elapsed * rate
    requires (spent + tokens) * hz <= MAX_BURST * hz + past * rate
    ensures (spent + after) * hz <= MAX_BURST * hz + (past + elapsed) * rate
  {
    MulMonotone(spent + after, spent + tokens + gained, hz);
    assert (spent + tokens + gained) * hz == (spent + tokens) * hz + gained * hz;
    assert (past + elapsed) * rate == past * rate + elapsed * rate;
  }

  /** What a burst that enters its send loop does to the refilled generator. */
  lemma BurstEnters(g: Gen, now: u64, hz: u64, live: nat, succeed: nat)
    requires hz > 0 && Enters(g, now, hz, live)
    requires Refilled(g, now, hz).tokens <= MAX_BURST
    ensures var g1 := Refilled(g, now, hz);
            var (g', n) := Burst(g, now, hz, live, succeed);
            && n <= Allowance(g1, live) <= MAX_BURST && (g.cfg.connects ==> live + n <= MAX_INFLIGHT)
            && g' == g1.(tokens := g'.tokens, sent := Wrap64(g1.sent + n))
            && (g.cfg.rate > 0 ==> Consumed(g1, n) == Max(n, Consumed(g1, n)) && g'.tokens + Consumed(g1, n) == g1.tokens)
            && g'.tokens <= g1.tokens
  {
    WrapSmall(Refilled(g, now, hz).tokens);
    hide Refill, Wrap64, Wrap;
  }

  lemma Wrap64Sum(x: int, y: int)
    ensures Wrap64(Wrap64(x) + y) == Wrap64(x + y)
  {
    var d := (x - x % MODULUS64) / MODULUS64;
    assert x + y == Wrap64(x) + y + d * MODULUS64;
    Wrap64Shift(Wrap64(x) + y, d);
  }

  lemma {:induction false} Wrap64Shift(x: int, d: int)
    ensures Wrap64(x + d * MODULUS64) == Wrap64(x)
  {
    assert x + d * MODULUS64 == (x / MODULUS64 + d) * MODULUS64 + x % MODULUS64;
  }

  lemma RefilledPaid(l: Load, now: u64, hz: u64)
    requires hz > 0 && Paid(l, hz) && l.now <= now
    ensures var g1 := Refilled(l.g, now, hz);
            && Paid(l.(g := g1, now := now), hz) && g1 == l.g.(tokens := g1.tokens, last := g1.last)
  {
    hide Budget, Refill, Wrap64;
    if l.g.cfg.rate > 0 { RefillPays(l.g, now, hz, l.spent); }
  }

  lemma {:induction false} BurstKeepsPaid(l: Load, hz: u64, at: u64, succeed: nat)
    requires hz > 0 && Paid(l, hz) && l.now <= at
    ensures Paid(Step(l, hz, BurstAt(at, succeed)), hz)
    ensures l.live <= MAX_INFLIGHT ==> Step(l, hz, BurstAt(at, succeed)).live <= MAX_INFLIGHT
  {
    RefilledPaid(l, at, hz);
    var g1 := Refilled(l.g, at, hz);
    if Enters(l.g, at, hz, l.live) {
      hide Refilled, Burst, Wrap64, Allowance, Budget;
      WithinInitiations(l, at, hz);
      hide Enters;
      BurstEnters(l.g, at, hz, l.live, succeed);
      var (g', n) := Burst(l.g, at, hz, l.live, succeed);
      Wrap64Sum(l.out, n);
      if l.g.cfg.rate > 0 { BudgetMoves(g1, g', l.spent, Consumed(g1, n), hz); }
    } else {
      hide Wrap64, Refill, Allowance, Budget;
    }
  }

  /** Spending a token moves it from the bucket to what was spent. */
  lemma BudgetMoves(g: Gen, g': Gen, spent: nat, c: nat, hz: u64)
    requires Budget(g, spent, hz) && g'.tokens + c == g.tokens && g'.last == g.last && g'.start == g.start && g'.cfg == g.cfg
    ensures Budget(g', spent + c, hz)
  {
    assert spent + c + g'.tokens == spent + g.tokens;
  }

  /** A burst is started only while fewer than the maximum have been initiated. */
  lemma WithinInitiations(l: Load, at: u64, hz: u64)
    requires hz > 0 && Paid(l, hz) && Enters(l.g, at, hz, l.live)
    ensures l.g.cfg.maxInit > 0 ==> l.out < l.g.cfg.maxInit
  {
    if l.g.cfg.maxInit > 0 { Wrap64Small(l.out); }
    hide Wrap64, Budget, Allowance, Refilled;
  }

  lemma {:induction false} RunStaysPaid(l: Load, hz: u64, es: seq<Event>)
    requires hz > 0 && Paid(l, hz) && l.live <= MAX_INFLIGHT
    ensures var z := Exec(l, hz, es);
            Paid(z, hz) && z.live <= MAX_INFLIGHT && z.g.cfg == l.g.cfg && z.g.start == l.g.start
    decreases |es|
  {
    if es != [] {
      var e := es[0];
      if e.BurstAt? && e.at >= l.now { BurstKeepsPaid(l, hz, e.at, e.succeed); }
      StepKeepsConfig(l, hz, e);
      hide Paid, Budget, Burst, Enters;
      assert Paid(Step(l, hz, e), hz);
      RunStaysPaid(Step(l, hz, e), hz, es[1..]);
    }
  }

  lemma StepKeepsConfig(l: Load, hz: u64, e: Event)
    requires hz > 0
    ensures Step(l, hz, e).g.cfg == l.g.cfg && Step(l, hz, e).g.start == l.g.start
    ensures !e.BurstAt? || e.at < l.now ==> Step(l, hz, e) == l.(live := Step(l, hz, e).live) && Step(l, hz, e).live <= l.live
  {
    hide NewTokens, Wrap64, Allowance;
  }

  /**
   * The token bucket over every run of bursts and closes from a start at a
   * fixed rate, ramp-up and 64-bit wrap-around included: by time t at most
   * 32 + rate * (t - start) / hz packets or connections went out, and no more
   * connection attempts were made; the worker's live connections stay within
   * 4096; and a limit on initiations is overshot by at most 31.
   */
  lemma TokenBound(cfg: Config, start: u64, hz: u64, live: nat, es: seq<Event>)
    requires hz > 0 && live <= MAX_INFLIGHT
    ensures var z := Exec(Load(Started(cfg, start, hz), live, start, 0, 0, 0), hz, es);
            && (cfg.rate > 0 ==> z.out * hz <= MAX_BURST * hz + (z.now - start) * cfg.rate)
            && (cfg.rate > 0 && cfg.connects ==> z.attempts * hz <= MAX_BURST * hz + (z.now - start) * cfg.rate)
            && z.live <= MAX_INFLIGHT
            && (cfg.maxInit > 0 ==> z.out <= cfg.maxInit - 1 + MAX_BURST)
  {
    var l := Load(Started(cfg, start, hz), live, start, 0, 0, 0);
    assert Paid(l, hz) by {
      Wrap64Small(0);
      MulMonotone(l.g.tokens, MAX_BURST, hz);
      hide Wrap64;
    }
    hide Started, Wrap64;
    assert l.g.cfg == cfg && l.g.start == start;
    RunStaysPaid(l, hz, es);
    var z := Exec(l, hz, es);
    if cfg.rate > 0 {
      MulMonotone(z.out, z.spent + z.g.tokens, hz);
      if cfg.connects { MulMonotone(z.attempts, z.spent + z.g.tokens, hz); }
      MulMonotone(z.g.last - start, z.now - start, cfg.rate);
    }
    hide Exec;
  }

  // ------------------------------------------------------------- from below

  /** Nothing but the rate holds the generator back: no deadline, no limit, and the ramp is over. */
  predicate Steady(g: Gen, now: nat, hz: u64)
    requires hz > 0
  {
    && g.active && g.deadline == 0 && g.cfg.maxInit == 0 && g.cfg.rate > 0 && g.tokens <= MAX_BURST
    && g.start <= g.last <= now && (now - g.start) / hz >= g.cfg.ramp
  }

  /** What has accrued by then fits the bucket, and the products fit 64 bits. */
  predicate Fits(g: Gen, at: nat, hz: u64)
    requires hz > 0
  {
    && g.last <= at && g.start <= at && (at - g.last) * g.cfg.rate < (MAX_BURST + 1 - g.tokens) * hz
    && (at - g.last) * g.cfg.rate < MODULUS64 - MAX_BURST && g.cfg.rate * ((at - g.start) / hz + 1) < MODULUS64
  }

  /** Every burst comes in time for its tokens to fit the bucket, and all its attempts succeed. */
  predicate Unhindered(l: Load, hz: u64, es: seq<Event>)
    requires hz > 0
    decreases |es|
  {
    es == [] ||
    (&& (es[0].BurstAt? ==> l.now <= es[0].at && es[0].succeed >= MAX_BURST && Fits(l.g, es[0].at, hz))
     && Unhindered(Step(l, hz, es[0]), hz, es[1..]))
  }

  /** How often the run refills the bucket. */
  function Refills(l: Load, hz: u64, es: seq<Event>): nat
    requires hz > 0
    decreases |es|
  {
    if es == [] then 0
    else (if Step(l, hz, es[0]).g.last != l.g.last then 1 else 0) + Refills(Step(l, hz, es[0]), hz, es[1..])
  }

  /** Out plus tokens has kept up with the time paid for, but for a part of a token per refill. */
  ghost predicate KeepsUp(l: Load, z: Load, refills: nat, hz: u64) {
    (z.out + z.g.tokens + refills) * hz >= (l.out + l.g.tokens) * hz + (z.g.last - l.g.last) * l.g.cfg.rate
  }

  /** Less than one token's time has passed since the last refill. */
  predicate Recent(l: Load, hz: u64) { (l.now - l.g.last) * l.g.cfg.rate < hz }

  /** The same for one refill. */
  predicate RefillUp(g: Gen, g1: Gen, hz: u64) {
    (g1.tokens + if g1.last != g.last then 1 else 0) * hz >= g.tokens * hz + (g1.last - g.last) * g.cfg.rate
  }

  predicate RecentAt(g: Gen, at: u64, hz: u64) { (at - g.last) * g.cfg.rate < hz }

  lemma RefillKeepsUp(g: Gen, at: u64, hz: u64)
    requires hz > 0 && Steady(g, at, hz) && Fits(g, at, hz)
    ensures var g1 := Refilled(g, at, hz);
            && g1 == g.(tokens := g1.tokens, last := g1.last) && g.last <= g1.last <= at && g1.tokens <= MAX_BURST
            && RecentAt(g1, at, hz) && RefillUp(g, g1, hz)
  {
    hide Refilled, Fits;
    var n := SteadyRefill(g, at, hz);
    UpByTokens(g, Refilled(g, at, hz), at, hz, n);
    hide RefillUp, RecentAt;
  }

  /** The refill of a steady generator. */
  lemma SteadyRefill(g: Gen, at: u64, hz: u64) returns (n: nat)
    requires hz > 0 && Steady(g, at, hz) && Fits(g, at, hz)
    ensures n * hz <= (at - g.last) * g.cfg.rate < (n + 1) * hz && g.tokens + n <= MAX_BURST
    ensures Refilled(g, at, hz) == if n == 0 then g else g.(tokens := g.tokens + n, last := at)
  {
    n := TokensFor((at - g.last) * g.cfg.rate, g.tokens, hz);
    SteadyRate(g, at, hz);
    hide IsRate, Refill;
    SteadyExact(g, at, hz, n);
  }

  lemma SteadyExact(g: Gen, at: u64, hz: u64, n: nat)
    requires hz > 0 && Steady(g, at, hz) && Fits(g, at, hz) && IsRate(g, at, hz, g.cfg.rate)
    requires n * hz <= (at - g.last) * g.cfg.rate < (n + 1) * hz
    ensures Refilled(g, at, hz) == Refill(g, at, hz)
    ensures Refill(g, at, hz) == if n == 0 then g else g.(tokens := if g.tokens + n > 32 then 32 else g.tokens + n, last := at)
  {
    hide IsRate, Refill;
    RefillExact(g, at, hz, g.cfg.rate, n);
  }

  lemma TokensFor(x: nat, tokens: nat, hz: nat) returns (n: nat)
    requires hz > 0 && tokens <= MAX_BURST && x < (MAX_BURST + 1 - tokens) * hz
    ensures n * hz <= x < (n + 1) * hz && tokens + n <= MAX_BURST
  {
    n := x / hz;
    QuotientWithin(x, hz);
    NextMultiple(n, hz);
    TokensFit(n, x, tokens, hz);
  }

  lemma UpByTokens(g: Gen, g1: Gen, at: u64, hz: u64, n: nat)
    requires g.last <= at && n * hz <= (at - g.last) * g.cfg.rate < (n + 1) * hz && hz > 0
    requires if n == 0 then g1 == g else g1.cfg == g.cfg && g1.tokens == g.tokens + n && g1.last == at
    ensures RecentAt(g1, at, hz) && RefillUp(g, g1, hz)
  {
    if n == 0 {
      assert (g.tokens + 0) * hz == g.tokens * hz && (g1.last - g.last) * g.cfg.rate == 0;
    } else {
      RefillAdds(g.tokens, n, (at - g.last) * g.cfg.rate, hz);
      MulMonotone(1, n, hz);
      assert at == g.last ==> (at - g.last) * g.cfg.rate == 0;
      assert (at - g1.last) * g1.cfg.rate == 0;
    }
  }

  lemma NextMultiple(n: nat, hz: nat)
    ensures (n + 1) * hz == n * hz + hz
  {
  }

  lemma SteadyRate(g: Gen, at: u64, hz: u64)
    requires hz > 0 && Steady(g, at, hz)
    ensures IsRate(g, at, hz, g.cfg.rate)
  {
  }

  lemma RefillAdds(tokens: nat, n: nat, x: nat, hz: nat)
    requires x < (n + 1) * hz
    ensures (tokens + n + 1) * hz >= tokens * hz + x
  {
    assert (tokens + (n + 1)) * hz == tokens * hz + (n + 1) * hz;
  }

  lemma TokensFit(n: nat, x: nat, tokens: nat, hz: nat)
    requires hz > 0 && n * hz <= x < (MAX_BURST + 1 - tokens) * hz && tokens <= MAX_BURST
    ensures tokens + n <= MAX_BURST
  {
    if n >= MAX_BURST + 1 - tokens { MulMonotone(MAX_BURST + 1 - tokens, n, hz); }
  }

  lemma BurstKeepsUp(l: Load, hz: u64, at: u64, succeed: nat)
    requires hz > 0 && l.now <= at && Steady(l.g, l.now, hz) && Fits(l.g, at, hz) && succeed >= MAX_BURST
    ensures var z := Step(l, hz, BurstAt(at, succeed));
            && Steady(z.g, z.now, hz) && z.now == at && z.g.cfg == l.g.cfg && z.g.last >= l.g.last && Recent(z, hz)
            && KeepsUp(l, z, if z.g.last != l.g.last then 1 else 0, hz)
  {
    SteadyLater(l.g, l.now, at, hz);
    RefillKeepsUp(l.g, at, hz);
    BurstTotals(l, hz, at, succeed);
    var g1 := Refilled(l.g, at, hz);
    var z := Step(l, hz, BurstAt(at, succeed));
    hide Refilled, Step, Fits, RefillUp, RecentAt;
    SteadyAfter(l.g, g1, z.g, at, hz);
    hide Steady;
    UpAfter(l, g1, z, hz);
  }

  lemma UpAfter(l: Load, g1: Gen, z: Load, hz: u64)
    requires RefillUp(l.g, g1, hz) && RecentAt(g1, z.now, hz) && z.out + z.g.tokens == l.out + g1.tokens
    requires z.g.last == g1.last && z.g.cfg == g1.cfg == l.g.cfg
    ensures Recent(z, hz) && KeepsUp(l, z, if z.g.last != l.g.last then 1 else 0, hz)
  {
    SameTotal(z.out, z.g.tokens, l.out, g1.tokens, if g1.last != l.g.last then 1 else 0, hz);
    assert (l.out + l.g.tokens) * hz == l.out * hz + l.g.tokens * hz;
  }

  lemma SteadyLater(g: Gen, now: u64, at: u64, hz: u64)
    requires hz > 0 && Steady(g, now, hz) && now <= at
    ensures Steady(g, at, hz)
  {
    AgeGrows(at - g.start, now - g.start, hz);
  }

  lemma SteadyAfter(g: Gen, g1: Gen, g': Gen, at: u64, hz: u64)
    requires hz > 0 && Steady(g, at, hz) && g1 == g.(tokens := g1.tokens, last := g1.last) && g.last <= g1.last <= at
    requires g1.tokens <= MAX_BURST && g' == g1.(tokens := g'.tokens, sent := g'.sent) && g'.tokens <= g1.tokens
    ensures Steady(g', at, hz)
  {
  }

  /** A burst moves tokens out, one for each packet or connection. */
  lemma BurstTotals(l: Load, hz: u64, at: u64, succeed: nat)
    requires hz > 0 && l.now <= at && Steady(l.g, at, hz) && succeed >= MAX_BURST
    requires Refilled(l.g, at, hz).tokens <= MAX_BURST
    ensures var g1 := Refilled(l.g, at, hz);
            var z := Step(l, hz, BurstAt(at, succeed));
            && z.now == at && z.out + z.g.tokens == l.out + g1.tokens
            && z.g == g1.(tokens := z.g.tokens, sent := z.g.sent) && z.g.tokens <= g1.tokens
  {
    assert !Stops(l.g, at);
    if Enters(l.g, at, hz, l.live) {
      BurstEnters(l.g, at, hz, l.live, succeed);
      AllGoOut(l.g, at, hz, l.live, succeed);
      hide Burst, Enters, Refilled, Allowance, Consumed, Wrap64;
    } else {
      hide Refill;
    }
  }

  lemma AgeGrows(x: nat, y: nat, hz: nat)
    requires hz > 0 && y <= x
    ensures x / hz >= y / hz
  {
    QuotientWithin(y, hz);
    QuotientAtLeast(x, hz, y / hz);
  }

  lemma SameTotal(out': nat, tokens': nat, out: nat, tokens1: nat, more: nat, hz: nat)
    requires out' + tokens' == out + tokens1
    ensures (out' + tokens' + more) * hz == out * hz + (tokens1 + more) * hz
  {
    assert (out + (tokens1 + more)) * hz == out * hz + (tokens1 + more) * hz;
  }

  /** A burst whose attempts succeed sends what it may and takes a token for each. */
  lemma AllGoOut(g: Gen, now: u64, hz: u64, live: nat, succeed: nat)
    requires hz > 0 && Enters(g, now, hz, live) && succeed >= MAX_BURST && g.cfg.rate > 0
    requires Refilled(g, now, hz).tokens <= MAX_BURST
    ensures var n := Burst(g, now, hz, live, succeed).1;
            n == Allowance(Refilled(g, now, hz), live) && Consumed(Refilled(g, now, hz), n) == n
  {
    BurstEnters(g, now, hz, live, succeed);
    hide Refill, Wrap64, Wrap;
  }

  lemma {:induction false} RunKeepsUp(l: Load, hz: u64, es: seq<Event>)
    requires hz > 0 && Steady(l.g, l.now, hz) && Recent(l, hz) && Unhindered(l, hz, es)
    ensures var z := Exec(l, hz, es);
            && Steady(z.g, z.now, hz) && Recent(z, hz) && z.g.cfg == l.g.cfg && z.g.last >= l.g.last
            && KeepsUp(l, z, Refills(l, hz, es), hz)
    decreases |es|
  {
    if es != [] {
      var e := es[0];
      var x := Step(l, hz, e);
      if e.BurstAt? { BurstKeepsUp(l, hz, e.at, e.succeed); }
      hide Step, Steady, Recent, Fits, KeepsUp;
      assert Steady(x.g, x.now, hz) && Recent(x, hz) && x.g.cfg == l.g.cfg && x.g.last >= l.g.last by { ClosedSteady(l, hz, e); }
      RunKeepsUp(x, hz, es[1..]);
      FirstKeepsUp(l, hz, e, x);
      UpChain(l, x, Exec(x, hz, es[1..]), if x.g.last != l.g.last then 1 else 0, Refills(x, hz, es[1..]), hz);
    }
  }

  lemma ClosedSteady(l: Load, hz: u64, e: Event)
    requires hz > 0 && Steady(l.g, l.now, hz) && Recent(l, hz)
    ensures e.Closed? ==> Steady(Step(l, hz, e).g, Step(l, hz, e).now, hz) && Recent(Step(l, hz, e), hz)
                          && Step(l, hz, e).g == l.g && Step(l, hz, e).out == l.out
  {
  }

  lemma FirstKeepsUp(l: Load, hz: u64, e: Event, x: Load)
    requires hz > 0 && Steady(l.g, l.now, hz) && Recent(l, hz) && x == Step(l, hz, e)
    requires e.BurstAt? ==> l.now <= e.at && e.succeed >= MAX_BURST && Fits(l.g, e.at, hz)
    ensures KeepsUp(l, x, if x.g.last != l.g.last then 1 else 0, hz)
  {
    if e.BurstAt? {
      hide Step, Steady, Recent, Fits, KeepsUp;
      BurstKeepsUp(l, hz, e.at, e.succeed);
    } else {
      ClosedSteady(l, hz, e);
    }
  }

  lemma UpChain(l: Load, x: Load, z: Load, a: nat, b: nat, hz: u64)
    requires KeepsUp(l, x, a, hz) && KeepsUp(x, z, b, hz) && x.g.cfg == l.g.cfg
    ensures KeepsUp(l, z, a + b, hz)
  {
    assert (z.out + z.g.tokens + a + b) * hz == (z.out + z.g.tokens + b) * hz + a * hz;
    assert (x.out + x.g.tokens + a) * hz == (x.out + x.g.tokens) * hz + a * hz;
    assert (z.g.last - x.g.last) * l.g.cfg.rate + (x.g.last - l.g.last) * l.g.cfg.rate == (z.g.last - l.g.last) * l.g.cfg.rate;
  }

  /**
   * The rate is reached: over every run from a start without deadline, limit or
   * ramp whose bursts come in time for their tokens to fit the bucket and
   * succeed, what went out and the tokens left are more than
   * 32 + rate * (t - start) / hz, less one for every refill and one more.
   */
  lemma TokenFloor(cfg: Config, start: u64, hz: u64, live: nat, es: seq<Event>)
    requires hz > 0 && cfg.rate > 0 && cfg.ramp == 0 && cfg.duration == 0 && cfg.maxInit == 0
    requires Unhindered(Load(Started(cfg, start, hz), live, start, 0, 0, 0), hz, es)
    ensures var l := Load(Started(cfg, start, hz), live, start, 0, 0, 0);
            var z := Exec(l, hz, es);
            (z.out + z.g.tokens + Refills(l, hz, es) + 1) * hz > 32 * hz + (z.now - start) * cfg.rate
  {
    var l := Load(Started(cfg, start, hz), live, start, 0, 0, 0);
    assert Steady(l.g, l.now, hz) && Recent(l, hz) by { hide Wrap64; }
    assert l.g.tokens == MAX_BURST && l.g.last == start && l.g.cfg == cfg;
    hide Started, Steady, Unhindered, Exec, Refills;
    RunKeepsUp(l, hz, es);
    var z := Exec(l, hz, es);
    var total := z.out + z.g.tokens + Refills(l, hz, es);
    assert (total + 1) * hz == total * hz + hz;
    assert (z.now - start) * cfg.rate == (z.now - z.g.last) * cfg.rate + (z.g.last - start) * cfg.rate;
  }

  /**
   * One burst, spelled out on the refilled bucket: nothing when inactive, an end
   * when deadline or limit is reached, and otherwise as many as succeed of the
   * tokens (32 without a rate) that fit under 4096 live connections, each for a
   * token, and one token for a burst of connections in which none succeeds.
   */
  lemma BurstExact(g: Gen, now: u64, hz: u64, live: nat, succeed: nat)
    requires hz > 0 && Refilled(g, now, hz).tokens <= MAX_BURST
    ensures var g1 := Refilled(g, now, hz);
            var (g', n) := Burst(g, now, hz, live, succeed);
            var may := if g.cfg.rate == 0 then 32 else g1.tokens;
            var room := if !g.cfg.connects then may else if live >= 4096 then 0 else 4096 - live;
            if !g.active then n == 0 && g' == g
            else if (0 < g.deadline <= now) || (0 < g.cfg.maxInit <= g.sent) then n == 0 && g' == g.(active := false)
            else && n == Min(Min(may, room), succeed)
                 && g' == g1.(tokens := g'.tokens, sent := Wrap64(g1.sent + n))
                 && g'.tokens == g1.tokens - (if g.cfg.rate == 0 then 0
                                              else if n == 0 && g.cfg.connects && may > 0 && room > 0 then 1 else n)
  {
    WrapSmall(Refilled(g, now, hz).tokens);
    Wrap64Small(0);
    hide Refill, Wrap, NewTokens;
    var g1 := Refilled(g, now, hz);
    assert g1.sent == g.sent && Wrap64(g1.sent + 0) == g1.sent by { RefilledSent(g, now, hz); Wrap64Small(g.sent); }
    hide Wrap64, Refilled;
  }

  lemma RefilledSent(g: Gen, now: u64, hz: u64)
    requires hz > 0
    ensures Refilled(g, now, hz).sent == g.sent
  {
    hide NewTokens, Wrap64;
  }

  /** A run keeps its deadline, and without a limit on initiations it stays active until then. */
  lemma {:induction false} RunKeepsDeadline(l: Load, hz: u64, es: seq<Event>)
    requires hz > 0
    ensures var z := Exec(l, hz, es);
            && z.g.deadline == l.g.deadline && z.g.cfg == l.g.cfg && z.now >= l.now
            && (l.g.active && l.g.cfg.maxInit == 0 && l.g.deadline > z.now ==> z.g.active)
    decreases |es|
  {
    if es != [] {
      StepKeepsDeadline(l, hz, es[0]);
      hide Step;
      RunKeepsDeadline(Step(l, hz, es[0]), hz, es[1..]);
    }
  }

  lemma StepKeepsDeadline(l: Load, hz: u64, e: Event)
    requires hz > 0
    ensures var z := Step(l, hz, e);
            && z.g.deadline == l.g.deadline && z.g.cfg == l.g.cfg && z.now >= l.now
            && (l.g.active && l.g.cfg.maxInit == 0 && l.g.deadline > z.now ==> z.g.active)
  {
    hide NewTokens, Wrap64, Allowance;
  }

  /**
   * A run with a duration stops on time: it is active until start + duration
   * seconds (unless a limit on initiations ends it), and from then on nothing goes out.
   */
  lemma StopsOnTime(cfg: Config, start: u64, hz: u64, live: nat, es: seq<Event>, at: u64, succeed: nat)
    requires hz > 0 && cfg.duration > 0 && start + cfg.duration * hz < MODULUS64
    ensures var end := start + cfg.duration * hz;
            var z := Exec(Load(Started(cfg, start, hz), live, start, 0, 0, 0), hz, es);
            && (cfg.maxInit == 0 && z.now < end ==> z.g.active)
            && (at >= end ==> Step(z, hz, BurstAt(at, succeed)).out == z.out)
  {
    var l := Load(Started(cfg, start, hz), live, start, 0, 0, 0);
    Wrap64Small(cfg.duration * hz);
    Wrap64Small(start + cfg.duration * hz);
    assert l.g.deadline == start + cfg.duration * hz && l.g.active && l.g.cfg == cfg && cfg.duration * hz > 0;
    hide Started, Wrap64;
    RunKeepsDeadline(l, hz, es);
    var z := Exec(l, hz, es);
    hide Exec, Refill;
    if at >= l.g.deadline { assert !z.g.active || Stops(z.g, at); }
  }

  /**
   * The limit on initiations is not exact. Without a rate the first burst of a
   * run limited to one initiation sends 32; with a rate, the first burst stays within a limit
   * below 32 exactly when the deadline has passed or no token was gained since the
   * start (or so many that the 64-bit sum wraps).
   */
  lemma FirstBurst(cfg: Config, start: u64, now: u64, hz: u64)
    requires hz > 0 && 0 < cfg.maxInit < MAX_BURST && start <= now
    ensures var g := Started(cfg, start, hz);
            var n := Burst(g, now, hz, 0, MAX_BURST).1;
            var gained := NewTokens(g, now, hz);
            n <= cfg.maxInit <==>
              Stops(g, now) || (cfg.rate > 0 && (gained == 0 || cfg.maxInit + gained >= MODULUS64))
  {
    var g := Started(cfg, start, hz);
    var sum := g.tokens + NewTokens(g, now, hz);
    if sum < MODULUS64 { Wrap64Small(sum); } else { Wrap64Once(sum); }
    WrapSmall(Refilled(g, now, hz).tokens);
    hide Wrap64, Wrap, NewTokens;
  }
}
