/** Round-trip estimator and retransmission timeout (update_rtt in tcp_fsm.c). */
module RttEstimator {
  import opened Basics
  import opened SequenceNumbers
  import opened Powers

  const INITIAL_RTO_US: int := 200_000
  const MIN_RTO_US: int := 200_000
  const MAX_RTO_US: int := 60_000_000
  const SAMPLE_LIMIT_US: int := 60_000_000

  datatype Rtt = Rtt(srtt: u32, rttvar: u32, rto: u32)

  function Clamp(v: int, lo: int, hi: int): int { Max(lo, Min(v, hi)) }

  function Update(r: Rtt, sample: u32): Rtt {
    var delta := if sample > r.srtt then sample - r.srtt else r.srtt - sample;
    var srtt := if r.srtt == 0 then sample else Wrap(Wrap(7 * r.srtt) + sample) / 8;
    var rttvar := if r.srtt == 0 then sample / 2 else Wrap(Wrap(3 * r.rttvar) + delta) / 4;
    Rtt(srtt, rttvar, Clamp(Wrap(srtt + Wrap(4 * rttvar)), MIN_RTO_US, MAX_RTO_US))
  }

  /** One timeout: exponential backoff. */
  function Backoff(r: Rtt): Rtt { r.(rto := Min(Wrap(r.rto * 2), MAX_RTO_US)) }

  /** The smoothed values lie in the range of the samples, so no 32-bit step wraps. */
  predicate Within(r: Rtt, lo: u32, hi: u32) {
    && (r.srtt == 0 || lo <= r.srtt) && r.srtt <= hi && r.rttvar <= hi
    && MIN_RTO_US <= r.rto <= MAX_RTO_US
  }

  /** A step of the estimator in unbounded arithmetic: what section 2 of RFC 6298 prescribes. */
  function Ideal(r: Rtt, sample: nat): (int, int, int) {
    var delta := if sample > r.srtt then sample - r.srtt else r.srtt - sample;
    var srtt := if r.srtt == 0 then sample else (7 * r.srtt + sample) / 8;
    var rttvar := if r.srtt == 0 then sample / 2 else (3 * r.rttvar + delta) / 4;
    var rto := srtt + 4 * rttvar;
    (srtt, rttvar, if rto < 200_000 then 200_000 else if rto > 60_000_000 then 60_000_000 else rto)
  }

  /** Within the sample range no 32-bit step wraps. */
  lemma UpdateIsIdeal(r: Rtt, sample: u32)
    requires r.srtt < SAMPLE_LIMIT_US && r.rttvar < SAMPLE_LIMIT_US && sample < SAMPLE_LIMIT_US
    requires var i := Ideal(r, sample); 0 <= i.0 < SAMPLE_LIMIT_US && 0 <= i.1 < SAMPLE_LIMIT_US
    ensures var r' := Update(r, sample); (r'.srtt, r'.rttvar, r'.rto) == Ideal(r, sample)
  {
    var delta := if sample > r.srtt then sample - r.srtt else r.srtt - sample;
    WrapSmall(7 * r.srtt);
    WrapSmall(7 * r.srtt + sample);
    WrapSmall(3 * r.rttvar);
    WrapSmall(3 * r.rttvar + delta);
    var (srtt, rttvar, rto) := Ideal(r, sample);
    WrapSmall(4 * rttvar);
    WrapSmall(srtt + 4 * rttvar);
  }

  lemma IdealWithin(r: Rtt, sample: u32, lo: u32, hi: u32)
    requires Within(r, lo, hi) && lo <= sample <= hi
    ensures var i := Ideal(r, sample);
            lo <= i.0 <= hi && 0 <= i.1 <= hi && MIN_RTO_US <= i.2 <= MAX_RTO_US
  {
  }

  lemma UpdateWithin(r: Rtt, sample: u32, lo: u32, hi: u32)
    requires Within(r, lo, hi) && lo <= sample <= hi < SAMPLE_LIMIT_US
    ensures var r' := Update(r, sample);
            && Within(r', lo, hi) && lo <= r'.srtt
            && (r'.srtt, r'.rttvar, r'.rto) == Ideal(r, sample)
  {
    IdealWithin(r, sample, lo, hi);
    UpdateIsIdeal(r, sample);
  }

  /** What happens to the estimator: a sample or a timeout. */
  datatype Event = Sampled(us: u32) | Expired

  function Step(r: Rtt, e: Event): Rtt {
    match e
    case Sampled(us) => Update(r, us)
    case Expired => Backoff(r)
  }

  function Run(r: Rtt, es: seq<Event>): Rtt
    decreases |es|
  {
    if es == [] then r else Run(Step(r, es[0]), es[1..])
  }

  lemma UpdateInRange(r: Rtt, sample: u32)
    ensures MIN_RTO_US <= Update(r, sample).rto <= MAX_RTO_US
  {
  }

  lemma BackoffInRange(r: Rtt)
    requires MIN_RTO_US <= r.rto <= MAX_RTO_US
    ensures r.rto <= Backoff(r).rto <= MAX_RTO_US && Backoff(r) == r.(rto := Min(2 * r.rto, MAX_RTO_US))
  {
    WrapSmall(r.rto * 2);
  }

  /**
   * For every run of timeouts and samples below 60 s that lie between lo and
   * hi: once a sample was taken the smoothed round trip lies between lo and hi,
   * the timeout lies in [200 ms, 60 s], and the next step agrees with unbounded arithmetic.
   */
  lemma {:induction false} RunStaysWithin(r: Rtt, es: seq<Event>, lo: u32, hi: u32, next: u32)
    requires Within(r, lo, hi) && lo <= hi < SAMPLE_LIMIT_US && MIN_RTO_US <= r.rto <= MAX_RTO_US
    requires forall i :: 0 <= i < |es| && es[i].Sampled? ==> lo <= es[i].us <= hi
    requires lo <= next <= hi
    ensures var z := Run(r, es);
            && Within(z, lo, hi) && MIN_RTO_US <= z.rto <= MAX_RTO_US
            && (lo <= r.srtt <= hi || (exists i :: 0 <= i < |es| && es[i].Sampled?) ==> lo <= z.srtt <= hi)
            && (Update(z, next).srtt, Update(z, next).rttvar, Update(z, next).rto) == Ideal(z, next)
    decreases |es|
  {
    if es != [] {
      var r1 := Step(r, es[0]);
      if es[0].Sampled? {
        UpdateWithin(r, es[0].us, lo, hi);
        UpdateInRange(r, es[0].us);
      } else {
        BackoffInRange(r);
      }
      hide Update, Backoff;
      RunStaysWithin(r1, es[1..], lo, hi, next);
      assert forall i :: 0 < i < |es| ==> es[i] == es[1..][i - 1];
    } else {
      UpdateWithin(r, next, lo, hi);
    }
  }

  function BackoffTimes(r: Rtt, j: nat): Rtt {
    if j == 0 then r else Backoff(BackoffTimes(r, j - 1))
  }

  lemma TwiceProduct(a: int, b: int)
    ensures 2 * a * b == 2 * (a * b)
  {
  }

  lemma DoubleAndCap(x: int, capped: int)
    requires 0 <= x && capped == Min(x, MAX_RTO_US)
    ensures Min(Wrap(capped * 2), MAX_RTO_US) == Min(2 * x, MAX_RTO_US)
  {
    assert Wrap(capped * 2) == capped * 2;
  }

  /** j consecutive timeouts multiply the timeout by 2^j up to 60 s. */
  lemma {:induction false} BackoffIsExponential(r: Rtt, j: nat)
    requires MIN_RTO_US <= r.rto <= MAX_RTO_US
    ensures BackoffTimes(r, j) == r.(rto := Min(Pow2(j) * r.rto, MAX_RTO_US))
  {
    if j > 0 {
      BackoffIsExponential(r, j - 1);
      hide Wrap;
      var x := Pow2(j - 1) * r.rto;
      assert Pow2(j) * r.rto == 2 * x by { TwiceProduct(Pow2(j - 1), r.rto); }
      hide Pow2;
      DoubleAndCap(x, Min(x, MAX_RTO_US));
    }
  }

  // ------------------------------------------------------- opening handshake

  const SYN_RETRIES: int := 3

  /** What a timeout touches before the handshake is complete. */
  datatype Attempt = Attempt(open: bool, retries: byte, rtt: Rtt)

  /** tcp_fsm_rto_expired in SYN_SENT: the retransmitted SYN or, after three of them, the reset. */
  function SynExpired(a: Attempt): Attempt {
    var retries := (a.retries + 1) % 256;
    if !a.open then a
    else if retries > SYN_RETRIES then Attempt(false, retries, a.rtt)
    else Attempt(true, retries, Backoff(a.rtt))
  }

  function SynExpiredTimes(a: Attempt, j: nat): Attempt {
    if j == 0 then a else SynExpired(SynExpiredTimes(a, j - 1))
  }

  /** An unanswered open is retried three times, each time waiting twice as long, and reset by the fourth timeout. */
  lemma {:induction false} SynGivesUp(a: Attempt, j: nat)
    requires a.open && a.retries == 0 && MIN_RTO_US <= a.rtt.rto <= MAX_RTO_US
    ensures var z := SynExpiredTimes(a, j);
            && (z.open <==> j <= 3)
            && (j <= 3 ==> z.retries == j && z.rtt.rto == Min(Pow2(j) * a.rtt.rto, MAX_RTO_US))
  {
    hide Pow2, Backoff;
    SynBacksOff(a, j);
    BackoffIsExponential(a.rtt, j);
  }

  lemma {:induction false} SynBacksOff(a: Attempt, j: nat)
    requires a.open && a.retries == 0
    ensures var z := SynExpiredTimes(a, j);
            && (z.open <==> j <= 3)
            && (j <= 3 ==> z.retries == j && z.rtt == BackoffTimes(a.rtt, j))
  {
    hide Backoff;
    if j > 0 { SynBacksOff(a, j - 1); }
  }
}
