/**
 The circuit breaker: four shared fields and the methods that change them, each method uninterrupted.
 Times are in nanoseconds; `openedAt` keeps whole milliseconds.
 */
module Breaker {
  import opened Basics

  const NANOS_PER_MILLI := 1_000_000
  const NANOS_PER_SECOND := 1_000_000_000
  const TWO_TO_THE_31 := 0x8000_0000

  datatype Phase = Closed | Open | HalfOpen

  datatype Verdict = Admitted | CircuitOpen | ProbeInFlight

  /** The breaker's shared fields. */
  datatype Core = Core(phase: Phase, failures: int, openedAt: int, probe: bool)

  datatype Config = Config(threshold: int, recovery: int)

  const INITIAL := Core(Closed, 0, 0, false)

  /** 32-bit two's complement. */
  function Wrap32(x: int): (y: int)
    ensures -TWO_TO_THE_31 <= y < TWO_TO_THE_31
    ensures (x - y) % (2 * TWO_TO_THE_31) == 0
    ensures -TWO_TO_THE_31 <= x < TWO_TO_THE_31 ==> y == x
  {
    (x + TWO_TO_THE_31) % (2 * TWO_TO_THE_31) - TWO_TO_THE_31
  }

  /** The threshold is stored in 32 bits. */
  predicate Fits(cfg: Config) {
    -TWO_TO_THE_31 <= cfg.threshold < TWO_TO_THE_31
  }

  function UnixMilli(now: int): (ms: int)
    ensures ms * NANOS_PER_MILLI <= now < (ms + 1) * NANOS_PER_MILLI
  {
    now / NANOS_PER_MILLI
  }

  function Elapsed(c: Core, now: int): int {
    now - c.openedAt * NANOS_PER_MILLI
  }

  function AllowStep(cfg: Config, c: Core, now: int): (Core, Verdict) {
    match c.phase
    case Closed => (c, Admitted)
    case Open =>
      if Elapsed(c, now) < cfg.recovery then (c, CircuitOpen)
      else TakeProbe(c.(phase := HalfOpen))
    case HalfOpen => TakeProbe(c)
  }

  function TakeProbe(c: Core): (Core, Verdict) {
    if c.probe then (c, ProbeInFlight) else (c.(probe := true), Admitted)
  }

  function SuccessStep(c: Core): Core {
    match c.phase
    case Closed => c.(failures := 0)
    case Open => c
    case HalfOpen => c.(phase := Closed, failures := 0, probe := false)
  }

  function FailureStep(cfg: Config, c: Core, now: int): Core {
    match c.phase
    case Closed =>
      var failures := Wrap32(c.failures + 1);
      if failures >= cfg.threshold then c.(phase := Open, failures := failures, openedAt := UnixMilli(now))
      else c.(failures := failures)
    case Open => c
    case HalfOpen => c.(phase := Open, openedAt := UnixMilli(now), probe := false)
  }

  /** RetryAfter: what is left of the recovery time, and nothing unless the breaker is open. */
  function RetryAfter(cfg: Config, c: Core, now: int): (wait: int)
    ensures wait >= 0
  {
    var remaining := cfg.recovery - Elapsed(c, now);
    if !c.phase.Open? || remaining < 0 then 0 else remaining
  }

  /** In every state: the wait ends exactly when the recovery time does, and there is none unless Open and waiting. */
  lemma {:induction false} WaitsOutRecovery(cfg: Config, c: Core, now: int)
    ensures var until := c.openedAt * NANOS_PER_MILLI + cfg.recovery;
            if c.phase.Open? && now < until then now + RetryAfter(cfg, c, now) == until
            else RetryAfter(cfg, c, now) == 0 && FormatRetryAfter(RetryAfter(cfg, c, now)) == 1
  {
  }

  function FormatRetryAfter(wait: int): int {
    TruncDiv(wait, NANOS_PER_SECOND) + 1
  }

  /**
   The Retry-After header is enough and not overlong: while the breaker stays open, requests fail fast exactly
   until RetryAfter has passed, and the seconds in the header always reach that point, by less than one second.
   */
  lemma {:induction false} RetryAfterIsExact(cfg: Config, c: Core, now: int, later: int)
    requires c.phase.Open? && AllowStep(cfg, c, now).1.CircuitOpen?
    ensures var wait := RetryAfter(cfg, c, now);
            && (AllowStep(cfg, c, later).1.CircuitOpen? <==> later < now + wait)
            && wait < FormatRetryAfter(wait) * NANOS_PER_SECOND <= wait + NANOS_PER_SECOND
  {
  }

  class CircuitBreaker {
    const cfg: Config
    var phase: Phase
    var failures: int
    var openedAt: int
    var probe: bool

    /** The four fields as one value. */
    function Fields(): Core
      reads this
    {
      Core(phase, failures, openedAt, probe)
    }

    constructor (threshold: int, recovery: int)
      ensures Fits(cfg) && cfg.recovery == recovery
      ensures Fits(Config(threshold, recovery)) ==> cfg.threshold == threshold
      ensures Fields() == INITIAL == Core(Closed, 0, 0, false)
    {
      cfg := Config(Wrap32(threshold), recovery);
      phase, failures, openedAt, probe := Closed, 0, 0, false;
    }

    /** A compare-and-swap on the state. */
    method TransitionTo(from: Phase, to: Phase)
      modifies this`phase
      ensures phase == if old(phase) == from then to else old(phase)
    {
      if phase == from {
        phase := to;
      }
    }

    method CompareAndSwapProbe() returns (taken: bool)
      modifies this`probe
      ensures taken == !old(probe) && probe
    {
      taken := !probe;
      probe := true;
    }

    method Allow(now: int) returns (verdict: Verdict)
      modifies this
      ensures (Fields(), verdict) == AllowStep(cfg, old(Fields()), now)
    {
      match phase {
        case Closed =>
          return Admitted;
        case Open =>
          var elapsed := now - openedAt * NANOS_PER_MILLI;
          if elapsed < cfg.recovery {
            return CircuitOpen;
          }
          TransitionTo(Open, HalfOpen);
        case HalfOpen =>
      }
      var taken := CompareAndSwapProbe();
      verdict := if taken then Admitted else ProbeInFlight;
    }

    method RecordSuccess()
      modifies this
      ensures Fields() == SuccessStep(old(Fields()))
    {
      match phase {
        case Closed =>
          failures := 0;
        case Open =>
        case HalfOpen =>
          failures := 0;
          probe := false;
          TransitionTo(HalfOpen, Closed);
      }
    }

    method RecordFailure(now: int)
      modifies this
      ensures Fields() == FailureStep(cfg, old(Fields()), now)
    {
      match phase {
        case Closed =>
          failures := Wrap32(failures + 1);
          if failures >= cfg.threshold {
            openedAt := UnixMilli(now);
            TransitionTo(Closed, Open);
          }
        case Open =>
        case HalfOpen =>
          probe := false;
          openedAt := UnixMilli(now);
          TransitionTo(HalfOpen, Open);
      }
    }
  }
}
