/**
 Runs of the breaker behind its middleware, each method being one step: any number of requests,
 finishing in any order, with late outcomes of requests admitted long ago.
 */
module BreakerRuns {
  import opened Basics
  import opened Breaker

  /** A request arrives, finishes with a status, or its handler panics, which skips the recording. */
  datatype Event = Arrive(id: nat, now: int) | Finish(id: nat, status: int, now: int) | Panic(id: nat, now: int)

  /**
   The breaker, the admitted requests not yet finished, the last request let through as a probe, and the
   probes among the unfinished ones.
   */
  datatype System = System(core: Core, outstanding: set<nat>, prober: Option<nat>, probes: set<nat>)

  const START := System(INITIAL, {}, None, {})

  function Step(cfg: Config, y: System, e: Event): System {
    match e
    case Arrive(id, now) =>
      var (core, verdict) := AllowStep(cfg, y.core, now);
      if !verdict.Admitted? then y.(core := core)
      else if y.core.phase.Closed? then y.(core := core, outstanding := y.outstanding + {id})
      else System(core, y.outstanding + {id}, Some(id), y.probes + {id})
    case Finish(id, status, now) =>
      Forget(y, id).(core := if status >= 500 then FailureStep(cfg, y.core, now) else SuccessStep(y.core))
    case Panic(id, _) => Forget(y, id)
  }

  function Forget(y: System, id: nat): System {
    y.(outstanding := y.outstanding - {id}, probes := y.probes - {id})
  }

  predicate Enabled(y: System, e: Event) {
    if e.Arrive? then e.id !in y.outstanding else e.id in y.outstanding
  }

  /** The middleware around the breaker: ServeHTTP up to the handler, and after it. */
  class Gate {
    const breaker: CircuitBreaker
    ghost var outstanding: set<nat>
    ghost var prober: Option<nat>
    ghost var probes: set<nat>

    ghost function State(): System
      reads this, breaker
    {
      System(breaker.Fields(), outstanding, prober, probes)
    }

    constructor (breaker: CircuitBreaker)
      ensures this.breaker == breaker && outstanding == {} && prober == None && probes == {}
    {
      this.breaker := breaker;
      outstanding, prober, probes := {}, None, {};
    }

    /** Whether the request goes on to the handler. */
    method Enter(id: nat, now: int) returns (admitted: bool)
      requires id !in outstanding
      modifies this, breaker
      ensures State() == Step(breaker.cfg, old(State()), Arrive(id, now))
      ensures admitted <==> id in outstanding
    {
      ghost var wasClosed := breaker.phase.Closed?;
      var verdict := breaker.Allow(now);
      admitted := verdict.Admitted?;
      if admitted {
        outstanding := outstanding + {id};
        if !wasClosed {
          prober, probes := Some(id), probes + {id};
        }
      }
    }

    /** The refusal: 503 and a Retry-After in seconds, from the fields as they are by then. */
    method Refuse(now: int) returns (status: int, retryAfter: int)
      ensures status == 503
      ensures var until := breaker.openedAt * NANOS_PER_MILLI + breaker.cfg.recovery;
              if breaker.phase.Open? && now < until then
                until < now + retryAfter * NANOS_PER_SECOND <= until + NANOS_PER_SECOND
              else retryAfter == 1
    {
      WaitsOutRecovery(breaker.cfg, breaker.Fields(), now);
      status, retryAfter := 503, FormatRetryAfter(RetryAfter(breaker.cfg, breaker.Fields(), now));
    }

    method Leave(id: nat, status: int, now: int)
      requires id in outstanding
      modifies this, breaker
      ensures State() == Step(breaker.cfg, old(State()), Finish(id, status, now))
    {
      outstanding, probes := outstanding - {id}, probes - {id};
      if status >= 500 {
        breaker.RecordFailure(now);
      } else {
        breaker.RecordSuccess();
      }
    }
  }

  /** The system after the first `n` events. */
  function At(cfg: Config, y: System, es: seq<Event>, n: nat): System
    requires n <= |es|
  {
    if n == 0 then y else Step(cfg, At(cfg, y, es, n - 1), es[n-1])
  }

  predicate EnabledAt(cfg: Config, y: System, es: seq<Event>, i: nat)
    requires i < |es|
  {
    Enabled(At(cfg, y, es, i), es[i])
  }

  /** Only outstanding requests finish, and the clock does not go back. */
  ghost predicate Run(cfg: Config, y: System, es: seq<Event>) {
    && (forall i {:trigger EnabledAt(cfg, y, es, i)} :: 0 <= i < |es| ==> EnabledAt(cfg, y, es, i))
    && (forall i, j :: 0 <= i < j < |es| ==> es[i].now <= es[j].now)
  }

  /** The number of failures in a row that trips the breaker; a threshold below one acts as one. */
  function TripCount(cfg: Config): (k: int)
    ensures k >= 1
  {
    if cfg.threshold < 1 then 1 else cfg.threshold
  }

  ghost predicate Consistent(cfg: Config, c: Core) {
    && (c.probe <==> c.phase.HalfOpen?)
    && 0 <= c.failures <= TripCount(cfg)
    && (c.failures == TripCount(cfg) <==> !c.phase.Closed?)
  }

  /** In every run the probe flag is set exactly in HalfOpen, and the counter is full exactly outside Closed. */
  lemma {:induction false} AlwaysConsistent(cfg: Config, es: seq<Event>, n: nat)
    requires Fits(cfg) && n <= |es|
    ensures Consistent(cfg, At(cfg, START, es, n).core)
  {
    if n == 0 {
    } else {
      AlwaysConsistent(cfg, es, n - 1);
    }
  }

  /** The textbook breaker: no counter outside Closed and no probe flag. */
  datatype Simple = SClosed(streak: int) | SOpen(since: int) | SHalfOpen

  function SimpleAllow(cfg: Config, s: Simple, now: int): (Simple, Verdict) {
    match s
    case SClosed(_) => (s, Admitted)
    case SOpen(since) =>
      if now - since * NANOS_PER_MILLI < cfg.recovery then (s, CircuitOpen) else (SHalfOpen, Admitted)
    case SHalfOpen => (s, ProbeInFlight)
  }

  function SimpleRecord(cfg: Config, s: Simple, ok: bool, now: int): Simple {
    match s
    case SClosed(streak) =>
      if ok then SClosed(0) else if streak + 1 < TripCount(cfg) then SClosed(streak + 1) else SOpen(UnixMilli(now))
    case SOpen(_) => s
    case SHalfOpen => if ok then SClosed(0) else SOpen(UnixMilli(now))
  }

  function SimpleAt(cfg: Config, es: seq<Event>, n: nat): Simple
    requires n <= |es|
  {
    if n == 0 then SClosed(0)
    else match es[n-1]
      case Arrive(_, now) => SimpleAllow(cfg, SimpleAt(cfg, es, n - 1), now).0
      case Finish(_, status, now) => SimpleRecord(cfg, SimpleAt(cfg, es, n - 1), status < 500, now)
      case Panic(_, _) => SimpleAt(cfg, es, n - 1)
  }

  function Simplified(c: Core): Simple {
    match c.phase
    case Closed => SClosed(c.failures)
    case Open => SOpen(c.openedAt)
    case HalfOpen => SHalfOpen
  }

  /** The four-field breaker behaves, verdict by verdict, as the textbook one. */
  lemma {:induction false} RefinesSimple(cfg: Config, es: seq<Event>, n: nat)
    requires Fits(cfg) && n <= |es|
    ensures Simplified(At(cfg, START, es, n).core) == SimpleAt(cfg, es, n)
    ensures n < |es| && es[n].Arrive? ==>
      AllowStep(cfg, At(cfg, START, es, n).core, es[n].now).1 == SimpleAllow(cfg, SimpleAt(cfg, es, n), es[n].now).1
  {
    AlwaysConsistent(cfg, es, n);
    if n == 0 {
    } else {
      RefinesSimple(cfg, es, n - 1);
      AlwaysConsistent(cfg, es, n - 1);
    }
  }

  function PhaseAt(cfg: Config, es: seq<Event>, n: nat): Phase
    requires n <= |es|
  {
    At(cfg, START, es, n).core.phase
  }

  /** The outcomes recorded since the breaker last entered Closed, up to and including the one that trips it. */
  function Outcomes(cfg: Config, es: seq<Event>, n: nat): seq<bool>
    requires n <= |es|
  {
    if n == 0 || !PhaseAt(cfg, es, n - 1).Closed? then []
    else Outcomes(cfg, es, n - 1) + if es[n-1].Finish? then [es[n-1].status < 500] else []
  }

  predicate AllFailedLately(outcomes: seq<bool>, k: int) {
    k <= |outcomes| && forall i :: |outcomes| - k <= i < |outcomes| && 0 <= i ==> !outcomes[i]
  }

  /** The counter in Closed is exactly as long a streak of failures as the outcomes end with. */
  ghost predicate CountsStreak(failures: int, outcomes: seq<bool>) {
    && 0 <= failures && AllFailedLately(outcomes, failures)
    && (failures < |outcomes| ==> outcomes[|outcomes| - failures - 1])
  }

  lemma {:induction false} FailuresAreStreak(cfg: Config, es: seq<Event>, n: nat)
    requires Fits(cfg) && n <= |es| && PhaseAt(cfg, es, n).Closed?
    ensures CountsStreak(At(cfg, START, es, n).core.failures, Outcomes(cfg, es, n))
  {
    if n > 0 && PhaseAt(cfg, es, n - 1).Closed? {
      FailuresAreStreak(cfg, es, n - 1);
      AlwaysConsistent(cfg, es, n - 1);
    }
  }

  /** The breaker leaves Closed exactly when the last TripCount outcomes since entering Closed are all failures. */
  lemma {:induction false} TripsExactly(cfg: Config, es: seq<Event>, n: nat)
    requires Fits(cfg) && n < |es| && PhaseAt(cfg, es, n).Closed?
    ensures !PhaseAt(cfg, es, n + 1).Closed? <==>
              es[n].Finish? && AllFailedLately(Outcomes(cfg, es, n + 1), TripCount(cfg))
    ensures !PhaseAt(cfg, es, n + 1).HalfOpen?
  {
    FailuresAreStreak(cfg, es, n);
    AlwaysConsistent(cfg, es, n);
    if es[n].Finish? {
      StreakGrows(At(cfg, START, es, n).core.failures, Outcomes(cfg, es, n), es[n].status < 500, TripCount(cfg));
    }
  }

  lemma {:induction false} StreakGrows(failures: int, outcomes: seq<bool>, ok: bool, k: int)
    requires CountsStreak(failures, outcomes) && k >= 1
    ensures AllFailedLately(outcomes + [ok], k) <==> !ok && failures + 1 >= k
  {
    var longer := outcomes + [ok];
    assert longer[|outcomes|] == ok;
    if k <= |longer| && k > failures + 1 {
      assert longer[|outcomes| - failures - 1];
    }
  }

  /** Requests admitted by the events from `p` up to `q`. */
  function AdmittedBetween(cfg: Config, es: seq<Event>, p: nat, q: nat): nat
    requires p <= q <= |es|
  {
    if q == p then 0
    else AdmittedBetween(cfg, es, p, q - 1) + if AdmitsAt(cfg, es, q - 1) then 1 else 0
  }

  predicate AdmitsAt(cfg: Config, es: seq<Event>, i: nat)
    requires i < |es|
  {
    es[i].Arrive? && AllowStep(cfg, At(cfg, START, es, i).core, es[i].now).1.Admitted?
  }

  /** The event at `p` enters HalfOpen and the breaker stays there up to `q`: exactly one request was let through. */
  lemma {:induction false} OneProbePerEpisode(cfg: Config, es: seq<Event>, p: nat, q: nat)
    requires Fits(cfg) && p < q <= |es| && !PhaseAt(cfg, es, p).HalfOpen?
    requires forall k :: p < k <= q ==> PhaseAt(cfg, es, k).HalfOpen?
    ensures AdmittedBetween(cfg, es, p, q) == 1
    ensures es[p].Arrive? && At(cfg, START, es, q).prober == Some(es[p].id)
  {
    AlwaysConsistent(cfg, es, q - 1);
    assert PhaseAt(cfg, es, q).HalfOpen?;
    if p < q - 1 {
      assert PhaseAt(cfg, es, q - 1).HalfOpen?;
      OneProbePerEpisode(cfg, es, p, q - 1);
    } else {
      assert AdmittedBetween(cfg, es, p, p) == 0;
    }
  }

  /** An outcome recorded in HalfOpen for another request than the last probe. */
  predicate Stray(y: System, e: Event) {
    y.core.phase.HalfOpen? && e.Finish? && y.prober != Some(e.id)
  }

  predicate StrayAt(cfg: Config, es: seq<Event>, i: nat)
    requires i < |es|
  {
    Stray(At(cfg, START, es, i), es[i])
  }

  /** As long as every outcome recorded in HalfOpen is the probe's own, at most that one probe is out, and only then. */
  lemma {:induction false} OneProbeOut(cfg: Config, es: seq<Event>, n: nat)
    requires Fits(cfg) && n <= |es| && forall i :: 0 <= i < n ==> !StrayAt(cfg, es, i)
    ensures OneOut(At(cfg, START, es, n))
  {
    if n == 0 {
    } else {
      AlwaysConsistent(cfg, es, n - 1);
      OneProbeOut(cfg, es, n - 1);
      assert !StrayAt(cfg, es, n - 1);
      StillOneProbe(cfg, At(cfg, START, es, n - 1), es[n-1]);
    }
  }

  /** Only the last probe may be out, and only in HalfOpen. */
  ghost predicate OneOut(y: System) {
    y.probes <= if y.core.phase.HalfOpen? && y.prober.Some? then {y.prober.value} else {}
  }

  lemma {:induction false} StillOneProbe(cfg: Config, y: System, e: Event)
    requires Fits(cfg) && Consistent(cfg, y.core) && OneOut(y) && !Stray(y, e)
    ensures OneOut(Step(cfg, y, e))
  {
  }

  /** Stray outcomes happen: a request admitted long ago ends the episode while its probe is out. */
  lemma {:induction false} TwoProbesOut() returns (cfg: Config, es: seq<Event>)
    ensures Fits(cfg) && Run(cfg, START, es) && |es| == 6 && forall e :: e in es ==> !e.Panic?
    ensures StrayAt(cfg, es, 4)
    ensures At(cfg, START, es, 6).probes == {es[3].id, es[5].id} && es[3].id != es[5].id
  {
    var ms := NANOS_PER_MILLI;
    cfg := Config(1, 10 * ms);
    es := [Arrive(0, 0), Arrive(1, 0), Finish(1, 500, 0),
           Arrive(2, 10 * ms), Finish(0, 500, 10 * ms), Arrive(3, 20 * ms)];
    assert At(cfg, START, es, 1) == System(INITIAL, {0}, None, {});
    assert At(cfg, START, es, 2) == System(INITIAL, {0, 1}, None, {});
    assert At(cfg, START, es, 3) == System(Core(Open, 1, 0, false), {0}, None, {});
    assert At(cfg, START, es, 4) == System(Core(HalfOpen, 1, 0, true), {0, 2}, Some(2), {2});
    assert At(cfg, START, es, 5) == System(Core(Open, 1, 10, false), {2}, Some(2), {2});
  }

  /** `es` continues `y` from time `now`, without panics, to a state with two probes out. */
  ghost predicate Doubles(cfg: Config, y: System, now: int, es: seq<Event>) {
    && Run(cfg, y, es) && (|es| > 0 ==> now <= es[0].now) && (forall e :: e in es ==> !e.Panic?)
    && |At(cfg, y, es, |es|).probes| >= 2
  }

  ghost predicate CanDouble(cfg: Config, y: System, now: int) {
    exists es :: Doubles(cfg, y, now, es)
  }

  /**
   One per episode is not one at a time: after any stray outcome recorded while the probe is out, some
   continuation without panics has a second probe out with it.
   */
  lemma {:induction false} StrayDoubles(cfg: Config, y: System, e: Event) returns (es: seq<Event>)
    requires Fits(cfg) && Consistent(cfg, y.core) && Stray(y, e)
    requires y.probes <= y.outstanding && y.prober.Some? && y.prober.value in y.probes
    ensures Doubles(cfg, Step(cfg, y, e), e.now, es)
  {
    var next := Step(cfg, y, e);
    if next.core.phase.Closed? {
      es := FailUntilOpen(cfg, next, y.prober.value, e.now, TripCount(cfg) - 1);
    } else {
      es := SecondProbe(cfg, next, y.prober.value, e.now);
    }
  }

  /** From Open, the first request after the recovery time is a probe. */
  lemma {:induction false} SecondProbe(cfg: Config, y: System, first: nat, now: int) returns (es: seq<Event>)
    requires Consistent(cfg, y.core) && y.core.phase.Open? && first in y.probes && y.probes <= y.outstanding
    ensures Doubles(cfg, y, now, es)
  {
    var id := Above(y.outstanding);
    var ready := y.core.openedAt * NANOS_PER_MILLI + cfg.recovery;
    es := [Arrive(id, if now < ready then ready else now)];
    var end := At(cfg, y, es, 1);
    assert EnabledAt(cfg, y, es, 0);
    assert end == Step(cfg, y, es[0]);
    assert end.probes == y.probes + {id};
    SubsetSize({first, id}, end.probes);
  }

  /** From Closed with `left` failures to spare, failing requests open the breaker. */
  lemma {:induction false} FailUntilOpen(cfg: Config, y: System, first: nat, now: int, left: nat)
    returns (es: seq<Event>)
    requires Fits(cfg) && Consistent(cfg, y.core) && y.core.phase.Closed?
    requires first in y.probes && y.probes <= y.outstanding
    requires y.core.failures + left + 1 == TripCount(cfg)
    ensures Doubles(cfg, y, now, es)
    decreases left
  {
    var failing, next := FailOnce(cfg, y, now);
    var rest;
    if left == 0 {
      rest := SecondProbe(cfg, next, first, now);
    } else {
      rest := FailUntilOpen(cfg, next, first, now, left - 1);
    }
    Joined(cfg, y, failing, rest, now);
    es := failing + rest;
  }

  /** One more request that is let through in Closed and fails. */
  lemma {:induction false} FailOnce(cfg: Config, y: System, now: int) returns (es: seq<Event>, next: System)
    requires Fits(cfg) && Consistent(cfg, y.core) && y.core.phase.Closed? && y.probes <= y.outstanding
    ensures Run(cfg, y, es) && At(cfg, y, es, |es|) == next && forall e :: e in es ==> e.now == now && !e.Panic?
    ensures next.outstanding == y.outstanding && next.probes == y.probes && next.prober == y.prober
    ensures next.core == FailureStep(cfg, y.core, now)
  {
    var id := Above(y.outstanding);
    es := [Arrive(id, now), Finish(id, 500, now)];
    var serving := At(cfg, y, es, 1);
    assert EnabledAt(cfg, y, es, 0);
    assert serving == Step(cfg, y, es[0]);
    assert serving == y.(outstanding := y.outstanding + {id});
    next := At(cfg, y, es, 2);
    assert EnabledAt(cfg, y, es, 1);
    assert next == Forget(serving, id).(core := FailureStep(cfg, y.core, now));
  }

  /** Two runs end to end, the first of them all at time `now`. */
  lemma {:induction false} Joined(cfg: Config, y: System, first: seq<Event>, second: seq<Event>, now: int)
    requires Run(cfg, y, first) && Run(cfg, At(cfg, y, first, |first|), second)
    requires forall e :: e in first ==> e.now == now
    requires forall i :: 0 <= i < |second| ==> now <= second[i].now
    ensures Run(cfg, y, first + second)
    ensures At(cfg, y, first + second, |first + second|) == At(cfg, At(cfg, y, first, |first|), second, |second|)
  {
    var es := first + second;
    forall i | 0 <= i < |es| ensures EnabledAt(cfg, y, es, i) {
      JoinedAt(cfg, y, first, second, i);
      assert if i < |first| then EnabledAt(cfg, y, first, i)
             else EnabledAt(cfg, At(cfg, y, first, |first|), second, i - |first|);
    }
    JoinedAt(cfg, y, first, second, |es|);
  }

  lemma {:induction false} JoinedAt(cfg: Config, y: System, first: seq<Event>, second: seq<Event>, n: nat)
    requires n <= |first| + |second|
    ensures At(cfg, y, first + second, n) ==
            if n <= |first| then At(cfg, y, first, n) else At(cfg, At(cfg, y, first, |first|), second, n - |first|)
  {
    if n == 0 {
    } else {
      JoinedAt(cfg, y, first, second, n - 1);
    }
  }

  /**
   Outage bound. From the Closed to Open step `p - 1` at time T0 until the breaker next closes, the number n of
   requests let through by time T satisfies n * (recovery - 1 ms) <= T - T0, late outcomes included.
   */
  lemma {:induction false} OutageBound(cfg: Config, es: seq<Event>, p: nat, q: nat)
    requires Fits(cfg) && Run(cfg, START, es) && 0 < p <= q <= |es|
    requires PhaseAt(cfg, es, p - 1).Closed? && forall k :: p <= k <= q ==> !PhaseAt(cfg, es, k).Closed?
    ensures var spent := AdmittedBetween(cfg, es, p, q) * (cfg.recovery - NANOS_PER_MILLI);
            var c := At(cfg, START, es, q).core;
            && spent <= es[q-1].now - es[p-1].now
            && (c.phase.Open? ==> spent <= (c.openedAt + 1) * NANOS_PER_MILLI - 1 - es[p-1].now)
  {
    if p < q {
      OutageBound(cfg, es, p, q - 1);
      AlwaysConsistent(cfg, es, q - 1);
      assert !PhaseAt(cfg, es, q - 1).Closed?;
      assert es[q-2].now <= es[q-1].now;
      Successor(AdmittedBetween(cfg, es, p, q - 1), cfg.recovery - NANOS_PER_MILLI);
    } else {
      AlwaysConsistent(cfg, es, p - 1);
    }
  }

  lemma {:induction false} Successor(n: int, x: int)
    ensures (n + 1) * x == n * x + x && 0 * x == 0
  {
  }

  /** The millisecond is real: the opening time is rounded down, so a probe may come that much early. */
  lemma {:induction false} ProbeComesEarly() returns (cfg: Config, es: seq<Event>)
    ensures Fits(cfg) && Run(cfg, START, es) && |es| == 3 && PhaseAt(cfg, es, 1).Closed? && PhaseAt(cfg, es, 2).Open?
    ensures AdmitsAt(cfg, es, 2) && es[2].now - es[1].now == cfg.recovery - (NANOS_PER_MILLI - 1)
  {
    cfg := Config(1, 5 * NANOS_PER_MILLI);
    es := [Arrive(0, 0), Finish(0, 500, NANOS_PER_MILLI - 1), Arrive(1, 5 * NANOS_PER_MILLI)];
    assert At(cfg, START, es, 1) == System(INITIAL, {0}, None, {});
    assert At(cfg, START, es, 2) == System(Core(Open, 1, 0, false), {}, None, {});
  }

  /** Closed to Open transitions in the first `n` events. */
  function Trips(cfg: Config, es: seq<Event>, n: nat): nat
    requires n <= |es|
  {
    if n == 0 then 0
    else Trips(cfg, es, n - 1) + if PhaseAt(cfg, es, n - 1).Closed? && PhaseAt(cfg, es, n).Open? then 1 else 0
  }

  function FailuresWhileClosed(cfg: Config, es: seq<Event>, n: nat): nat
    requires n <= |es|
  {
    if n == 0 then 0
    else FailuresWhileClosed(cfg, es, n - 1)
         + if PhaseAt(cfg, es, n - 1).Closed? && es[n-1].Finish? && es[n-1].status >= 500 then 1 else 0
  }

  /** Every trip is paid for by TripCount failures recorded in Closed, and no failure pays twice. */
  lemma {:induction false} TripsArePaidFor(cfg: Config, es: seq<Event>, n: nat)
    requires Fits(cfg) && n <= |es|
    ensures Trips(cfg, es, n) * TripCount(cfg) + Saved(At(cfg, START, es, n).core) <= FailuresWhileClosed(cfg, es, n)
  {
    Successor(Trips(cfg, es, if n == 0 then 0 else n - 1), TripCount(cfg));
    if n == 0 {
    } else {
      TripsArePaidFor(cfg, es, n - 1);
      AlwaysConsistent(cfg, es, n - 1);
      StepPaidFor(cfg, At(cfg, START, es, n - 1), es[n-1]);
    }
  }

  /** The failures counted towards the next trip. */
  function Saved(c: Core): int {
    if c.phase.Closed? then c.failures else 0
  }

  lemma {:induction false} StepPaidFor(cfg: Config, y: System, e: Event)
    requires Fits(cfg) && Consistent(cfg, y.core)
    ensures var before, after := y.core, Step(cfg, y, e).core;
            (if before.phase.Closed? && after.phase.Open? then TripCount(cfg) else 0) + Saved(after)
              <= Saved(before) + if before.phase.Closed? && e.Finish? && e.status >= 500 then 1 else 0
  {
  }

  /** While no handler has panicked, the probe of a HalfOpen breaker is still out. */
  lemma {:induction false} ProberOutstanding(cfg: Config, es: seq<Event>, n: nat)
    requires Fits(cfg) && Run(cfg, START, es) && n <= |es| && forall i :: 0 <= i < n ==> !es[i].Panic?
    ensures var y := At(cfg, START, es, n);
            && y.probes <= y.outstanding
            && (y.core.phase.HalfOpen? ==> y.prober.Some? && y.prober.value in y.probes)
  {
    if n == 0 {
    } else {
      AlwaysConsistent(cfg, es, n - 1);
      ProberOutstanding(cfg, es, n - 1);
    }
  }

  /** In a run without panics every stray outcome leads on to two probes out; without any there is at most one. */
  lemma {:induction false} TwoProbesExactlyAfterStray(cfg: Config, es: seq<Event>, n: nat)
    requires Fits(cfg) && Run(cfg, START, es) && n < |es| && forall i :: 0 <= i < |es| ==> !es[i].Panic?
    ensures StrayAt(cfg, es, n) ==> CanDouble(cfg, At(cfg, START, es, n + 1), es[n].now)
    ensures |At(cfg, START, es, n + 1).probes| >= 2 ==> exists i :: 0 <= i <= n && StrayAt(cfg, es, i)
  {
    if StrayAt(cfg, es, n) {
      AlwaysConsistent(cfg, es, n);
      ProberOutstanding(cfg, es, n);
      var more := StrayDoubles(cfg, At(cfg, START, es, n), es[n]);
    } else if forall i :: 0 <= i <= n ==> !StrayAt(cfg, es, i) {
      OneProbeOut(cfg, es, n + 1);
      var y := At(cfg, START, es, n + 1);
      SubsetSize(y.probes, if y.core.phase.HalfOpen? && y.prober.Some? then {y.prober.value} else {});
    }
  }

  /** `es` is a continuation from `y` at time `now` that ends in Closed. */
  ghost predicate Closes(cfg: Config, y: System, now: int, es: seq<Event>) {
    Run(cfg, y, es) && (|es| > 0 ==> now <= es[0].now) && At(cfg, y, es, |es|).core.phase.Closed?
  }

  ghost predicate CanClose(cfg: Config, y: System, now: int) {
    exists es :: Closes(cfg, y, now, es)
  }

  /** A breaker can close again unless it is HalfOpen with nothing outstanding; then it is stuck for good. */
  lemma {:induction false} ClosesUnlessAbandoned(cfg: Config, y: System, now: int)
    requires Consistent(cfg, y.core)
    ensures CanClose(cfg, y, now) <==> !(y.core.phase.HalfOpen? && y.outstanding == {})
  {
    if y.core.phase.HalfOpen? && y.outstanding == {} {
      forall es ensures !Closes(cfg, y, now, es) {
        if Run(cfg, y, es) {
          StuckForGood(cfg, y, es, |es|);
        }
      }
    } else {
      var es := Recovery(cfg, y, now);
      assert Closes(cfg, y, now, es);
    }
  }

  lemma {:induction false} StuckForGood(cfg: Config, y: System, es: seq<Event>, n: nat)
    requires y.core.phase.HalfOpen? && y.core.probe && y.outstanding == {} && Run(cfg, y, es) && n <= |es|
    ensures At(cfg, y, es, n) == y
  {
    if n == 0 {
    } else {
      StuckForGood(cfg, y, es, n - 1);
      assert EnabledAt(cfg, y, es, n - 1);
    }
  }

  lemma {:induction false} Above(ids: set<nat>) returns (bound: nat)
    ensures forall id :: id in ids ==> id < bound
  {
    if |ids| == 0 {
      bound := 0;
    } else {
      var id := Pick(ids);
      var others := ids - {id};
      var rest := Above(others);
      bound := if rest <= id then id + 1 else rest;
      assert forall other :: other in ids ==> other == id || other in others;
    }
  }

  /** A continuation that closes the breaker: let an outstanding request succeed, or send one through first. */
  lemma {:induction false} Recovery(cfg: Config, y: System, now: int) returns (es: seq<Event>)
    requires Consistent(cfg, y.core) && !(y.core.phase.HalfOpen? && y.outstanding == {})
    ensures Closes(cfg, y, now, es)
  {
    match y.core.phase {
      case Closed =>
        es := [];
      case HalfOpen =>
        var id := Pick(y.outstanding);
        es := [Finish(id, 200, now)];
      case Open =>
        var id := Above(y.outstanding);
        var ready := y.core.openedAt * NANOS_PER_MILLI + cfg.recovery;
        var t := if now < ready then ready else now;
        es := [Arrive(id, t), Finish(id, 200, t)];
        assert At(cfg, y, es, 1) ==
          System(y.core.(phase := HalfOpen, probe := true), y.outstanding + {id}, Some(id), y.probes + {id});
        assert At(cfg, y, es, 2).core.phase.Closed?;
    }
  }

  /** No wedge: without panics, from every reachable state the breaker can close again. */
  lemma {:induction false} NeverWedged(cfg: Config, es: seq<Event>, n: nat, now: int)
    requires Fits(cfg) && Run(cfg, START, es) && n <= |es| && forall i :: 0 <= i < n ==> !es[i].Panic?
    ensures CanClose(cfg, At(cfg, START, es, n), now)
  {
    AlwaysConsistent(cfg, es, n);
    if PhaseAt(cfg, es, n).HalfOpen? {
      ProberOutstanding(cfg, es, n);
    }
    ClosesUnlessAbandoned(cfg, At(cfg, START, es, n), now);
  }

  /** A probe whose handler panics leaves an idle breaker wedged: no later traffic ever closes it. */
  lemma {:induction false} PanickingProbeWedges(cfg: Config, y: System, now: int) returns (es: seq<Event>)
    requires Consistent(cfg, y.core) && y.core.phase.Open? && y.outstanding == {}
    ensures Run(cfg, y, es) && |es| == 2 && now <= es[0].now && es[1].Panic?
    ensures forall later :: !CanClose(cfg, At(cfg, y, es, 2), later)
  {
    var ready := y.core.openedAt * NANOS_PER_MILLI + cfg.recovery;
    var t := if now < ready then ready else now;
    es := [Arrive(0, t), Panic(0, t)];
    var halfOpen := y.core.(phase := HalfOpen, probe := true);
    assert At(cfg, y, es, 1) == System(halfOpen, {0}, Some(0), y.probes + {0});
    var wedged := At(cfg, y, es, 2);
    assert wedged == Forget(System(halfOpen, {0}, Some(0), y.probes + {0}), 0);
    assert wedged.outstanding == {};
    forall later ensures !CanClose(cfg, wedged, later) {
      ClosesUnlessAbandoned(cfg, wedged, later);
    }
  }
}
