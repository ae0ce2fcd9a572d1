/**
 The limiter and its middleware on the shared database, and the guarantees they give end to end.
 */
module RateLimiter {
  import opened Basics
  import opened SlidingWindow
  import opened WindowBounds
  import opened FullLog
  import opened Keyspace
  import opened RedisServer

  datatype Result = Result(decision: Decision, remaining: int, currentCount: int, limit: int,
                           resetAfterMs: int, throttleDelayMs: int)

  /** What the caller of Evaluate gets: the script's answer, or a pass with the full limit when the call failed. */
  function ResultOf(window: int, delay: int, answer: Answer, r: Request): Result {
    if r.delivery.Delivered? && answer.Limited? then
      var reply := answer.reply;
      Result(reply.decision, reply.remaining, reply.count, r.limit, window,
             if reply.decision.Throttle? then delay else 0)
    else
      Result(Allow, r.limit, 0, r.limit, window, 0)
  }

  class Limiter {
    const redis: Redis
    const windowMs: int
    const throttleDelayMs: int

    constructor (redis: Redis, windowMs: int, throttleDelayMs: int)
      ensures this.redis == redis && this.windowMs == windowMs && this.throttleDelayMs == throttleDelayMs
    {
      this.redis, this.windowMs, this.throttleDelayMs := redis, windowMs, throttleDelayMs;
    }

    /** One check for one user; `delivery` is what the network does to the call to Redis. */
    method Evaluate(user: string, limit: int, threshold: int, nowMs: int, clock: int, suffix: nat, delivery: Delivery)
      returns (result: Result)
      modifies redis
      ensures var r := Request(nowMs, limit, threshold, suffix, delivery);
              var step := Exec(windowMs, old(redis.keys), Event(clock, Rate(user, r)));
              redis.keys == step.0 && result == ResultOf(windowMs, throttleDelayMs, step.1, r)
    {
      var failOpen := Result(Allow, limit, 0, limit, windowMs, 0);
      if delivery.NotRun? {
        return failOpen;
      }
      var answer := redis.RateLimitScript("ratelimit:user:" + user, clock, nowMs, windowMs, limit, threshold, suffix);
      if delivery.ReplyLost? || !answer.Limited? {
        return failOpen;
      }
      var reply := answer.reply;
      var delay := 0;
      if reply.decision.Throttle? {
        delay := throttleDelayMs;
      }
      return Result(reply.decision, reply.remaining, reply.count, limit, windowMs, delay);
    }
  }

  datatype Tier = Tier(requestsPerMinute: int, throttleAtPercent: int)

  datatype UserContext = UserContext(userId: string, tier: Tier)

  /** The rate-limit headers of a response; the reset time is in whole Unix seconds. */
  datatype Headers = Headers(limit: Option<int>, remaining: Option<int>, reset: Option<int>,
                             throttled: bool, retryAfter: Option<int>)

  class ResponseWriter {
    var headers: Headers
    var status: Option<int>

    constructor ()
      ensures headers == Headers(None, None, None, false, None) && status == None
    {
      headers, status := Headers(None, None, None, false, None), None;
    }

    method InjectRateLimitHeaders(result: Result, nowMs: int)
      modifies this`headers
      ensures headers.limit == Some(result.limit) && headers.remaining == Some(result.remaining)
      ensures headers.reset == Some(ResetSecond(nowMs, result.resetAfterMs))
      ensures headers.throttled == (old(headers).throttled || result.decision.Throttle?)
      ensures headers.retryAfter == if result.decision.Throttle? then Some(TruncDiv(result.throttleDelayMs, 1000) + 1)
                                    else old(headers).retryAfter
    {
      headers := headers.(limit := Some(result.limit));
      headers := headers.(remaining := Some(result.remaining));
      headers := headers.(reset := Some(ResetSecond(nowMs, result.resetAfterMs)));
      if result.decision.Throttle? {
        headers := headers.(throttled := true);
        headers := headers.(retryAfter := Some(TruncDiv(result.throttleDelayMs, 1000) + 1));
      }
    }
  }

  function ResetSecond(nowMs: int, resetAfterMs: int): int {
    (nowMs + resetAfterMs) / 1000
  }

  /** Forwarded at a time, refused with a status, or abandoned by the client during the delay. */
  datatype Outcome = Forwarded(at: int) | Refused(status: int) | ClientGone

  /** What each result leads to; the client may leave while its request is held back. */
  function OutcomeOf(result: Result, answeredMs: int, leavesAt: Option<int>): Outcome {
    match result.decision
    case Reject => Refused(429)
    case Throttle =>
      var wakesAt := answeredMs + if result.throttleDelayMs > 0 then result.throttleDelayMs else 0;
      if leavesAt.Some? && leavesAt.value < wakesAt then ClientGone else Forwarded(wakesAt)
    case Allow => Forwarded(answeredMs)
  }

  /**
   The rate-limit layer for one request, evaluated at `nowMs` and answered at `answeredMs`. `leavesAt` is when
   the client disconnects, if it does; a delay is cut short by it.
   */
  method RateLimit(limiter: Limiter, w: ResponseWriter, user: Option<UserContext>,
                   nowMs: int, clock: int, suffix: nat, delivery: Delivery, answeredMs: int, leavesAt: Option<int>)
    returns (outcome: Outcome, ghost result: Option<Result>)
    modifies limiter.redis, w
    ensures user.None? ==> outcome == Refused(500) && w.status == Some(500) && w.headers == old(w.headers)
                           && limiter.redis.keys == old(limiter.redis.keys)
    ensures user.Some? ==>
      var tier := user.value.tier;
      var r := Request(nowMs, tier.requestsPerMinute,
                       ThrottleThreshold(tier.requestsPerMinute, tier.throttleAtPercent), suffix, delivery);
      var step := Exec(limiter.windowMs, old(limiter.redis.keys), Event(clock, Rate(user.value.userId, r)));
      && limiter.redis.keys == step.0
      && result == Some(ResultOf(limiter.windowMs, limiter.throttleDelayMs, step.1, r))
      && w.headers.limit == Some(tier.requestsPerMinute) && w.headers.remaining == Some(result.value.remaining)
      && w.headers.reset == Some(ResetSecond(answeredMs, limiter.windowMs))
      && w.headers.throttled == (old(w.headers).throttled || result.value.decision.Throttle?)
      && w.headers.retryAfter == (if result.value.decision.Throttle?
                                  then Some(TruncDiv(limiter.throttleDelayMs, 1000) + 1) else old(w.headers).retryAfter)
      && outcome == OutcomeOf(result.value, answeredMs, leavesAt)
      && w.status == if result.value.decision.Reject? then Some(429) else old(w.status)
  {
    if user.None? {
      w.status := Some(500);
      return Refused(500), None;
    }
    var tier := user.value.tier;
    var evaluated := limiter.Evaluate(user.value.userId, tier.requestsPerMinute,
                                      ThrottleThreshold(tier.requestsPerMinute, tier.throttleAtPercent),
                                      nowMs, clock, suffix, delivery);
    result := Some(evaluated);
    w.InjectRateLimitHeaders(evaluated, answeredMs);
    match evaluated.decision {
      case Reject =>
        w.status := Some(429);
        outcome := Refused(429);
      case Throttle =>
        var wakesAt := answeredMs + if evaluated.throttleDelayMs > 0 then evaluated.throttleDelayMs else 0;
        if leavesAt.Some? && leavesAt.value < wakesAt {
          outcome := ClientGone;
        } else {
          outcome := Forwarded(wakesAt);
        }
      case Allow =>
        outcome := Forwarded(answeredMs);
    }
  }

  /**
   What becomes of a request: refused exactly on a delivered rejection, forwarded at once when the call to Redis
   failed, held back the full delay when throttled, and dropped only if its client leaves while it is held back.
   */
  lemma {:induction false} ForwardedInTime(window: int, delay: nat, answer: Answer, r: Request, answeredMs: int,
                                           leavesAt: Option<int>)
    ensures var throttled := ResultOf(window, delay, answer, r).decision.Throttle?;
            var outcome := OutcomeOf(ResultOf(window, delay, answer, r), answeredMs, leavesAt);
            && (outcome == Refused(429) <==> r.delivery.Delivered? && answer.Limited? && answer.reply.decision.Reject?)
            && (!r.delivery.Delivered? ==> outcome == Forwarded(answeredMs))
            && (outcome.ClientGone? <==> throttled && leavesAt.Some? && leavesAt.value < answeredMs + delay)
            && (outcome.Forwarded? ==> outcome.at == if throttled then answeredMs + delay else answeredMs)
  {
  }

  /** The limiter let event `i`, a call of `user`, through. */
  predicate LetThrough(window: int, delay: int, h: History, user: string, i: nat)
    requires i < |h|
  {
    IsUser(h[i], user) && !ResultOf(window, delay, AnswerAt(window, h, i), h[i].command.request).decision.Reject?
  }

  function LetThroughIn(window: int, delay: int, h: History, user: string, a: int, b: int): set<int> {
    set i | 0 <= i < |h| && LetThrough(window, delay, h, user, i) && a <= h[i].command.request.now < b
  }

  /** Where event `i` sits among its user's calls. */
  lemma {:induction false} CallIndex(h: History, user: string, i: nat, n: nat)
    requires i < n <= |h| && IsUser(h[i], user)
    ensures var at := |CallsOf(h, user, i)|;
            at < |CallsOf(h, user, n)| && CallsOf(h, user, n)[at] == h[i].command.request
    ensures CallsOf(h, user, i + 1) <= CallsOf(h, user, n)
  {
    if i + 1 == n {
    } else {
      CallIndex(h, user, i, n - 1);
    }
  }

  /** Two clocks within `slack` of Redis's are at most twice that apart. */
  lemma {:induction false} SkewOfSlack(h: History, user: string, slack: nat, n: nat)
    requires Ordered(h) && Timely(h, user, slack) && n <= |h|
    ensures Skew(CallsOf(h, user, n), 2 * slack)
    ensures n > 0 ==> forall k :: 0 <= k < |CallsOf(h, user, n)| ==> CallsOf(h, user, n)[k].now <= h[n-1].clock + slack
  {
    if n == 0 {
    } else {
      SkewOfSlack(h, user, slack, n - 1);
    }
  }

  /** A call is let through on the shared database exactly when it passes in the user's own run. */
  lemma {:induction false} LetThroughPasses(window: int, delay: int, slack: int, h: History, user: string, i: nat)
    requires Ordered(h) && Tolerates(window, slack) && Timely(h, user, slack) && i < |h| && IsUser(h[i], user)
    ensures var calls, at := CallsOf(h, user, |h|), |CallsOf(h, user, i)|;
            at < |calls| && calls[at] == h[i].command.request &&
            (LetThrough(window, delay, h, user, i) <==> Passes(window, calls, at))
  {
    CallIndex(h, user, i, |h|);
    CallIndex(h, user, i, i + 1);
    var calls, upTo, at := CallsOf(h, user, |h|), CallsOf(h, user, i + 1), |CallsOf(h, user, i)|;
    if !h[i].command.request.delivery.NotRun? {
      SharedRedisIsInvisible(window, slack, h, i);
      assert calls[..at] == upTo[..at];
      ZsetPrefix(window, calls, upTo, at);
      SameLiveSameReply(window, calls, at, upTo, at);
    }
  }

  /**
   What the result of event `i` should tell its user: after a delivered answer, how many of the user's calls the
   window holds now by a log that forgets nothing, and what is left; after a failed call, the full limit.
   */
  ghost predicate TellsTheLog(window: int, delay: int, h: History, user: string, i: nat)
    requires i < |h| && IsUser(h[i], user)
  {
    var calls, at := CallsOf(h, user, i + 1), |CallsOf(h, user, i)|;
    var r := h[i].command.request;
    var result := ResultOf(window, delay, AnswerAt(window, h, i), r);
    && |calls| == at + 1 && calls[at] == r
    && result.limit == r.limit && result.resetAfterMs == window
    && if r.delivery.Delivered? then
         var logged := |Recent(window, calls, Logged(window, calls, at + 1), r.now)|;
         && result.currentCount == logged
         && result.remaining == (if result.decision.Reject? then 0 else r.limit - logged)
         && result.throttleDelayMs == if result.decision.Throttle? then delay else 0
       else result.decision.Allow? && result.remaining == r.limit && result.currentCount == 0 &&
            result.throttleDelayMs == 0
  }

  /** On the shared database every result tells the user's own full log, as long as the user's clocks never go back. */
  lemma {:induction false} ResultTellsTheLog(window: int, delay: int, slack: int, h: History, user: string, i: nat)
    requires window > 0 && Ordered(h) && Tolerates(window, slack) && Timely(h, user, slack)
    requires i < |h| && IsUser(h[i], user)
    requires Monotone(CallsOf(h, user, i + 1)) && Fresh(CallsOf(h, user, i + 1))
    ensures TellsTheLog(window, delay, h, user, i)
  {
    var calls, at := CallsOf(h, user, i + 1), |CallsOf(h, user, i)|;
    if h[i].command.request.delivery.Delivered? {
      SharedRedisIsInvisible(window, slack, h, i);
      PrunedSetRefinesLog(window, calls, at);
    }
  }

  ghost predicate WithinLimits(h: History, user: string, limit: int) {
    forall i :: 0 <= i < |h| && IsUser(h[i], user) ==> h[i].command.request.limit <= limit
  }

  /**
   The end-to-end window bound. Whatever else shares the database and whatever other users' clocks do, a user
   whose own timestamps are within `slack` of Redis's clock gets at most `limit` requests through in any interval
   of `window - 2 * slack` milliseconds, plus one for each repeated suffix and each failed Redis call in it.
   */
  lemma {:induction false} EndToEndBound(window: int, delay: int, slack: nat, limit: nat, h: History, user: string,
                                         calls: Trace, a: int, b: int)
    requires Ordered(h) && Tolerates(window, slack) && Timely(h, user, slack) && WithinLimits(h, user, limit)
    requires calls == CallsOf(h, user, |h|) && b == a + window - 2 * slack
    ensures |LetThroughIn(window, delay, h, user, a, b)|
         <= limit + |CollidedIn(window, calls, a, b)| + |FailedIn(calls, a, b)|
  {
    SkewOfSlack(h, user, slack, |h|);
    LimitsCarryOver(h, user, |h|, limit);
    SkewWindowBound(window, 2 * slack, limit, calls, a);
    ThroughAtMostPassed(window, delay, slack, h, user, a, b);
  }

  lemma {:induction false} ThroughAtMostPassed(window: int, delay: int, slack: nat, h: History, user: string,
                                               a: int, b: int)
    requires Ordered(h) && Tolerates(window, slack) && Timely(h, user, slack)
    ensures |LetThroughIn(window, delay, h, user, a, b)| <= |PassedIn(window, CallsOf(h, user, |h|), a, b)|
  {
    var passed := PassedIn(window, CallsOf(h, user, |h|), a, b);
    var at := (i: int) => if 0 <= i <= |h| then |CallsOf(h, user, i)| else 0;
    var through := LetThroughIn(window, delay, h, user, a, b);
    forall i | i in through ensures at(i) in passed {
      LetThroughPasses(window, delay, slack, h, user, i);
    }
    forall i, j | i in through && j in through && at(i) == at(j) ensures i == j {
      IndexGrows(h, user, i, j);
      IndexGrows(h, user, j, i);
    }
    InjectionSize(through, passed, at);
  }

  lemma {:induction false} IndexGrows(h: History, user: string, i: nat, j: nat)
    requires i < |h| && j < |h| && IsUser(h[i], user)
    ensures i < j ==> |CallsOf(h, user, i)| < |CallsOf(h, user, j)|
  {
    if i < j {
      CallIndex(h, user, i, j);
    }
  }

  lemma {:induction false} LimitsCarryOver(h: History, user: string, n: nat, limit: int)
    requires n <= |h| && WithinLimits(h, user, limit)
    ensures forall k :: 0 <= k < |CallsOf(h, user, n)| ==> CallsOf(h, user, n)[k].limit <= limit
  {
    if n == 0 {
    } else {
      LimitsCarryOver(h, user, n - 1, limit);
    }
  }

  /** What is known of the calls of a history outside Redis: when each was answered, and when its client leaves. */
  datatype Handling = Handling(answeredMs: int, leavesAt: Option<int>)

  /** What the middleware does with event `i`, a call of `user`. */
  function OutcomeAt(window: int, delay: int, h: History, handled: seq<Handling>, i: nat): Outcome
    requires i < |h| == |handled| && h[i].command.Rate?
  {
    OutcomeOf(ResultOf(window, delay, AnswerAt(window, h, i), h[i].command.request),
              handled[i].answeredMs, handled[i].leavesAt)
  }

  predicate ReachesBackend(window: int, delay: int, h: History, handled: seq<Handling>, user: string,
                           i: nat, a: int, b: int)
    requires i < |h| == |handled|
  {
    && IsUser(h[i], user)
    && OutcomeAt(window, delay, h, handled, i).Forwarded?
    && a <= OutcomeAt(window, delay, h, handled, i).at < b
  }

  /** The user's calls that the middleware forwards at a time in [a, b). */
  function BackendIn(window: int, delay: int, h: History, handled: seq<Handling>, user: string,
                     a: int, b: int): set<int>
    requires |h| == |handled|
  {
    set i | 0 <= i < |h| && ReachesBackend(window, delay, h, handled, user, i, a, b)
  }

  /** Every call of the user is answered no earlier than its timestamp and at most `latency` after it. */
  ghost predicate AnsweredWithin(h: History, handled: seq<Handling>, user: string, latency: int)
    requires |h| == |handled|
  {
    forall i :: 0 <= i < |h| && IsUser(h[i], user) ==>
      h[i].command.request.now <= handled[i].answeredMs <= h[i].command.request.now + latency
  }

  /**
   Backend load. With answers at most `latency` after the timestamp and a throttle delay of `delay`, every interval
   of `window - 2 * slack - (latency + delay)` milliseconds of backend time receives at most `limit` of the user's
   requests, plus the collided and failed calls that can reach into it; `served` is whatever later layers keep.
   */
  lemma {:induction false} BackendLoad(window: int, delay: nat, latency: nat, slack: nat, limit: nat, h: History,
                                       handled: seq<Handling>, user: string, calls: Trace, served: set<int>,
                                       a: int, b: int)
    requires Ordered(h) && Tolerates(window, slack) && Timely(h, user, slack) && WithinLimits(h, user, limit)
    requires |h| == |handled| && AnsweredWithin(h, handled, user, latency)
    requires calls == CallsOf(h, user, |h|) && b == a + window - 2 * slack - (latency + delay)
    requires served <= BackendIn(window, delay, h, handled, user, a, b)
    ensures var early := a - (latency + delay);
            |served| <= limit + |CollidedIn(window, calls, early, b)| + |FailedIn(calls, early, b)|
  {
    var early := a - (latency + delay);
    var through := LetThroughIn(window, delay, h, user, early, b);
    forall i | i in served ensures i in through {
      assert ReachesBackend(window, delay, h, handled, user, i, a, b);
      ForwardedInTime(window, delay, AnswerAt(window, h, i), h[i].command.request,
                      handled[i].answeredMs, handled[i].leavesAt);
    }
    SubsetSize(served, through);
    EndToEndBound(window, delay, slack, limit, h, user, calls, early, b);
  }

  /**
   The reset header. After a rejection answered at `answeredMs`, a retry once the second named by the header has
   passed, and the clock skew with it, finds the full quota again, unless a retry in between was already admitted.
   */
  lemma {:induction false} ResetSecondOver(window: int, d: nat, t: Trace, i: nat, j: nat, answeredMs: int)
    requires Skew(t, d) && i < j < |t| && t[j].limit >= 1 && !t[j].delivery.NotRun?
    requires forall k :: i <= k < j ==> !Admits(window, t, k)
    requires t[i].now <= answeredMs && 1000 * (ResetSecond(answeredMs, window) + 1) + d <= t[j].now
    ensures Admits(window, t, j) && ReplyAt(window, t, j).remaining == t[j].limit - 1
  {
    QuotaRestored(window, t, j);
    Decides(window, t, j);
  }

  /**
   Exactly when the second in the header is late enough: the first retry made exactly then is admitted if and only
   if the fraction of a second cut off is no more than the age of the oldest member when the rejection was answered.
   */
  lemma {:induction false} ResetSecondExactly(window: int, d: nat, limit: int, t: Trace, i: nat, j: nat,
                                              oldest: Member, answeredMs: int)
    requires limit >= 1 && Skew(t, d) && i < j < |t| && forall k :: 0 <= k < |t| ==> t[k].limit == limit
    requires !t[i].delivery.NotRun? && !Admits(window, t, i) && Oldest(oldest, Live(window, t, i))
    requires !t[j].delivery.NotRun? && forall k :: i < k < j ==> t[k].now < oldest.ts + window
    requires t[j].now == 1000 * ResetSecond(answeredMs, window)
    ensures Admits(window, t, j) <==> (answeredMs + window) % 1000 <= answeredMs - oldest.ts
  {
    ExactReopening(window, d, limit, t, i, j, oldest);
  }

  /** The header rounds down: a client that retries exactly at the second it names can still be rejected. */
  lemma {:induction false} ResetSecondTooEarly() returns (t: Trace)
    ensures Monotone(t) && Fresh(t) && |t| == 3
    ensures forall k :: 0 <= k < 3 ==> t[k].limit == 1 && t[k].delivery.Delivered?
    ensures !Admits(60000, t, 1) && t[2].now == 1000 * ResetSecond(t[1].now, 60000) && !Admits(60000, t, 2)
  {
    t := [Request(1500, 1, 1, 1, Delivered), Request(1600, 1, 1, 2, Delivered), Request(61000, 1, 1, 3, Delivered)];
    AdmitStep(60000, t, 0, {}, 0);
    assert Live(60000, t, 1) == {t[0].Stamp()};
    ZsetNext(60000, t, 1);
    Decides(60000, t, 1);
    assert Live(60000, t, 2) == {t[0].Stamp()};
    Decides(60000, t, 2);
  }
}
