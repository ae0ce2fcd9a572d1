/**
 What the limiter guarantees about every interval of time, for pods whose clocks disagree by
 up to `d` milliseconds, for repeated random suffixes and for calls that fail open.
 */
module WindowBounds {
  import opened Basics
  import opened SlidingWindow

  /** Calls let through with a timestamp in the half-open interval [a, b). */
  function PassedIn(window: int, t: Trace, a: int, b: int): set<int> {
    set i | 0 <= i < |t| && Passes(window, t, i) && a <= t[i].now < b
  }

  function CollidedIn(window: int, t: Trace, a: int, b: int): set<int> {
    set i | 0 <= i < |t| && Collides(window, t, i) && a <= t[i].now < b
  }

  function FailedIn(t: Trace, a: int, b: int): set<int> {
    set i | 0 <= i < |t| && !t[i].delivery.Delivered? && a <= t[i].now < b
  }

  /** Calls that were delivered, admitted, and added a new member. */
  function CleanIn(window: int, t: Trace, a: int, b: int): set<int> {
    set i | 0 <= i < |t| && Admits(window, t, i) && !Collides(window, t, i) && t[i].delivery.Delivered? &&
            a <= t[i].now < b
  }

  /** Calls let through without delay (decision 1). */
  function UndelayedIn(window: int, t: Trace, a: int, b: int): set<int> {
    set i | 0 <= i < |t| && t[i].delivery.Delivered? && ReplyAt(window, t, i).decision.Allow? && a <= t[i].now < b
  }

  /** An admission is still counted by every later call less than `window - d` away. */
  lemma {:induction false} Retained(window: int, d: nat, t: Trace, i: nat, j: nat, a: int)
    requires Skew(t, d) && i < j < |t| && Admits(window, t, i)
    requires a <= t[i].now && t[j].now < a + window - d
    ensures t[i].Stamp() in Live(window, t, j)
  {
    assert Records(window, t, i, j, t[i].Stamp());
    ZsetContents(window, t, j, t[i].Stamp());
  }

  /** Calls close together that each found fewer than `bound` members are at most `bound` many. */
  lemma {:induction false} FoundFewer(window: int, d: nat, t: Trace, a: int, calls: set<int>, bound: nat)
    requires Skew(t, d)
    requires forall i :: i in calls ==> 0 <= i < |t| && Admits(window, t, i) && !Collides(window, t, i)
    requires forall i :: i in calls ==> a <= t[i].now < a + window - d && |Live(window, t, i)| < bound
    ensures |calls| <= bound
  {
    if |calls| == 0 {
    } else {
      var some := Pick(calls);
      var last := Largest(calls, some, |t|);
      var earlier := calls - {last};
      var stamp := (i: int) => if 0 <= i < |t| then t[i].Stamp() else Member(0, 0);
      forall i | i in earlier ensures stamp(i) in Live(window, t, last) {
        Retained(window, d, t, i, last, a);
      }
      forall i, j | i in earlier && j in earlier && stamp(i) == stamp(j) ensures i == j {
        if i < j {
          Retained(window, d, t, i, j, a);
        } else if j < i {
          Retained(window, d, t, j, i, a);
        }
      }
      InjectionSize(earlier, Live(window, t, last), stamp);
    }
  }

  lemma {:induction false} CleanBound(window: int, d: nat, limit: nat, t: Trace, a: int, b: int)
    requires Skew(t, d) && b == a + window - d && forall i :: 0 <= i < |t| ==> t[i].limit <= limit
    ensures |CleanIn(window, t, a, b)| <= limit
  {
    var clean := CleanIn(window, t, a, b);
    forall i | i in clean ensures |Live(window, t, i)| < limit {
      Decides(window, t, i);
    }
    FoundFewer(window, d, t, a, clean, limit);
  }

  /** A passed call is clean, or collided, or failed open. */
  lemma {:induction false} SplitPassed(window: int, t: Trace, a: int, b: int)
    ensures |PassedIn(window, t, a, b)|
         <= |CleanIn(window, t, a, b)| + |CollidedIn(window, t, a, b)| + |FailedIn(t, a, b)|
  {
    var clean, collided, failed := CleanIn(window, t, a, b), CollidedIn(window, t, a, b), FailedIn(t, a, b);
    CoverSize(PassedIn(window, t, a, b), clean + collided, failed);
    UnionSize(clean, collided);
  }

  /**
   Window bound. With clock skew at most `d`, every half-open interval of length `window - d`
   lets through at most `limit` calls, plus one for each collision and each failed call in it.
   */
  lemma {:induction false} SkewWindowBound(window: int, d: nat, limit: nat, t: Trace, a: int)
    requires Skew(t, d) && forall i :: 0 <= i < |t| ==> t[i].limit <= limit
    ensures var b := a + window - d;
            |PassedIn(window, t, a, b)| <= limit + |CollidedIn(window, t, a, b)| + |FailedIn(t, a, b)|
  {
    CleanBound(window, d, limit, t, a, a + window - d);
    SplitPassed(window, t, a, a + window - d);
  }

  /** A full quota at time 0, one call a window later, and one from a clock `d` behind that. */
  ghost predicate SkewedRun(window: int, d: int, limit: nat, t: Trace) {
    && |t| == limit + 2
    && (forall i :: 0 <= i < limit ==> t[i] == Request(0, limit, limit, i, Delivered))
    && t[limit] == Request(window, limit, limit, limit, Delivered)
    && t[limit + 1] == Request(window - d, limit, limit, limit, Delivered)
  }

  /** The `- d` cannot be dropped: for any limit of at least two, one millisecond more can hold one call too many. */
  lemma {:induction false} SkewBoundIsTight(window: int, d: int, limit: nat) returns (t: Trace)
    requires 1 <= d < window && limit >= 2
    ensures Skew(t, d) && Fresh(t) && forall i :: 0 <= i < |t| ==> t[i].limit == limit && t[i].delivery.Delivered?
    ensures |PassedIn(window, t, 0, window - d + 1)| > limit
  {
    t := MakeSkewedRun(window, d, limit);
    LastIsLetThrough(window, d, limit, t);
    OneTooMany(window, t, limit, window - d + 1);
  }

  lemma {:induction false} MakeSkewedRun(window: int, d: int, limit: nat) returns (t: Trace)
    requires 1 <= d < window
    ensures SkewedRun(window, d, limit, t) && Skew(t, d) && Fresh(t)
    ensures forall i :: 0 <= i < |t| ==> t[i].limit == limit && t[i].delivery.Delivered?
  {
    t := seq(limit, (i: nat) => Request(0, limit, limit, i, Delivered)) +
         [Request(window, limit, limit, limit, Delivered), Request(window - d, limit, limit, limit, Delivered)];
  }

  ghost predicate LetThrough(window: int, t: Trace, i: int) {
    0 <= i < |t| && Passes(window, t, i)
  }

  lemma {:induction false} LastIsLetThrough(window: int, d: int, limit: nat, t: Trace)
    requires 1 <= d < window && limit >= 2 && SkewedRun(window, d, limit, t)
    ensures forall i :: 0 <= i < limit ==> LetThrough(window, t, i)
    ensures LetThrough(window, t, limit + 1)
  {
    FillsUp(window, t, limit, limit);
    assert Live(window, t, limit) == {};
    AdmitStep(window, t, limit, {}, 0);
    var only := {t[limit].Stamp()};
    assert Live(window, t, limit + 1) == only;
    AdmitStep(window, t, limit + 1, only, 1);
  }

  /** The first `n` calls, all at time 0, are let through and stay in the set. */
  lemma {:induction false} FillsUp(window: int, t: Trace, limit: nat, n: nat)
    requires window > 0 && n <= limit <= |t|
    requires forall i :: 0 <= i < limit ==> t[i] == Request(0, limit, limit, i, Delivered)
    ensures Filled(Zset(window, t, n), n) && forall i :: 0 <= i < n ==> LetThrough(window, t, i)
  {
    if n == 0 {
    } else {
      var last := n - 1;
      var before := Zset(window, t, last);
      FillsUp(window, t, limit, last);
      OneMoreFilled(window, before, last);
      AdmitStep(window, t, last, before, last);
    }
  }

  ghost predicate Filled(s: set<Member>, n: nat) {
    |s| == n && forall m :: m in s ==> m.ts == 0 && m.suffix < n
  }

  lemma {:induction false} OneMoreFilled(window: int, s: set<Member>, n: nat)
    requires window > 0 && Filled(s, n)
    ensures Prune(s, -window) == s && Filled(s + {Member(0, n)}, n + 1)
  {
    assert Member(0, n) !in s;
  }

  lemma {:induction false} OneTooMany(window: int, t: Trace, limit: nat, b: int)
    requires |t| == limit + 2 && 0 < b <= t[limit].now && 0 <= t[limit + 1].now < b
    requires forall i :: 0 <= i < limit ==> t[i].now == 0
    requires forall i :: 0 <= i < limit ==> LetThrough(window, t, i)
    requires LetThrough(window, t, limit + 1)
    ensures |PassedIn(window, t, 0, b)| > limit
  {
    var last: int := limit + 1;
    Below(limit);
    forall i | i in UpTo(limit) + {last} ensures i in PassedIn(window, t, 0, b) {
      assert LetThrough(window, t, i);
    }
    SubsetSize(UpTo(limit) + {last}, PassedIn(window, t, 0, b));
  }

  function UpTo(n: nat): set<int> {
    if n == 0 then {} else UpTo(n - 1) + {n - 1}
  }

  lemma {:induction false} Below(n: nat)
    ensures |UpTo(n)| == n && forall i :: i in UpTo(n) <==> 0 <= i < n
  {
    if n == 0 {
    } else {
      Below(n - 1);
    }
  }

  lemma {:induction false} AdmitStep(window: int, t: Trace, i: nat, live: set<Member>, count: nat)
    requires i < |t| && !t[i].delivery.NotRun? && Live(window, t, i) == live && |live| == count < t[i].limit
    ensures Admits(window, t, i) && Zset(window, t, i + 1) == live + {t[i].Stamp()}
  {
  }

  /** The collision term cannot be dropped: a repeated suffix lets any number of calls through in one millisecond. */
  lemma {:induction false} RepeatedSuffix(window: int, t: Trace, r: Request, n: nat)
    requires window > 0 && r.limit >= 2 && r.delivery.Delivered? && n <= |t|
    requires forall i :: 0 <= i < |t| ==> t[i] == r
    ensures Zset(window, t, n) == if n == 0 then {} else {r.Stamp()}
    ensures forall i :: 0 <= i < n ==> Admits(window, t, i)
  {
    if n == 0 {
    } else {
      RepeatedSuffix(window, t, r, n - 1);
      RepeatedOnce(window, t, r, n - 1);
    }
  }

  lemma {:induction false} RepeatedOnce(window: int, t: Trace, r: Request, n: nat)
    requires window > 0 && r.limit >= 2 && r.delivery.Delivered? && n < |t| && t[n] == r
    requires Zset(window, t, n) <= {r.Stamp()}
    ensures Admits(window, t, n) && Zset(window, t, n + 1) == {r.Stamp()}
  {
    var found := Zset(window, t, n);
    assert Prune(found, r.now - window) == found;
    SubsetSize(found, {r.Stamp()});
    AdmitStep(window, t, n, found, |found|);
  }

  /** Long-run rate: an interval of length `span` lets through `limit` calls for each started window in it. */
  lemma {:induction false} LongRunRate(window: int, d: nat, limit: nat, t: Trace, a: int, span: nat)
    requires Skew(t, d) && d < window && forall i :: 0 <= i < |t| ==> t[i].limit <= limit
    ensures |PassedIn(window, t, a, a + span)|
         <= limit * CeilDiv(span, window - d) + |CollidedIn(window, t, a, a + span)| + |FailedIn(t, a, a + span)|
  {
    var k := CeilDiv(span, window - d);
    var b := a + k * (window - d);
    CleanOverWindows(window, d, limit, t, a, k, b, limit * k);
    CleanWider(window, t, a, a + span, b);
    SplitPassed(window, t, a, a + span);
  }

  lemma {:induction false} CleanWider(window: int, t: Trace, a: int, mid: int, b: int)
    requires mid <= b
    ensures |CleanIn(window, t, a, mid)| <= |CleanIn(window, t, a, b)|
  {
    SubsetSize(CleanIn(window, t, a, mid), CleanIn(window, t, a, b));
  }

  lemma {:induction false} CleanOneMore(window: int, d: nat, limit: nat, t: Trace, a: int, mid: int, b: int)
    requires Skew(t, d) && b == mid + window - d && forall i :: 0 <= i < |t| ==> t[i].limit <= limit
    ensures |CleanIn(window, t, a, b)| <= |CleanIn(window, t, a, mid)| + limit
  {
    CleanBound(window, d, limit, t, mid, b);
    CleanSplit(window, t, a, mid, b);
  }

  lemma {:induction false} CleanSplit(window: int, t: Trace, a: int, mid: int, b: int)
    ensures |CleanIn(window, t, a, b)| <= |CleanIn(window, t, a, mid)| + |CleanIn(window, t, mid, b)|
  {
    CoverSize(CleanIn(window, t, a, b), CleanIn(window, t, a, mid), CleanIn(window, t, mid, b));
  }

  lemma {:induction false} CleanOverWindows(window: int, d: nat, limit: nat, t: Trace, a: int,
                                            k: nat, b: int, total: int)
    requires Skew(t, d) && d < window && forall i :: 0 <= i < |t| ==> t[i].limit <= limit
    requires b == a + k * (window - d) && total == limit * k
    ensures |CleanIn(window, t, a, b)| <= total
  {
    if k == 0 {
      NoneIn(window, t, a);
    } else {
      OneMore(window - d, k);
      OneMore(limit, k);
      var mid := b - (window - d);
      CleanOverWindows(window, d, limit, t, a, k - 1, mid, total - limit);
      CleanOneMore(window, d, limit, t, a, mid, b);
    }
  }

  lemma {:induction false} NoneIn(window: int, t: Trace, a: int)
    ensures |CleanIn(window, t, a, a)| == 0
  {
    assert CleanIn(window, t, a, a) == {};
  }

  lemma {:induction false} OneMore(w: int, k: int)
    ensures k * w == (k - 1) * w + w && w * k == w * (k - 1) + w
  {
  }

  /**
   The share below which calls go undelayed: a call that finds `found` members is throttled exactly if it would
   be more than `percent` per cent of the limit, itself included, and still within the limit.
   */
  lemma {:induction false} ThrottledFromShare(window: int, t: Trace, i: nat, limit: int, percent: int)
    requires i < |t| && t[i].limit == limit && t[i].threshold == ThrottleThreshold(limit, percent)
    ensures var found, decision := |Live(window, t, i)|, ReplyAt(window, t, i).decision;
            && (decision.Allow? <==> found < limit && 100 * (found + 1) <= limit * percent)
            && (decision.Throttle? <==> found < limit && 100 * (found + 1) > limit * percent)
  {
    Decides(window, t, i);
  }

  /**
   Undelayed traffic: with a tier of `limit` requests throttled from `percent` per cent on, every
   interval of length `window - d` passes at most min(limit, floor(limit * percent / 100)) calls undelayed,
   plus collisions; and a threshold at or over the limit never throttles.
   */
  lemma {:induction false} UndelayedBound(window: int, d: nat, limit: nat, percent: nat, t: Trace, a: int, b: int)
    requires Skew(t, d) && b == a + window - d
    requires forall i :: 0 <= i < |t| ==> t[i].limit == limit && t[i].threshold == ThrottleThreshold(limit, percent)
    ensures var share, undelayed := ThrottleThreshold(limit, percent), |UndelayedIn(window, t, a, b)|;
            && undelayed <= (if share < limit then share else limit) + |CollidedIn(window, t, a, b)|
            && 100 * (undelayed - |CollidedIn(window, t, a, b)|) <= limit * percent
    ensures forall i :: 0 <= i < |t| && ReplyAt(window, t, i).decision.Throttle? ==> percent < 100
  {
    var share := ThrottleThreshold(limit, percent);
    UndelayedAtMost(window, d, if share < limit then share else limit, t, a, b);
    if percent >= 100 {
      forall i | 0 <= i < |t| ensures !ReplyAt(window, t, i).decision.Throttle? {
        FullShare(window, t, i, limit, percent);
      }
    }
  }

  lemma {:induction false} FullShare(window: int, t: Trace, i: nat, limit: nat, percent: nat)
    requires i < |t| && t[i].limit == limit && t[i].threshold == ThrottleThreshold(limit, percent) && percent >= 100
    ensures !ReplyAt(window, t, i).decision.Throttle?
  {
    assert limit * percent == limit * 100 + limit * (percent - 100);
    assert limit * (percent - 100) >= 0;
    Decides(window, t, i);
  }

  lemma {:induction false} UndelayedAtMost(window: int, d: nat, bound: nat, t: Trace, a: int, b: int)
    requires Skew(t, d) && b == a + window - d
    requires forall i :: 0 <= i < |t| ==> t[i].limit <= bound || t[i].threshold <= bound
    ensures |UndelayedIn(window, t, a, b)| <= bound + |CollidedIn(window, t, a, b)|
  {
    var growing := UndelayedIn(window, t, a, b) - CollidedIn(window, t, a, b);
    forall i | i in growing
      ensures Admits(window, t, i) && !Collides(window, t, i) && |Live(window, t, i)| < bound
    {
      AllowedFoundFewer(window, t, bound, i);
    }
    FoundFewer(window, d, t, a, growing, bound);
    CoverSize(UndelayedIn(window, t, a, b), growing, CollidedIn(window, t, a, b));
  }

  lemma {:induction false} AllowedFoundFewer(window: int, t: Trace, bound: int, i: nat)
    requires i < |t| && (t[i].limit <= bound || t[i].threshold <= bound)
    requires t[i].delivery.Delivered? && ReplyAt(window, t, i).decision.Allow?
    ensures Admits(window, t, i) && |Live(window, t, i)| < bound
  {
    Decides(window, t, i);
  }

  /**
   Backend bound, for any forward times. `forwards` maps passed calls to the time they reach the backend,
   at most `delay` after their timestamp; later layers may drop any of them. Every interval of length
   `window - d - delay` of backend time receives at most `limit`, plus the collided and failed calls that
   can reach into it.
   */
  lemma {:induction false} BackendBound(window: int, d: nat, delay: nat, limit: nat, t: Trace,
                                        forwards: map<int, int>, a: int)
    requires Skew(t, d) && forall i :: 0 <= i < |t| ==> t[i].limit <= limit
    requires forall i :: i in forwards ==> 0 <= i < |t| && Passes(window, t, i)
    requires forall i :: i in forwards ==> t[i].now <= forwards[i] <= t[i].now + delay
    ensures var b := a + window - d - delay;
            |set i | i in forwards && a <= forwards[i] < b|
              <= limit + |CollidedIn(window, t, a - delay, b)| + |FailedIn(t, a - delay, b)|
  {
    var b := a + window - d - delay;
    SkewWindowBound(window, d, limit, t, a - delay);
    SubsetSize((set i | i in forwards && a <= forwards[i] < b), PassedIn(window, t, a - delay, b));
  }
}
