/**
 The script against every other admission policy: no way of choosing calls from the same
 arrivals, with at most `limit` in every window, ever gets ahead of what the limiter lets through.
 */
module GreedyOptimality {
  import opened Basics
  import opened SlidingWindow
  import opened WindowBounds

  function Below(calls: set<int>, n: int): set<int> {
    set i | i in calls && i < n
  }

  function Within(t: Trace, calls: set<int>, a: int, b: int): set<int> {
    set i | i in calls && 0 <= i < |t| && a <= t[i].now < b
  }

  /** Everything the limiter lets through in the run. */
  function Passed(window: int, t: Trace): set<int> {
    set i | 0 <= i < |t| && Passes(window, t, i)
  }

  /** A choice of calls with at most `limit` in every half-open interval of the window's length. */
  ghost predicate Feasible(window: int, t: Trace, limit: int, calls: set<int>) {
    && (forall i :: i in calls ==> 0 <= i < |t|)
    && (forall a, b {:trigger Within(t, calls, a, b)} :: b == a + window ==> |Within(t, calls, a, b)| <= limit)
  }

  /**
   On every prefix of every arrival sequence the limiter has let through at least as many calls as any
   policy within `limit`; failed-open calls and repeated suffixes only help it.
   */
  lemma {:induction false} NoPolicyGetsAhead(window: int, t: Trace, limit: int, rival: set<int>, n: nat)
    requires window > 0 && Monotone(t) && n <= |t|
    requires forall i :: 0 <= i < |t| ==> t[i].limit >= limit
    requires Feasible(window, t, limit, rival)
    ensures |Below(rival, n)| <= |Below(Passed(window, t), n)|
  {
    if n == 0 {
      BelowNone(rival);
    } else {
      var c := n - 1;
      NoPolicyGetsAhead(window, t, limit, rival, c);
      BelowNext(rival, c);
      BelowNext(Passed(window, t), c);
      if c in rival && !Passes(window, t, c) {
        var m := WindowStart(t, c, t[c].now - window);
        NoPolicyGetsAhead(window, t, limit, rival, m);
        RivalSpendsAtMost(window, t, limit, rival, c, m);
        RejectedAfterLimit(window, t, c, m);
      }
    }
  }

  lemma {:induction false} BelowNone(calls: set<int>)
    requires forall i :: i in calls ==> 0 <= i
    ensures |Below(calls, 0)| == 0
  {
    assert Below(calls, 0) == {};
  }

  lemma {:induction false} BelowNext(calls: set<int>, n: int)
    ensures |Below(calls, n + 1)| == |Below(calls, n)| + if n in calls then 1 else 0
  {
    if n in calls {
      assert Below(calls, n + 1) == Below(calls, n) + {n};
    } else {
      assert Below(calls, n + 1) == Below(calls, n);
    }
  }

  /** The first index whose timestamp is above `bound`. */
  lemma {:induction false} WindowStart(t: Trace, c: nat, bound: int) returns (m: nat)
    requires Monotone(t) && c < |t| && bound < t[c].now
    ensures m <= c && (forall i :: 0 <= i < m ==> t[i].now <= bound) && (forall i :: m <= i <= c ==> bound < t[i].now)
  {
    if c == 0 || t[c-1].now <= bound {
      m := c;
    } else {
      m := WindowStart(t, c - 1, bound);
    }
  }

  /** From `m` to `c` inclusive the rival chooses at most `limit` calls: they share one window. */
  lemma {:induction false} RivalSpendsAtMost(window: int, t: Trace, limit: int, rival: set<int>, c: nat, m: nat)
    requires Monotone(t) && m <= c < |t| && Feasible(window, t, limit, rival)
    requires forall i :: m <= i <= c ==> t[c].now - window < t[i].now
    ensures |Below(rival, c + 1)| <= |Below(rival, m)| + limit
  {
    var a := t[c].now - window + 1;
    CoverSize(Below(rival, c + 1), Below(rival, m), Within(t, rival, a, a + window));
  }

  /** If the limiter turns call `c` away, it let `limit` calls through since the window opened at `m`. */
  lemma {:induction false} RejectedAfterLimit(window: int, t: Trace, c: nat, m: nat)
    requires m <= c < |t| && !Passes(window, t, c)
    requires forall i :: 0 <= i < m ==> t[i].now <= t[c].now - window
    ensures |Below(Passed(window, t), m)| + t[c].limit <= |Below(Passed(window, t), c + 1)|
  {
    var passed := Passed(window, t);
    var recent := set i | i in passed && m <= i < c;
    var live := Live(window, t, c);
    var stamp := (i: int) => if 0 <= i < |t| then t[i].Stamp() else Member(0, 0);
    forall member | member in live ensures exists i :: i in recent && stamp(i) == member {
      ZsetContents(window, t, c, member);
      var i :| Records(window, t, i, c, member);
      assert i in recent && stamp(i) == member;
    }
    ImageSize(recent, live, stamp);
    Decides(window, t, c);
    DisjointSize(Below(passed, c + 1), Below(passed, m), recent);
  }

  /** The k-th call let through is never later than the rival's k-th. */
  lemma {:induction false} NeverLater(window: int, t: Trace, limit: int, rival: set<int>, r: int) returns (g: int)
    requires window > 0 && Monotone(t)
    requires forall i :: 0 <= i < |t| ==> t[i].limit >= limit
    requires Feasible(window, t, limit, rival) && r in rival
    ensures g in Passed(window, t) && |Below(Passed(window, t), g)| == |Below(rival, r)|
    ensures g <= r && t[g].now <= t[r].now
  {
    NoPolicyGetsAhead(window, t, limit, rival, r + 1);
    BelowNext(rival, r);
    g := Kth(Passed(window, t), r + 1, |Below(rival, r)|);
  }

  lemma {:induction false} Kth(calls: set<int>, n: nat, k: nat) returns (g: int)
    requires forall i :: i in calls ==> 0 <= i
    requires |Below(calls, n)| > k
    ensures g in calls && g < n && |Below(calls, g)| == k
  {
    if n == 0 {
      BelowNone(calls);
    } else {
      BelowNext(calls, n - 1);
      if |Below(calls, n - 1)| > k {
        g := Kth(calls, n - 1, k);
      } else {
        g := n - 1;
      }
    }
  }

  lemma {:induction false} FreshNeverCollides(window: int, t: Trace, i: nat)
    requires Fresh(t) && i < |t|
    ensures !Collides(window, t, i)
  {
    var stamp := t[i].Stamp();
    assert forall k :: !Records(window, t, k, i, stamp);
    ZsetContents(window, t, i, stamp);
  }

  /** With distinct members and no Redis failure, what the script lets through is itself a largest feasible choice. */
  lemma {:induction false} ScriptIsOptimal(window: int, t: Trace, limit: nat, rival: set<int>)
    requires window > 0 && Monotone(t) && Fresh(t)
    requires forall i :: 0 <= i < |t| ==> t[i].limit == limit && t[i].delivery.Delivered?
    ensures Feasible(window, t, limit, Passed(window, t))
    ensures Feasible(window, t, limit, rival) ==> |rival| <= |Passed(window, t)|
  {
    var passed := Passed(window, t);
    forall a, b | b == a + window ensures |Within(t, passed, a, b)| <= limit {
      PassedWithin(window, t, limit, a, b);
    }
    if Feasible(window, t, limit, rival) {
      NoPolicyGetsAhead(window, t, limit, rival, |t|);
      assert Below(rival, |t|) == rival;
      assert Below(passed, |t|) == passed;
    }
  }

  lemma {:induction false} PassedWithin(window: int, t: Trace, limit: nat, a: int, b: int)
    requires Monotone(t) && Fresh(t) && b == a + window
    requires forall i :: 0 <= i < |t| ==> t[i].limit == limit && t[i].delivery.Delivered?
    ensures |Within(t, Passed(window, t), a, b)| <= limit
  {
    SkewWindowBound(window, 0, limit, t, a);
    forall i | 0 <= i < |t| ensures !Collides(window, t, i) {
      FreshNeverCollides(window, t, i);
    }
    assert CollidedIn(window, t, a, b) == {};
    assert FailedIn(t, a, b) == {};
    assert Within(t, Passed(window, t), a, b) == PassedIn(window, t, a, b);
  }
}
