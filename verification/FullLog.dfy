/**
 The pruned set against a limiter that forgets nothing, and what rejected calls leave behind.
 */
module FullLog {
  import opened Basics
  import opened SlidingWindow

  /** Logged calls with a timestamp in the live window (now - window, now]. */
  function Recent(window: int, t: Trace, log: set<int>, now: int): set<int> {
    set i | i in log && 0 <= i < |t| && now - window < t[i].now <= now
  }

  /** A naive limiter: every admission stays in the log for good and each call counts the recent ones. */
  function Logged(window: int, t: Trace, n: nat): set<int>
    requires n <= |t|
  {
    if n == 0 then {}
    else
      var log, r := Logged(window, t, n - 1), t[n-1];
      if r.delivery.NotRun? || |Recent(window, t, log, r.now)| >= r.limit then log else log + {n - 1}
  }

  /**
   What a reply should say about the log: rejected at the limit, throttled from the threshold on;
   the count is the number of calls in the window once this one is dealt with.
   */
  ghost predicate Agrees(window: int, t: Trace, i: nat, reply: Reply)
    requires i < |t|
  {
    var before := |Recent(window, t, Logged(window, t, i), t[i].now)|;
    var after := |Recent(window, t, Logged(window, t, i + 1), t[i].now)|;
    && (reply.decision.Reject? <==> before >= t[i].limit)
    && (reply.decision.Throttle? <==> t[i].threshold <= before < t[i].limit)
    && reply.count == after
    && reply.remaining == if reply.decision.Reject? then 0 else t[i].limit - after
  }

  /** Pruning loses nothing: with monotone clocks and distinct members every reply agrees with the full log. */
  lemma {:induction false} PrunedSetRefinesLog(window: int, t: Trace, i: nat)
    requires window > 0 && Monotone(t) && Fresh(t) && i < |t| && !t[i].delivery.NotRun?
    ensures Agrees(window, t, i, ReplyAt(window, t, i))
  {
    LoggedIsAdmitted(window, t, i);
    LiveIsRecent(window, t, i);
    LogGrows(window, t, i);
    ReplyCounts(window, t, i);
  }

  lemma {:induction false} ReplyCounts(window: int, t: Trace, i: nat)
    requires i < |t|
    ensures var found, reply, r := |Live(window, t, i)|, ReplyAt(window, t, i), t[i];
            && (reply.decision.Reject? <==> found >= r.limit)
            && (reply.decision.Throttle? <==> r.threshold <= found < r.limit)
            && reply.count == (if found < r.limit then found + 1 else found)
            && reply.remaining == if reply.decision.Reject? then 0 else r.limit - reply.count
  {
  }

  lemma {:induction false} LogGrows(window: int, t: Trace, i: nat)
    requires window > 0 && i < |t| && !t[i].delivery.NotRun?
    requires Logged(window, t, i) == AdmittedBelow(window, t, i)
    ensures var before := Recent(window, t, Logged(window, t, i), t[i].now);
            |Recent(window, t, Logged(window, t, i + 1), t[i].now)| == |before| + if |before| < t[i].limit then 1 else 0
  {
    var log, now := Logged(window, t, i), t[i].now;
    var self: int := i;
    if |Recent(window, t, log, now)| < t[i].limit {
      assert Recent(window, t, log + {self}, now) == Recent(window, t, log, now) + {self};
    }
  }

  lemma {:induction false} LoggedIsAdmitted(window: int, t: Trace, n: nat)
    requires Monotone(t) && Fresh(t) && n <= |t|
    ensures Logged(window, t, n) == AdmittedBelow(window, t, n)
  {
    if n == 0 {
    } else {
      var last := n - 1;
      LoggedIsAdmitted(window, t, last);
      LiveIsRecent(window, t, last);
      AdmittedNext(window, t, last);
      LoggedNext(window, t, last);
      AdmitsBelowLimit(window, t, last);
    }
  }

  lemma {:induction false} AdmitsBelowLimit(window: int, t: Trace, n: nat)
    requires n < |t|
    ensures Admits(window, t, n) <==> !t[n].delivery.NotRun? && |Live(window, t, n)| < t[n].limit
  {
  }

  lemma {:induction false} LoggedNext(window: int, t: Trace, n: nat)
    requires n < |t|
    ensures var log, r := Logged(window, t, n), t[n];
            Logged(window, t, n + 1) ==
            log + if !r.delivery.NotRun? && |Recent(window, t, log, r.now)| < r.limit then {n as int} else {}
  {
    var log := Logged(window, t, n);
    assert log + {} == log;
  }

  function AdmittedBelow(window: int, t: Trace, n: nat): set<int>
    requires n <= |t|
  {
    set i | 0 <= i < n && Admits(window, t, i)
  }

  lemma {:induction false} AdmittedNext(window: int, t: Trace, n: nat)
    requires n < |t|
    ensures AdmittedBelow(window, t, n + 1)
         == AdmittedBelow(window, t, n) + if Admits(window, t, n) then {n as int} else {}
  {
  }

  /** Members in the pruned set and recent entries of the log correspond one to one. */
  lemma {:induction false} LiveIsRecent(window: int, t: Trace, i: nat)
    requires Monotone(t) && Fresh(t) && i < |t|
    requires Logged(window, t, i) == AdmittedBelow(window, t, i)
    ensures |Live(window, t, i)| == |Recent(window, t, Logged(window, t, i), t[i].now)|
  {
    var live, recent := Live(window, t, i), Recent(window, t, Logged(window, t, i), t[i].now);
    var stamp := (k: int) => if 0 <= k < |t| then t[k].Stamp() else Member(0, 0);
    forall k | k in recent ensures stamp(k) in live {
      assert Records(window, t, k, i, stamp(k));
      ZsetContents(window, t, i, stamp(k));
    }
    InjectionSize(recent, live, stamp);
    forall m | m in live ensures exists k :: k in recent && stamp(k) == m {
      ZsetContents(window, t, i, m);
      var k :| Records(window, t, k, i, m);
      assert k in recent && stamp(k) == m;
    }
    ImageSize(recent, live, stamp);
  }

  /** The run with the calls of `drop` taken out, up to call `n`. */
  function Keep(t: Trace, drop: set<int>, n: nat): Trace
    requires n <= |t|
  {
    if n == 0 then []
    else if n - 1 in drop then Keep(t, drop, n - 1)
    else Keep(t, drop, n - 1) + [t[n-1]]
  }

  lemma {:induction false} KeepPrefix(t: Trace, drop: set<int>, m: nat, n: nat)
    requires m <= n <= |t|
    ensures Keep(t, drop, m) <= Keep(t, drop, n)
  {
    if m == n {
    } else {
      KeepPrefix(t, drop, m, n - 1);
    }
  }

  /**
   Rejected calls leave no trace: taking any of them out of a run changes no reply to any other call.
   */
  lemma {:induction false} RejectionsLeaveNoTrace(window: int, t: Trace, drop: set<int>, i: nat)
    requires Monotone(t) && i < |t| && i !in drop
    requires forall k :: k in drop ==> 0 <= k < |t| && !Admits(window, t, k)
    ensures var kept, at := Keep(t, drop, |t|), |Keep(t, drop, i)|;
            at < |kept| && kept[at] == t[i] && ReplyAt(window, kept, at) == ReplyAt(window, t, i)
  {
    KeptAt(t, drop, i);
    SameFromHere(window, t, drop, i, t[i].now - window);
    SameReplyAfter(window, Keep(t, drop, |t|), Keep(t, drop, i), t, i);
  }

  lemma {:induction false} SameReplyAfter(window: int, kept: Trace, before: Trace, t: Trace, i: nat)
    requires |before| < |kept| && kept[..|before|] == before && i < |t| && kept[|before|] == t[i]
    requires var cut := t[i].now - window; Prune(Zset(window, before, |before|), cut) == Prune(Zset(window, t, i), cut)
    ensures ReplyAt(window, kept, |before|) == ReplyAt(window, t, i)
  {
    ZsetPrefix(window, kept, before, |before|);
    SameLiveSameReply(window, kept, |before|, t, i);
  }

  /** Where call `i` sits in the thinned run. */
  lemma {:induction false} KeptAt(t: Trace, drop: set<int>, i: nat)
    requires i < |t| && i !in drop
    ensures var kept, before := Keep(t, drop, |t|), Keep(t, drop, i);
            |before| < |kept| && kept[..|before|] == before && kept[|before|] == t[i]
  {
    KeepPrefix(t, drop, i + 1, |t|);
  }

  /** After call `n - 1` both runs hold the same members above every bound still to come. */
  lemma {:induction false} SameFromHere(window: int, t: Trace, drop: set<int>, n: nat, bound: int)
    requires Monotone(t) && n <= |t|
    requires forall k :: k in drop ==> 0 <= k < |t| && !Admits(window, t, k)
    requires forall k :: 0 <= k < n ==> t[k].now - window <= bound
    ensures var before := Keep(t, drop, n);
            Prune(Zset(window, before, |before|), bound) == Prune(Zset(window, t, n), bound)
  {
    if n == 0 {
    } else {
      var last := n - 1;
      SameFromHere(window, t, drop, last, bound);
      ZsetNext(window, t, last);
      if last in drop {
        assert Prune(Live(window, t, last), bound) == Prune(Zset(window, t, last), bound);
      } else {
        SameFromHere(window, t, drop, last, t[last].now - window);
        KeptStep(window, t, drop, last, bound);
      }
    }
  }

  lemma {:induction false} KeptStep(window: int, t: Trace, drop: set<int>, n: nat, bound: int)
    requires n < |t| && n !in drop
    requires var before := Zset(window, Keep(t, drop, n), |Keep(t, drop, n)|);
             var cut := t[n].now - window;
             && Prune(before, cut) == Prune(Zset(window, t, n), cut)
             && Prune(before, bound) == Prune(Zset(window, t, n), bound)
    ensures var longer := Keep(t, drop, n + 1);
            Prune(Zset(window, longer, |longer|), bound) == Prune(Zset(window, t, n + 1), bound)
  {
    var before, longer := Keep(t, drop, n), Keep(t, drop, n + 1);
    assert longer[..|before|] == before;
    ZsetPrefix(window, longer, before, |before|);
    SameLiveSameReply(window, longer, |before|, t, n);
    ZsetNext(window, longer, |before|);
    ZsetNext(window, t, n);
  }

  /** `m` is a member of `s` with the smallest timestamp. */
  ghost predicate Oldest(m: Member, s: set<Member>) {
    m in s && forall other :: other in s ==> m.ts <= other.ts
  }

  /**
   Exact reopening. Call `i` was rejected under a fixed positive limit. However many retries follow, and
   whatever the clocks do, a retry is rejected until the timestamp `oldest.ts + window` and the first one
   at or after it is admitted; under skew `d` that is at most `window + d` after the rejection.
   */
  lemma {:induction false} ExactReopening(window: int, d: nat, limit: int, t: Trace, i: nat, j: nat, oldest: Member)
    requires limit >= 1 && Skew(t, d) && i < j < |t| && forall k :: 0 <= k < |t| ==> t[k].limit == limit
    requires !t[i].delivery.NotRun? && !Admits(window, t, i) && Oldest(oldest, Live(window, t, i))
    requires !t[j].delivery.NotRun? && forall k :: i < k < j ==> t[k].now < oldest.ts + window
    ensures Admits(window, t, j) <==> oldest.ts + window <= t[j].now
    ensures oldest.ts + window <= t[i].now + d + window
  {
    WithinLimit(window, t, limit, i);
    Decides(window, t, i);
    var found := Live(window, t, i);
    SubsetSize(found, Zset(window, t, i));
    assert Zset(window, t, i + 1) == found;
    StaysFull(window, t, limit, i + 1, j, found, oldest);
    Decides(window, t, j);
    if oldest.ts + window <= t[j].now {
      SubsetSize(Live(window, t, j), found - {oldest});
    } else {
      assert Live(window, t, j) == found;
    }
    ZsetContents(window, t, i, oldest);
    var k :| Records(window, t, k, i, oldest);
  }

  lemma {:induction false} WithinLimit(window: int, t: Trace, limit: int, n: nat)
    requires limit >= 0 && n <= |t| && forall k :: 0 <= k < |t| ==> t[k].limit == limit
    ensures |Zset(window, t, n)| <= limit
  {
    if n == 0 {
    } else {
      WithinLimit(window, t, limit, n - 1);
      var before, live := Zset(window, t, n - 1), Live(window, t, n - 1);
      SubsetSize(live, before);
      UnionSize(live, {t[n-1].Stamp()});
    }
  }

  lemma {:induction false} StaysFull(window: int, t: Trace, limit: int, from: nat, n: nat,
                                     found: set<Member>, oldest: Member)
    requires from <= n <= |t| && Zset(window, t, from) == found && |found| == limit && Oldest(oldest, found)
    requires forall k :: from <= k < n ==> t[k].limit == limit && t[k].now < oldest.ts + window
    ensures Zset(window, t, n) == found
  {
    if from == n {
    } else {
      var last := n - 1;
      StaysFull(window, t, limit, from, last, found, oldest);
      assert Live(window, t, last) == found;
      Decides(window, t, last);
      ZsetNext(window, t, last);
    }
  }

  /** A window without admissions restores the full quota. */
  lemma {:induction false} QuotaRestored(window: int, t: Trace, i: nat)
    requires i < |t| && t[i].limit >= 1
    requires forall k :: 0 <= k < i && Admits(window, t, k) ==> t[k].now <= t[i].now - window
    ensures !ReplyAt(window, t, i).decision.Reject?
    ensures ReplyAt(window, t, i).count == 1 && ReplyAt(window, t, i).remaining == t[i].limit - 1
  {
    forall m ensures m !in Live(window, t, i) {
      ZsetContents(window, t, i, m);
      assert forall k :: Records(window, t, k, i, m) ==> m.ts <= t[i].now - window;
    }
    assert Live(window, t, i) == {};
  }
}
