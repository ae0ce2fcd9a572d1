/**
 The sliding-window script and its runs.

 A user's sorted set is a set of members `timestamp-suffix` whose score is the timestamp.
 A run is a sequence of limiter calls, each with the clock reading of the gateway pod that
 made it (not assumed to be monotone), the limit and throttle threshold of the caller's
 token, the random suffix drawn by the script, and what the network did to the call.
 */
module SlidingWindow {
  import opened Basics

  datatype Member = Member(ts: int, suffix: nat)

  datatype Decision = Reject | Allow | Throttle

  datatype Reply = Reply(decision: Decision, remaining: int, count: int)

  /** A failed call may have reached Redis (the reply was lost) or not. */
  datatype Delivery = Delivered | ReplyLost | NotRun

  datatype Request = Request(now: int, limit: int, threshold: int, suffix: nat, delivery: Delivery) {
    function Stamp(): Member { Member(now, suffix) }
  }

  type Trace = seq<Request>

  /** ZREMRANGEBYSCORE key -inf bound: the bound itself is removed too. */
  function Prune(s: set<Member>, bound: int): set<Member> {
    set m | m in s && m.ts > bound
  }

  /** One atomic execution of the script on the user's sorted set. */
  function Script(window: int, s: set<Member>, r: Request): (set<Member>, Reply) {
    var live := Prune(s, r.now - window);
    var current := |live|;
    if current >= r.limit then
      (live, Reply(Reject, 0, current))
    else
      (live + {r.Stamp()},
       Reply(if current >= r.threshold then Throttle else Allow, r.limit - (current + 1), current + 1))
  }

  /** The sorted set before call `n` of the run. */
  function Zset(window: int, t: Trace, n: nat): set<Member>
    requires n <= |t|
  {
    if n == 0 then {}
    else if t[n-1].delivery.NotRun? then Zset(window, t, n - 1)
    else Script(window, Zset(window, t, n - 1), t[n-1]).0
  }

  /** What call `i` finds in the set after pruning. */
  function Live(window: int, t: Trace, i: nat): set<Member>
    requires i < |t|
  {
    Prune(Zset(window, t, i), t[i].now - window)
  }

  function ReplyAt(window: int, t: Trace, i: nat): Reply
    requires i < |t|
  {
    Script(window, Zset(window, t, i), t[i]).1
  }

  /** The script ran for call `i` and recorded it. */
  predicate Admits(window: int, t: Trace, i: nat)
    requires i < |t|
  {
    !t[i].delivery.NotRun? && !ReplyAt(window, t, i).decision.Reject?
  }

  /** The limiter lets call `i` through: admitted by the script, or failed open. */
  predicate Passes(window: int, t: Trace, i: nat)
    requires i < |t|
  {
    !t[i].delivery.Delivered? || Admits(window, t, i)
  }

  /** ZADD found the member already present, so the set did not grow. */
  predicate Collides(window: int, t: Trace, i: nat)
    requires i < |t|
  {
    Admits(window, t, i) && t[i].Stamp() in Live(window, t, i)
  }

  /** Every clock reading is at most `d` behind any earlier one. */
  ghost predicate Skew(t: Trace, d: int) {
    forall i, j :: 0 <= i < j < |t| ==> t[i].now - d <= t[j].now
  }

  ghost predicate Monotone(t: Trace) {
    Skew(t, 0)
  }

  /** The random suffixes never repeat a member. */
  ghost predicate Fresh(t: Trace) {
    forall i, j :: 0 <= i < j < |t| ==> t[i].Stamp() != t[j].Stamp()
  }

  /** No execution after call `i` and before call `n` has pruned the timestamp of `i`. */
  ghost predicate Survives(window: int, t: Trace, i: nat, n: nat)
    requires i < |t| && n <= |t|
  {
    forall k :: i < k < n && !t[k].delivery.NotRun? ==> t[k].now - window < t[i].now
  }

  ghost predicate Records(window: int, t: Trace, i: int, n: nat, m: Member)
    requires n <= |t|
  {
    0 <= i < n && Admits(window, t, i) && t[i].Stamp() == m && Survives(window, t, i, n)
  }

  /** The decision in terms of the number of live members: at the limit, from the threshold on, or below both. */
  lemma {:induction false} Decides(window: int, t: Trace, i: nat)
    requires i < |t|
    ensures var found := |Live(window, t, i)|;
            match ReplyAt(window, t, i).decision
            case Reject => t[i].limit <= found
            case Throttle => t[i].threshold <= found < t[i].limit
            case Allow => found < t[i].limit && found < t[i].threshold
  {
  }

  /** What call `n` does to the set: nothing if it never ran, else prune, and add the stamp if admitted. */
  lemma {:induction false} ZsetNext(window: int, t: Trace, n: nat)
    requires n < |t|
    ensures Zset(window, t, n + 1) ==
            if t[n].delivery.NotRun? then Zset(window, t, n)
            else Live(window, t, n) + if Admits(window, t, n) then {t[n].Stamp()} else {}
  {
  }

  /** How call `n` changes what is recorded. */
  lemma {:induction false} RecordsNext(window: int, t: Trace, i: int, n: nat, m: Member)
    requires n < |t|
    ensures Records(window, t, i, n + 1, m) <==>
              (i == n && Admits(window, t, n) && t[n].Stamp() == m) ||
              (Records(window, t, i, n, m) && (t[n].delivery.NotRun? || t[n].now - window < m.ts))
  {
  }

  /** For arbitrary clocks: the set holds exactly the admitted calls that no later execution pruned. */
  lemma {:induction false} ZsetContents(window: int, t: Trace, n: nat, m: Member)
    requires n <= |t|
    ensures m in Zset(window, t, n) <==> exists i :: Records(window, t, i, n, m)
  {
    if n == 0 {
    } else {
      var last := n - 1;
      ZsetContents(window, t, last, m);
      ZsetNext(window, t, last);
      RecordsNext(window, t, last, last, m);
      if m in Zset(window, t, n) {
        if i :| Records(window, t, i, last, m) {
          RecordsNext(window, t, i, last, m);
        }
      }
      if i :| Records(window, t, i, n, m) {
        RecordsNext(window, t, i, last, m);
      }
    }
  }

  /** Replies are determined by the request and the live members it finds. */
  lemma {:induction false} SameLiveSameReply(window: int, t: Trace, i: nat, u: Trace, j: nat)
    requires i < |t| && j < |u| && t[i] == u[j] && Live(window, t, i) == Live(window, u, j)
    ensures ReplyAt(window, t, i) == ReplyAt(window, u, j) && Admits(window, t, i) == Admits(window, u, j)
  {
  }

  /** The state depends on the calls made so far only. */
  lemma {:induction false} ZsetPrefix(window: int, t: Trace, u: Trace, n: nat)
    requires n <= |t| && n <= |u| && t[..n] == u[..n]
    ensures Zset(window, t, n) == Zset(window, u, n)
  {
    if n == 0 {
    } else {
      assert t[..n-1] == t[..n][..n-1] == u[..n][..n-1] == u[..n-1];
      assert t[n-1] == t[..n][n-1] == u[..n][n-1] == u[n-1];
      ZsetPrefix(window, t, u, n - 1);
    }
  }

  /** The absolute count at which throttling begins, from a tier's percentage of its limit. */
  function ThrottleThreshold(limit: int, percent: int): int {
    TruncDiv(limit * percent, 100)
  }
}
