/**
 The shared Redis database: one keyspace holding every user's sorted set, the blocklist set
 and its expiry keys, with key deadlines on Redis's own clock.

 A history is any interleaving of single commands (a script execution is one command); the
 main theorem says that a user's replies in it are those of the user's own calls run alone on
 a set that never expires.
 */
module Keyspace {
  import opened Basics
  import opened SlidingWindow

  datatype Value = Stamps(members: set<Member>) | IpSet(ips: set<string>) | Flag

  datatype Entry = Entry(value: Value, deadline: Option<int>)

  type Database = map<string, Entry>

  const BLOCKLIST_KEY: string := "blocklist:ips"

  function RateKey(user: string): string { "ratelimit:user:" + user }

  function FlagKey(ip: string): string { "blocklist:expiry:" + ip }

  /** Distinct users have distinct keys, and no user's key is a blocklist key, whatever the strings. */
  lemma {:induction false} KeysApart(user: string, other: string, ip: string)
    ensures RateKey(user) == RateKey(other) ==> user == other
    ensures FlagKey(ip) == FlagKey(other) ==> ip == other
    ensures RateKey(user) != BLOCKLIST_KEY && RateKey(user) != FlagKey(ip) && FlagKey(ip) != BLOCKLIST_KEY
  {
    assert RateKey(user)[15..] == user && RateKey(other)[15..] == other;
    assert FlagKey(ip)[17..] == ip && FlagKey(other)[17..] == other;
    assert RateKey(user)[0] == 'r' && FlagKey(ip)[0] == 'b' && BLOCKLIST_KEY[0] == 'b';
    assert FlagKey(ip)[10] == 'e' && BLOCKLIST_KEY[10] == 'i';
  }

  /** A key past its deadline is as good as deleted. */
  predicate Present(db: Database, key: string, clock: int) {
    key in db && (db[key].deadline.Some? ==> clock < db[key].deadline.value)
  }

  /** The sorted set at `key`, empty if there is none; nothing if the key holds another type. */
  function StampsAt(db: Database, key: string, clock: int): Option<set<Member>> {
    if !Present(db, key, clock) then Some({})
    else if db[key].value.Stamps? then Some(db[key].value.members)
    else None
  }

  function IpsAt(db: Database, key: string, clock: int): Option<set<string>> {
    if !Present(db, key, clock) then Some({})
    else if db[key].value.IpSet? then Some(db[key].value.ips)
    else None
  }

  /** Redis deletes a set with its last element. */
  function PutStamps(db: Database, key: string, s: set<Member>, deadline: Option<int>): Database {
    if s == {} then db - {key} else db[key := Entry(Stamps(s), deadline)]
  }

  function PutIps(db: Database, key: string, s: set<string>): Database {
    if s == {} then db - {key} else db[key := Entry(IpSet(s), None)]
  }

  /** EXPIRE's argument: the window in seconds, rounded up, plus one. */
  function TtlSeconds(window: int): int {
    CeilDiv(window, 1000) + 1
  }

  datatype Answer = Limited(reply: Reply) | Found(found: bool) | Done | WrongType {
    predicate Recorded() { Limited? && !reply.decision.Reject? }
  }

  /** The script on the shared database: only an admission sets the key's deadline. */
  function ScriptOn(window: int, db: Database, key: string, clock: int, r: Request): (Database, Answer) {
    match StampsAt(db, key, clock)
    case None => (db, WrongType)
    case Some(s) =>
      var (s', reply) := Script(window, s, r);
      var deadline := if !reply.decision.Reject? then Some(clock + 1000 * TtlSeconds(window))
                      else if key in db then db[key].deadline else None;
      (PutStamps(db, key, s', deadline), Limited(reply))
  }

  /**
   The commands the gateway sends: the script for a user, the two commands of each BlockIP and
   UnblockIP pipeline, the two of IsIPBlocked, and its background removal.
   */
  datatype Command =
    | Rate(user: string, request: Request)
    | BlockAdd(ip: string)
    | BlockFlag(ip: string, ttl: int)
    | UnblockRemove(ip: string)
    | UnblockFlag(ip: string)
    | CheckMember(ip: string)
    | CheckFlag(ip: string)
    | Reap(ip: string)

  datatype Event = Event(clock: int, command: Command)

  type History = seq<Event>

  function Exec(window: int, db: Database, e: Event): (Database, Answer) {
    match e.command
    case Rate(user, r) =>
      if r.delivery.NotRun? then (db, Done) else ScriptOn(window, db, RateKey(user), e.clock, r)
    case BlockAdd(ip) =>
      (match IpsAt(db, BLOCKLIST_KEY, e.clock)
       case None => (db, WrongType)
       case Some(ips) => (PutIps(db, BLOCKLIST_KEY, ips + {ip}), Done))
    case UnblockRemove(ip) => RemoveIp(db, ip, e.clock)
    case Reap(ip) => RemoveIp(db, ip, e.clock)
    case BlockFlag(ip, ttl) => (db[FlagKey(ip) := Entry(Flag, Some(e.clock + ttl))], Done)
    case UnblockFlag(ip) => (db - {FlagKey(ip)}, Done)
    case CheckMember(ip) =>
      (match IpsAt(db, BLOCKLIST_KEY, e.clock)
       case None => (db, WrongType)
       case Some(ips) => (db, Found(ip in ips)))
    case CheckFlag(ip) => (db, Found(Present(db, FlagKey(ip), e.clock)))
  }

  function RemoveIp(db: Database, ip: string, clock: int): (Database, Answer) {
    match IpsAt(db, BLOCKLIST_KEY, clock)
    case None => (db, WrongType)
    case Some(ips) => (PutIps(db, BLOCKLIST_KEY, ips - {ip}), Done)
  }

  /** The database before event `n`, from an empty one. */
  function State(window: int, h: History, n: nat): Database
    requires n <= |h|
  {
    if n == 0 then map[] else Exec(window, State(window, h, n - 1), h[n-1]).0
  }

  function AnswerAt(window: int, h: History, i: nat): Answer
    requires i < |h|
  {
    Exec(window, State(window, h, i), h[i]).1
  }

  /** The user's own calls among the first `n` events. */
  function CallsOf(h: History, user: string, n: nat): Trace
    requires n <= |h|
  {
    if n == 0 then []
    else if IsUser(h[n-1], user) then CallsOf(h, user, n - 1) + [h[n-1].command.request]
    else CallsOf(h, user, n - 1)
  }

  /** Redis's clock never goes back. */
  ghost predicate Ordered(h: History) {
    forall i, j :: 0 <= i < j < |h| ==> h[i].clock <= h[j].clock
  }

  predicate IsUser(e: Event, user: string) {
    e.command.Rate? && e.command.user == user
  }

  /** The timestamps of this user's calls are within `slack` milliseconds of Redis's clock. */
  ghost predicate Timely(h: History, user: string, slack: int) {
    forall i :: 0 <= i < |h| && IsUser(h[i], user) ==> -slack <= h[i].command.request.now - h[i].clock <= slack
  }

  /** The slack that a key's lifetime leaves beyond the window. */
  predicate Tolerates(window: int, slack: int) {
    0 <= slack && 2 * slack <= 1000 * TtlSeconds(window) - window
  }

  /** Half a second, and half of what rounding the window up to whole seconds adds. */
  lemma {:induction false} SlackTolerated(window: int, slack: int)
    ensures Tolerates(window, slack) <==> 0 <= slack && 2 * slack <= 1000 + (-window) % 1000
  {
    var seconds := CeilDiv(window, 1000);
    assert 0 <= 1000 * seconds - window < 1000;
    assert (-window) % 1000 == 1000 * seconds - window;
  }

  /** The set the user's calls would have built alone, without any expiry. */
  function Alone(window: int, h: History, user: string, n: nat): set<Member>
    requires n <= |h|
  {
    Zset(window, CallsOf(h, user, n), |CallsOf(h, user, n)|)
  }

  /** The user's entry holds the set built alone, and outlives all of it by `slack`. */
  ghost predicate Mirrors(window: int, slack: int, db: Database, key: string, alone: set<Member>, clock: int) {
    if key !in db then alone == {}
    else
      && db[key].value == Stamps(alone)
      && db[key].deadline.Some?
      && db[key].deadline.value <= clock + 1000 * TtlSeconds(window)
      && forall m :: m in alone ==> m.ts + window + slack <= db[key].deadline.value
  }

  /** What the script finds after pruning is the same, whether or not the key had expired. */
  lemma {:induction false} SamePruned(window: int, slack: int, db: Database, key: string, alone: set<Member>,
                                      before: int, clock: int, now: int)
    requires Mirrors(window, slack, db, key, alone, before) && -slack <= now - clock
    ensures var found := StampsAt(db, key, clock);
            found.Some? && Prune(found.value, now - window) == Prune(alone, now - window)
  {
    if key in db && !Present(db, key, clock) {
      assert Prune(alone, now - window) == {};
    }
  }

  lemma {:induction false} ExpiryInvisible(window: int, slack: int, db: Database, key: string, alone: set<Member>,
                                           before: int, clock: int, r: Request)
    requires Tolerates(window, slack) && Mirrors(window, slack, db, key, alone, before) && before <= clock
    requires -slack <= r.now - clock <= slack
    ensures ScriptOn(window, db, key, clock, r).1 == Limited(Script(window, alone, r).1)
    ensures Mirrors(window, slack, ScriptOn(window, db, key, clock, r).0, key, Script(window, alone, r).0, clock)
  {
    SamePruned(window, slack, db, key, alone, before, clock, r.now);
    StillMirrors(window, slack, db, key, alone, before, clock, r);
  }

  lemma {:induction false} StillMirrors(window: int, slack: int, db: Database, key: string, alone: set<Member>,
                                        before: int, clock: int, r: Request)
    requires Mirrors(window, slack, db, key, alone, before) && before <= clock
    requires Tolerates(window, slack) && r.now - clock <= slack
    requires StampsAt(db, key, clock).Some?
    requires Prune(StampsAt(db, key, clock).value, r.now - window) == Prune(alone, r.now - window)
    ensures Mirrors(window, slack, ScriptOn(window, db, key, clock, r).0, key, Script(window, alone, r).0, clock)
  {
    assert r.now + window + slack <= clock + 1000 * TtlSeconds(window);
  }

  /** Commands on other keys leave the user's entry alone. */
  lemma {:induction false} OtherCommand(window: int, db: Database, user: string, e: Event)
    requires !IsUser(e, user)
    ensures SameEntry(Exec(window, db, e).0, db, RateKey(user))
  {
    match e.command {
      case Rate(other, _) => KeysApart(user, other, "");
      case BlockFlag(ip, _) => KeysApart(user, user, ip);
      case UnblockFlag(ip) => KeysApart(user, user, ip);
      case _ => KeysApart(user, user, "");
    }
  }

  ghost predicate SameEntry(db: Database, other: Database, key: string) {
    (key in db <==> key in other) && (key in db ==> db[key] == other[key])
  }

  /** The script reads and writes its own entry only. */
  lemma {:induction false} OwnEntryOnly(window: int, db: Database, other: Database, user: string, e: Event)
    requires IsUser(e, user) && SameEntry(db, other, RateKey(user))
    ensures Exec(window, db, e).1 == Exec(window, other, e).1
    ensures SameEntry(Exec(window, db, e).0, Exec(window, other, e).0, RateKey(user))
  {
  }

  /** The history with everything but the user's own calls taken out, up to event `n`. */
  function OwnEvents(h: History, user: string, n: nat): History
    requires n <= |h|
  {
    if n == 0 then []
    else if IsUser(h[n-1], user) then OwnEvents(h, user, n - 1) + [h[n-1]]
    else OwnEvents(h, user, n - 1)
  }

  lemma {:induction false} StatePrefix(window: int, h: History, longer: History, n: nat)
    requires n <= |h| <= |longer| && h == longer[..|h|]
    ensures State(window, h, n) == State(window, longer, n)
  {
    if n == 0 {
    } else {
      var last := n - 1;
      StatePrefix(window, h, longer, last);
      StateNext(window, h, last, State(window, h, last), h[last]);
      StateNext(window, longer, last, State(window, h, last), h[last]);
    }
  }

  lemma {:induction false} StateNext(window: int, h: History, n: nat, db: Database, e: Event)
    requires n < |h| && h[n] == e && State(window, h, n) == db
    ensures State(window, h, n + 1) == Exec(window, db, e).0
  {
  }

  /** The database that the user's own events alone build. */
  function OwnState(window: int, h: History, user: string, n: nat): Database
    requires n <= |h|
  {
    State(window, OwnEvents(h, user, n), |OwnEvents(h, user, n)|)
  }

  lemma {:induction false} OwnStateNext(window: int, h: History, user: string, n: nat)
    requires n < |h|
    ensures OwnState(window, h, user, n + 1) ==
            if IsUser(h[n], user) then Exec(window, OwnState(window, h, user, n), h[n]).0
            else OwnState(window, h, user, n)
  {
    var before, own := OwnEvents(h, user, n), OwnEvents(h, user, n + 1);
    if IsUser(h[n], user) {
      StatePrefix(window, before, own, |before|);
      assert own[|before|] == h[n];
    }
  }

  lemma {:induction false} EntryOfOwnEvents(window: int, h: History, user: string, n: nat)
    requires n <= |h|
    ensures SameEntry(State(window, h, n), OwnState(window, h, user, n), RateKey(user))
  {
    if n == 0 {
    } else {
      var last := n - 1;
      EntryOfOwnEvents(window, h, user, last);
      OwnStateNext(window, h, user, last);
      if IsUser(h[last], user) {
        OwnEntryOnly(window, State(window, h, last), OwnState(window, h, user, last), user, h[last]);
      } else {
        OtherCommand(window, State(window, h, last), user, h[last]);
      }
    }
  }

  /**
   Isolation. Whatever the clocks do, a user's call gets the answer it would get on a database that
   nobody else uses.
   */
  lemma {:induction false} UsersAreIsolated(window: int, h: History, user: string, i: nat)
    requires i < |h| && IsUser(h[i], user)
    ensures var own := OwnEvents(h, user, i + 1);
            |own| > 0 && own[|own|-1] == h[i] && AnswerAt(window, own, |own| - 1) == AnswerAt(window, h, i)
  {
    var before, own := OwnEvents(h, user, i), OwnEvents(h, user, i + 1);
    EntryOfOwnEvents(window, h, user, i);
    StatePrefix(window, before, own, |before|);
    OwnEntryOnly(window, State(window, h, i), State(window, own, |before|), user, h[i]);
  }

  lemma {:induction false} UserEntry(window: int, slack: int, h: History, user: string, n: nat)
    requires Ordered(h) && Tolerates(window, slack) && Timely(h, user, slack) && n <= |h|
    ensures Mirrors(window, slack, State(window, h, n), RateKey(user), Alone(window, h, user, n),
                    if n == 0 then 0 else h[n-1].clock)
  {
    if n == 0 {
    } else {
      var last := n - 1;
      var db, e := State(window, h, last), h[last];
      UserEntry(window, slack, h, user, last);
      if IsUser(e, user) {
        AloneNext(window, h, user, last);
        if !e.command.request.delivery.NotRun? {
          ExpiryInvisible(window, slack, db, RateKey(user), Alone(window, h, user, last),
                          if last == 0 then e.clock else h[last-1].clock, e.clock, e.command.request);
        }
      } else {
        OtherCommand(window, db, user, e);
      }
    }
  }

  lemma {:induction false} AloneNext(window: int, h: History, user: string, n: nat)
    requires n < |h| && IsUser(h[n], user)
    ensures var r := h[n].command.request;
            Alone(window, h, user, n + 1) ==
            if r.delivery.NotRun? then Alone(window, h, user, n) else Script(window, Alone(window, h, user, n), r).0
  {
    var calls, longer := CallsOf(h, user, n), CallsOf(h, user, n + 1);
    ZsetPrefix(window, longer, calls, |calls|);
  }

  /** Event `i`, a call whose script ran, is answered as in the user's own calls run alone and never expired. */
  ghost predicate AnsweredAsAlone(window: int, h: History, i: nat)
    requires i < |h| && h[i].command.Rate?
  {
    var user := h[i].command.user;
    var calls, at := CallsOf(h, user, i + 1), |CallsOf(h, user, i)|;
    at < |calls| && AnswerAt(window, h, i) == Limited(ReplyAt(window, calls, at))
  }

  /**
   Isolation and invisible expiry. In any interleaving of users' calls and blocklist commands, a call of a user
   whose own timestamps are near enough to Redis's clock never meets a key of the wrong type and gets the decision,
   remaining and count that the user's own calls, run alone and never expired, would give.
   */
  lemma {:induction false} SharedRedisIsInvisible(window: int, slack: int, h: History, i: nat)
    requires Ordered(h) && i < |h| && h[i].command.Rate? && !h[i].command.request.delivery.NotRun?
    requires Tolerates(window, slack) && Timely(h, h[i].command.user, slack)
    ensures AnsweredAsAlone(window, h, i)
  {
    var user, r := h[i].command.user, h[i].command.request;
    var calls, longer := CallsOf(h, user, i), CallsOf(h, user, i + 1);
    UserEntry(window, slack, h, user, i);
    ExpiryInvisible(window, slack, State(window, h, i), RateKey(user), Alone(window, h, user, i),
                    if i == 0 then h[0].clock else h[i-1].clock, h[i].clock, r);
    ZsetPrefix(window, longer, calls, |calls|);
  }

  /** Redis's clock at the user's last admission among the first `n` events. */
  function LastAdmission(window: int, h: History, user: string, n: nat): Option<int>
    requires n <= |h|
  {
    if n == 0 then None
    else if IsUser(h[n-1], user) && AnswerAt(window, h, n - 1).Recorded() then Some(h[n-1].clock)
    else LastAdmission(window, h, user, n - 1)
  }

  lemma {:induction false} ScriptDeadline(window: int, db: Database, key: string, clock: int, r: Request)
    requires key in ScriptOn(window, db, key, clock, r).0
    ensures var (db', answer) := ScriptOn(window, db, key, clock, r);
            if answer.Recorded() then db'[key].deadline == Some(clock + 1000 * TtlSeconds(window))
            else key in db && db'[key].deadline == db[key].deadline
  {
  }

  /** The user's key, if there, expires the window in whole seconds plus one after `last`. */
  ghost predicate ExpiresAfter(window: int, db: Database, user: string, last: Option<int>) {
    RateKey(user) in db ==> last.Some? && db[RateKey(user)].deadline == Some(last.value + 1000 * TtlSeconds(window))
  }

  /** A key's deadline always counts from the last admission; rejections and other commands do not move it. */
  lemma {:induction false} DeadlineFollowsAdmission(window: int, h: History, user: string, n: nat)
    requires n <= |h|
    ensures ExpiresAfter(window, State(window, h, n), user, LastAdmission(window, h, user, n))
  {
    if n == 0 {
    } else {
      DeadlineFollowsAdmission(window, h, user, n - 1);
      DeadlineStep(window, State(window, h, n - 1), user, h[n-1], LastAdmission(window, h, user, n - 1));
    }
  }

  lemma {:induction false} DeadlineStep(window: int, db: Database, user: string, e: Event, last: Option<int>)
    requires ExpiresAfter(window, db, user, last)
    ensures var (db', answer) := Exec(window, db, e);
            ExpiresAfter(window, db', user,
                         if IsUser(e, user) && answer.Recorded() then Some(e.clock) else last)
  {
    if !IsUser(e, user) {
      OtherCommand(window, db, user, e);
    } else {
      var key, r := RateKey(user), e.command.request;
      if !r.delivery.NotRun? && key in ScriptOn(window, db, key, e.clock, r).0 {
        ScriptDeadline(window, db, key, e.clock, r);
      }
    }
  }

  /** A user's key lives the window and a second from the last admission on, rounded up to whole seconds. */
  lemma {:induction false} KeyLifetime(window: int, h: History, user: string, n: nat) returns (life: int)
    requires n <= |h| && RateKey(user) in State(window, h, n)
    ensures var last := LastAdmission(window, h, user, n);
            last.Some? && State(window, h, n)[RateKey(user)].deadline == Some(last.value + life)
    ensures life % 1000 == 0 && window + 1000 <= life < window + 2000
  {
    DeadlineFollowsAdmission(window, h, user, n);
    life := 1000 * TtlSeconds(window);
  }

  /** A request stamped `slack` ahead of Redis, and one stamped `slack` behind it when the key has just expired. */
  function ForgetfulHistory(window: int, slack: int, user: string): History {
    var ttl := 1000 * TtlSeconds(window);
    [Event(0, Rate(user, Request(slack, 1, 1, 1, Delivered))),
     Event(ttl, Rate(user, Request(ttl - slack, 1, 1, 2, Delivered)))]
  }

  /** Beyond the slack an expired key forgets a request that is still in the window: admitted instead of rejected. */
  lemma {:induction false} TooMuchSlackShows(window: int, slack: nat, user: string)
    requires window > 0 && !Tolerates(window, slack)
    ensures var h := ForgetfulHistory(window, slack, user);
            && Ordered(h) && Timely(h, user, slack) && !AnsweredAsAlone(window, h, 1)
            && AnswerAt(window, h, 1) == Limited(Reply(Allow, 0, 1))
            && |CallsOf(h, user, 2)| == 2 && ReplyAt(window, CallsOf(h, user, 2), 1) == Reply(Reject, 0, 1)
  {
    var h := ForgetfulHistory(window, slack, user);
    var first, second := h[0].command.request, h[1].command.request;
    FirstCall(window, h, user);
    assert CallsOf(h, user, 2) == [first, second];
    assert Zset(window, [first, second], 1) == {first.Stamp()};
    assert Prune({first.Stamp()}, second.now - window) == {first.Stamp()};
  }

  lemma {:induction false} FirstCall(window: int, h: History, user: string)
    requires |h| >= 1 && IsUser(h[0], user)
    requires var r := h[0].command.request; !r.delivery.NotRun? && r.limit >= 1
    ensures State(window, h, 1) == map[RateKey(user) := Entry(Stamps({h[0].command.request.Stamp()}),
                                                             Some(h[0].clock + 1000 * TtlSeconds(window)))]
    ensures CallsOf(h, user, 1) == [h[0].command.request]
  {
  }

  /** Event `i` is a call whose script ran, of a user whose clocks keep within `slack`. */
  ghost predicate Observable(h: History, i: nat, slack: int)
    requires i < |h|
  {
    && Ordered(h) && h[i].command.Rate? && !h[i].command.request.delivery.NotRun?
    && Timely(h, h[i].command.user, slack)
  }

  ghost predicate ExpiryUnnoticed(window: int, slack: int) {
    forall h: History, i: nat :: i < |h| && Observable(h, i, slack) ==> AnsweredAsAlone(window, h, i)
  }

  /** Expiry goes unnoticed exactly if twice the slack fits into what the key's lifetime leaves beyond the window. */
  lemma {:induction false} ExpiryUnnoticedExactly(window: int, slack: nat)
    requires window > 0
    ensures ExpiryUnnoticed(window, slack) <==> Tolerates(window, slack)
    ensures ExpiryUnnoticed(window, slack) <==> 2 * slack <= 1000 + (-window) % 1000
  {
    SlackTolerated(window, slack);
    if Tolerates(window, slack) {
      forall h: History, i: nat | i < |h| && Observable(h, i, slack) ensures AnsweredAsAlone(window, h, i) {
        SharedRedisIsInvisible(window, slack, h, i);
      }
    } else {
      TooMuchSlackShows(window, slack, "");
      var h := ForgetfulHistory(window, slack, "");
      assert Observable(h, 1, slack) && !AnsweredAsAlone(window, h, 1);
    }
  }
}
