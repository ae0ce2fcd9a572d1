/**
 IP bans with a lifetime: a shared set, one expiry key per address, and a background removal,
 against a simple ban log.

 Each pipeline and each check sends its two commands separately, so other clients' commands may
 fall in between. Statements range over every history of the shared database, rate-limit traffic
 included.
 */
module Blocklist {
  import opened Basics
  import opened Keyspace

  /** The ban log: until when the last ban of `ip` among the first `n` events holds, if it was not lifted. */
  function BannedUntil(h: History, ip: string, n: nat): Option<int>
    requires n <= |h|
  {
    if n == 0 then None
    else match h[n-1].command
      case BlockFlag(other, ttl) => if other == ip then Some(h[n-1].clock + ttl) else BannedUntil(h, ip, n - 1)
      case UnblockFlag(other) => if other == ip then None else BannedUntil(h, ip, n - 1)
      case _ => BannedUntil(h, ip, n - 1)
  }

  predicate Banned(h: History, ip: string, n: nat, clock: int)
    requires n <= |h|
  {
    BannedUntil(h, ip, n).Some? && clock < BannedUntil(h, ip, n).value
  }

  datatype Membership = Never | Added | Lifted | Reaped

  /** The last command that touched the membership of `ip` in the set. */
  function LastTouch(h: History, ip: string, n: nat): Membership
    requires n <= |h|
  {
    if n == 0 then Never
    else match h[n-1].command
      case BlockAdd(other) => if other == ip then Added else LastTouch(h, ip, n - 1)
      case UnblockRemove(other) => if other == ip then Lifted else LastTouch(h, ip, n - 1)
      case Reap(other) => if other == ip then Reaped else LastTouch(h, ip, n - 1)
      case _ => LastTouch(h, ip, n - 1)
  }

  /** The set holds the addresses added last, the expiry keys are the ban log, and no key has the wrong type. */
  lemma {:induction false} Contents(window: int, h: History, n: nat, ip: string, clock: int)
    requires n <= |h|
    ensures IpsAt(State(window, h, n), BLOCKLIST_KEY, clock).Some?
    ensures ip in IpsAt(State(window, h, n), BLOCKLIST_KEY, clock).value <==> LastTouch(h, ip, n).Added?
    ensures Present(State(window, h, n), FlagKey(ip), clock) <==> Banned(h, ip, n, clock)
  {
    SetContents(window, h, n, ip);
    FlagContents(window, h, n, ip);
  }

  /** The set's entry, if any, is a set without a deadline. */
  ghost predicate ProperSet(db: Database) {
    BLOCKLIST_KEY in db ==> db[BLOCKLIST_KEY].value.IpSet? && db[BLOCKLIST_KEY].deadline.None?
  }

  predicate Listed(db: Database, ip: string) {
    BLOCKLIST_KEY in db && db[BLOCKLIST_KEY].value.IpSet? && ip in db[BLOCKLIST_KEY].value.ips
  }

  lemma {:induction false} SetContents(window: int, h: History, n: nat, ip: string)
    requires n <= |h|
    ensures ProperSet(State(window, h, n))
    ensures Listed(State(window, h, n), ip) <==> LastTouch(h, ip, n).Added?
  {
    if n == 0 {
    } else {
      SetContents(window, h, n - 1, ip);
      SetStep(window, State(window, h, n - 1), h[n-1], ip);
    }
  }

  lemma {:induction false} SetStep(window: int, db: Database, e: Event, ip: string)
    requires ProperSet(db)
    ensures ProperSet(Exec(window, db, e).0)
    ensures Listed(Exec(window, db, e).0, ip) <==>
              match e.command
              case BlockAdd(other) => other == ip || Listed(db, ip)
              case UnblockRemove(other) => other != ip && Listed(db, ip)
              case Reap(other) => other != ip && Listed(db, ip)
              case _ => Listed(db, ip)
  {
    match e.command {
      case Rate(user, _) => KeysApart(user, "", ip);
      case BlockFlag(other, _) => KeysApart("", "", other);
      case UnblockFlag(other) => KeysApart("", "", other);
      case _ =>
    }
  }

  lemma {:induction false} FlagContents(window: int, h: History, n: nat, ip: string)
    requires n <= |h|
    ensures var db := State(window, h, n);
            FlagKey(ip) in db <==> BannedUntil(h, ip, n).Some?
    ensures var db := State(window, h, n);
            FlagKey(ip) in db ==> db[FlagKey(ip)].deadline == BannedUntil(h, ip, n)
  {
    if n == 0 {
    } else {
      FlagContents(window, h, n - 1, ip);
      FlagStep(window, State(window, h, n - 1), h[n-1], ip);
    }
  }

  lemma {:induction false} FlagStep(window: int, db: Database, e: Event, ip: string)
    ensures var db', key := Exec(window, db, e).0, FlagKey(ip);
            if e.command.BlockFlag? && e.command.ip == ip then
              key in db' && db'[key].deadline == Some(e.clock + e.command.ttl)
            else if e.command.UnblockFlag? && e.command.ip == ip then key !in db'
            else (key in db' <==> key in db) && (key in db ==> db'[key] == db[key])
  {
    match e.command {
      case Rate(user, _) => KeysApart(user, "", ip);
      case BlockFlag(other, _) => KeysApart("", other, ip);
      case UnblockFlag(other) => KeysApart("", other, ip);
      case _ => KeysApart("", "", ip);
    }
  }

  lemma {:induction false} UserStamps(window: int, h: History, user: string, n: nat)
    requires n <= |h|
    ensures var db := State(window, h, n); RateKey(user) in db ==> db[RateKey(user)].value.Stamps?
  {
    if n == 0 {
    } else {
      var db, e := State(window, h, n - 1), h[n-1];
      UserStamps(window, h, user, n - 1);
      StateNext(window, h, n - 1, db, e);
      if !IsUser(e, user) {
        OtherCommand(window, db, user, e);
      }
    }
  }

  /** What Redis should answer: every write succeeds, every check tells the logs, no command meets a wrong type. */
  ghost predicate Answers(h: History, i: nat, answer: Answer)
    requires i < |h|
  {
    match h[i].command
    case Rate(_, r) => if r.delivery.NotRun? then answer == Done else answer.Limited?
    case CheckMember(ip) => answer == Found(LastTouch(h, ip, i).Added?)
    case CheckFlag(ip) => answer == Found(Banned(h, ip, i, h[i].clock))
    case _ => answer == Done
  }

  lemma {:induction false} EveryAnswer(window: int, h: History, i: nat)
    requires i < |h|
    ensures Answers(h, i, AnswerAt(window, h, i))
  {
    match h[i].command {
      case Rate(user, _) => UserStamps(window, h, user, i);
      case BlockAdd(ip) => Contents(window, h, i, ip, h[i].clock);
      case UnblockRemove(ip) => Contents(window, h, i, ip, h[i].clock);
      case Reap(ip) => Contents(window, h, i, ip, h[i].clock);
      case CheckMember(ip) => Contents(window, h, i, ip, h[i].clock);
      case CheckFlag(ip) => Contents(window, h, i, ip, h[i].clock);
      case _ =>
    }
  }

  /** IsIPBlocked: the membership command at `p` and, if it answers yes, the expiry command at `q`. */
  ghost predicate IsCheck(h: History, ip: string, p: nat, q: nat) {
    p < q < |h| && h[p].command == CheckMember(ip) && h[q].command == CheckFlag(ip)
  }

  predicate Blocked(window: int, h: History, p: nat, q: nat)
    requires p < |h| && q < |h|
  {
    AnswerAt(window, h, p) == Found(true) && AnswerAt(window, h, q) == Found(true)
  }

  /** In any interleaving, an address is reported blocked only if a ban is in force when the expiry key is read. */
  lemma {:induction false} BlockedOnlyIfBanned(window: int, h: History, ip: string, p: nat, q: nat)
    requires IsCheck(h, ip, p, q)
    ensures Blocked(window, h, p, q) ==> Banned(h, ip, q, h[q].clock)
    ensures Blocked(window, h, p, q) <==> LastTouch(h, ip, p).Added? && Banned(h, ip, q, h[q].clock)
  {
    Contents(window, h, p, ip, h[p].clock);
    Contents(window, h, q, ip, h[q].clock);
  }

  /** The two commands of each BlockIP and UnblockIP reach Redis back to back. */
  ghost predicate Pipelined(h: History) {
    && (forall k :: 0 <= k < |h| && h[k].command.BlockFlag? ==>
          k > 0 && h[k-1].command == BlockAdd(h[k].command.ip))
    && (forall k :: 0 <= k < |h| - 1 && h[k].command.UnblockRemove? ==>
          h[k+1].command == UnblockFlag(h[k].command.ip))
  }

  /**
   Exactly when an atomic check reports a ban: there is one, and no background removal has landed since
   the address was last added.
   */
  lemma {:induction false} BlockedExactly(window: int, h: History, ip: string, p: nat)
    requires Pipelined(h) && IsCheck(h, ip, p, p + 1)
    ensures Blocked(window, h, p, p + 1) <==> Banned(h, ip, p, h[p+1].clock) && !LastTouch(h, ip, p).Reaped?
  {
    BlockedOnlyIfBanned(window, h, ip, p, p + 1);
    BanLeavesTouch(h, ip, p);
  }

  lemma {:induction false} BanLeavesTouch(h: History, ip: string, n: nat)
    requires Pipelined(h) && n <= |h|
    ensures BannedUntil(h, ip, n).Some? ==>
              LastTouch(h, ip, n).Added? || LastTouch(h, ip, n).Reaped? ||
              (n > 0 && h[n-1].command == UnblockRemove(ip))
  {
    if n == 0 {
    } else {
      BanLeavesTouch(h, ip, n - 1);
    }
  }

  /** The removal at `r` was started by a check that found no expiry key at `q`, and lands before the next ban. */
  ghost predicate PromptFrom(window: int, h: History, q: int, r: nat)
    requires r < |h| && h[r].command.Reap?
  {
    && 0 <= q < r
    && h[q].command == CheckFlag(h[r].command.ip)
    && AnswerAt(window, h, q) == Found(false)
    && forall k :: q < k < r ==> h[k].command != BlockAdd(h[r].command.ip)
  }

  ghost predicate Prompt(window: int, h: History) {
    forall r :: 0 <= r < |h| && h[r].command.Reap? ==> exists q :: PromptFrom(window, h, q, r)
  }

  /** With atomic pipelines and checks, and removals that land before the next ban, checks agree with the ban log. */
  lemma {:induction false} BlockedIffBanned(window: int, h: History, ip: string, p: nat)
    requires Ordered(h) && Pipelined(h) && Prompt(window, h) && IsCheck(h, ip, p, p + 1)
    ensures Blocked(window, h, p, p + 1) <==> Banned(h, ip, p, h[p+1].clock)
  {
    BlockedExactly(window, h, ip, p);
    if LastTouch(h, ip, p).Reaped? {
      ReapedNotBanned(window, h, ip, p, h[p+1].clock);
    }
  }

  lemma {:induction false} ReapedNotBanned(window: int, h: History, ip: string, p: nat, clock: int)
    requires Ordered(h) && Pipelined(h) && Prompt(window, h)
    requires p < |h| && h[p].clock <= clock && LastTouch(h, ip, p).Reaped?
    ensures !Banned(h, ip, p, clock)
  {
    var r := LastReap(h, ip, p);
    var q :| PromptFrom(window, h, q, r);
    Contents(window, h, q, ip, h[q].clock);
    NoNewBan(h, ip, q, p, h[q].clock);
  }

  lemma {:induction false} LastReap(h: History, ip: string, n: nat) returns (r: nat)
    requires n <= |h| && LastTouch(h, ip, n).Reaped?
    ensures r < n && h[r].command == Reap(ip) && forall k :: r < k < n ==> h[k].command != BlockAdd(ip)
  {
    if h[n-1].command == Reap(ip) {
      r := n - 1;
    } else {
      r := LastReap(h, ip, n - 1);
    }
  }

  lemma {:induction false} NoNewBan(h: History, ip: string, q: nat, n: nat, clock: int)
    requires Pipelined(h) && q < n <= |h| && h[q].command == CheckFlag(ip) && !Banned(h, ip, q, clock)
    requires forall k :: q < k < n ==> h[k].command != BlockAdd(ip)
    ensures !Banned(h, ip, n, clock)
  {
    if q == n - 1 {
    } else {
      NoNewBan(h, ip, q, n - 1, clock);
    }
  }

  /** A removal that lands after the next ban silences it. */
  lemma {:induction false} LateRemovalSilencesBan(window: int, ip: string) returns (h: History)
    ensures Ordered(h) && Pipelined(h) && |h| == 9 && IsCheck(h, ip, 2, 3) && IsCheck(h, ip, 7, 8)
    ensures h[6].command == Reap(ip) && !Blocked(window, h, 2, 3)
    ensures Banned(h, ip, 7, h[8].clock) && !Blocked(window, h, 7, 8)
  {
    h := [Event(0, BlockAdd(ip)), Event(0, BlockFlag(ip, 10)),
          Event(20, CheckMember(ip)), Event(20, CheckFlag(ip)),
          Event(30, BlockAdd(ip)), Event(30, BlockFlag(ip, 100)),
          Event(31, Reap(ip)), Event(40, CheckMember(ip)), Event(40, CheckFlag(ip))];
    assert BannedUntil(h, ip, 2) == Some(10);
    assert BannedUntil(h, ip, 3) == Some(10);
    assert BannedUntil(h, ip, 6) == BannedUntil(h, ip, 7) == BannedUntil(h, ip, 8) == Some(130);
    assert LastTouch(h, ip, 7) == Reaped;
    BlockedOnlyIfBanned(window, h, ip, 2, 3);
    BlockedOnlyIfBanned(window, h, ip, 7, 8);
  }

  /** A check between the two commands of the first BlockIP starts a removal that silences that very ban. */
  lemma {:induction false} SplitPipelineSilencesBan(window: int, ip: string) returns (h: History)
    ensures Ordered(h) && Prompt(window, h) && |h| == 7 && IsCheck(h, ip, 1, 2) && IsCheck(h, ip, 5, 6)
    ensures h[0].command == BlockAdd(ip) && h[3].command == BlockFlag(ip, 100)
    ensures Banned(h, ip, 5, h[6].clock) && !Blocked(window, h, 5, 6)
  {
    h := [Event(0, BlockAdd(ip)), Event(0, CheckMember(ip)), Event(0, CheckFlag(ip)), Event(0, BlockFlag(ip, 100)),
          Event(1, Reap(ip)), Event(2, CheckMember(ip)), Event(2, CheckFlag(ip))];
    assert BannedUntil(h, ip, 1) == None;
    assert BannedUntil(h, ip, 2) == None;
    Contents(window, h, 2, ip, 0);
    assert PromptFrom(window, h, 2, 4);
    assert BannedUntil(h, ip, 4) == BannedUntil(h, ip, 5) == BannedUntil(h, ip, 6) == Some(100);
    assert LastTouch(h, ip, 5) == Reaped;
    BlockedOnlyIfBanned(window, h, ip, 5, 6);
  }

  /** A ban without a lifetime sets no expiry key, so it is never reported, whatever the documentation says. */
  lemma {:induction false} PermanentBanNeverReported(window: int, h: History, ip: string, p: nat, q: nat)
    requires IsCheck(h, ip, p, q)
    requires forall k :: 0 <= k < |h| && h[k].command.BlockFlag? ==> h[k].command.ip != ip
    ensures !Blocked(window, h, p, q)
  {
    NeverFlagged(h, ip, q);
    BlockedOnlyIfBanned(window, h, ip, p, q);
  }

  lemma {:induction false} NeverFlagged(h: History, ip: string, n: nat)
    requires n <= |h| && forall k :: 0 <= k < |h| && h[k].command.BlockFlag? ==> h[k].command.ip != ip
    ensures BannedUntil(h, ip, n) == None
  {
    if n == 0 {
    } else {
      NeverFlagged(h, ip, n - 1);
    }
  }
}
