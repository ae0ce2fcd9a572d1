/**
 The Redis commands the gateway relies on, as methods that change the shared database in place,
 and the repository operations built from them. `clock` is Redis's own time at the command.
 */
module RedisServer {
  import opened Basics
  import opened SlidingWindow
  import opened Keyspace

  /** The database after ZREMRANGEBYSCORE. */
  function AfterPrune(db: Database, key: string, clock: int, bound: int): Database
    requires StampsAt(db, key, clock).Some?
  {
    PutStamps(db, key, Prune(StampsAt(db, key, clock).value, bound), if key in db then db[key].deadline else None)
  }

  function AfterAdd(db: Database, key: string, clock: int, m: Member): Database
    requires StampsAt(db, key, clock).Some?
  {
    var deadline := if Present(db, key, clock) then db[key].deadline else None;
    db[key := Entry(Stamps(StampsAt(db, key, clock).value + {m}), deadline)]
  }

  function AfterExpire(db: Database, key: string, clock: int, deadline: int): Database {
    if Present(db, key, clock) then db[key := db[key].(deadline := Some(deadline))] else db
  }

  lemma {:induction false} PrunedWrites(db: Database, key: string, clock: int, bound: int)
    requires StampsAt(db, key, clock).Some?
    ensures StampsAt(AfterPrune(db, key, clock, bound), key, clock)
         == Some(Prune(StampsAt(db, key, clock).value, bound))
  {
  }

  /** Prune, add and expire come to one write of the pruned set with the new member and the new deadline. */
  lemma {:induction false} RecordedWrites(db: Database, key: string, clock: int, bound: int, m: Member, deadline: int)
    requires StampsAt(db, key, clock).Some?
    ensures var s := Prune(StampsAt(db, key, clock).value, bound) + {m};
            var pruned := AfterPrune(db, key, clock, bound);
            && StampsAt(pruned, key, clock).Some?
            && AfterExpire(AfterAdd(pruned, key, clock, m), key, clock, deadline)
               == PutStamps(db, key, s, Some(deadline))
  {
    PrunedWrites(db, key, clock, bound);
    assert m in Prune(StampsAt(db, key, clock).value, bound) + {m};
  }

  class Redis {
    var keys: Database

    constructor ()
      ensures keys == map[]
    {
      keys := map[];
    }

    method ZRemRangeByScore(key: string, clock: int, bound: int) returns (ok: bool)
      modifies this
      ensures ok <==> StampsAt(old(keys), key, clock).Some?
      ensures keys == if ok then AfterPrune(old(keys), key, clock, bound) else old(keys)
    {
      var found := StampsAt(keys, key, clock);
      ok := found.Some?;
      if ok {
        keys := PutStamps(keys, key, Prune(found.value, bound), if key in keys then keys[key].deadline else None);
      }
    }

    method ZCard(key: string, clock: int) returns (size: nat)
      requires StampsAt(keys, key, clock).Some?
      ensures size == |StampsAt(keys, key, clock).value|
    {
      size := |StampsAt(keys, key, clock).value|;
    }

    method ZAdd(key: string, clock: int, m: Member)
      requires StampsAt(keys, key, clock).Some?
      modifies this
      ensures keys == AfterAdd(old(keys), key, clock, m)
    {
      var deadline := if Present(keys, key, clock) then keys[key].deadline else None;
      keys := keys[key := Entry(Stamps(StampsAt(keys, key, clock).value + {m}), deadline)];
    }

    method Expire(key: string, clock: int, seconds: int)
      modifies this
      ensures keys == AfterExpire(old(keys), key, clock, clock + 1000 * seconds)
    {
      if Present(keys, key, clock) {
        keys := keys[key := keys[key].(deadline := Some(clock + 1000 * seconds))];
      }
    }

    /** The rate-limit script: prune, count, decide, record, set the deadline; an error stops it at once. */
    method RateLimitScript(key: string, clock: int, now: int, window: int, limit: int, threshold: int, suffix: nat)
      returns (answer: Answer)
      modifies this
      ensures (keys, answer)
           == ScriptOn(window, old(keys), key, clock, Request(now, limit, threshold, suffix, Delivered))
    {
      var ok := ZRemRangeByScore(key, clock, now - window);
      if !ok {
        return WrongType;
      }
      PrunedWrites(old(keys), key, clock, now - window);
      var current := ZCard(key, clock);
      if current >= limit {
        return Limited(Reply(Reject, 0, current));
      }
      ZAdd(key, clock, Member(now, suffix));
      Expire(key, clock, TtlSeconds(window));
      RecordedWrites(old(keys), key, clock, now - window, Member(now, suffix), clock + 1000 * TtlSeconds(window));
      var count := current + 1;
      var remaining := limit - count;
      if current >= threshold {
        return Limited(Reply(Throttle, remaining, count));
      }
      return Limited(Reply(Allow, remaining, count));
    }

    method SAdd(ip: string, clock: int) returns (ok: bool)
      modifies this
      ensures ok <==> IpsAt(old(keys), BLOCKLIST_KEY, clock).Some?
      ensures keys == if ok then PutIps(old(keys), BLOCKLIST_KEY, IpsAt(old(keys), BLOCKLIST_KEY, clock).value + {ip})
                      else old(keys)
    {
      var found := IpsAt(keys, BLOCKLIST_KEY, clock);
      ok := found.Some?;
      if ok {
        keys := PutIps(keys, BLOCKLIST_KEY, found.value + {ip});
      }
    }

    method SRem(ip: string, clock: int) returns (ok: bool)
      modifies this
      ensures ok <==> IpsAt(old(keys), BLOCKLIST_KEY, clock).Some?
      ensures keys == if ok then PutIps(old(keys), BLOCKLIST_KEY, IpsAt(old(keys), BLOCKLIST_KEY, clock).value - {ip})
                      else old(keys)
    {
      var found := IpsAt(keys, BLOCKLIST_KEY, clock);
      ok := found.Some?;
      if ok {
        keys := PutIps(keys, BLOCKLIST_KEY, found.value - {ip});
      }
    }

    method Set(key: string, ttl: int, clock: int)
      modifies this
      ensures keys == old(keys)[key := Entry(Flag, Some(clock + ttl))]
    {
      keys := keys[key := Entry(Flag, Some(clock + ttl))];
    }

    method Del(key: string)
      modifies this
      ensures keys == old(keys) - {key}
    {
      keys := keys - {key};
    }

    /** BlockIP, when no other client's command falls between the two of its pipeline. */
    method BlockIP(ip: string, ttl: int, addClock: int, setClock: int) returns (ok: bool)
      modifies this
      ensures var added := Exec(0, old(keys), Event(addClock, BlockAdd(ip)));
              && (ok <==> added.1 == Done) && (ok <==> IpsAt(old(keys), BLOCKLIST_KEY, addClock).Some?)
              && keys == if ttl > 0 then Exec(0, added.0, Event(setClock, BlockFlag(ip, ttl))).0 else added.0
    {
      ok := SAdd(ip, addClock);
      if ttl > 0 {
        Set(FlagKey(ip), ttl, setClock);
      }
    }

    method UnblockIP(ip: string, remClock: int, delClock: int) returns (ok: bool)
      modifies this
      ensures var removed := Exec(0, old(keys), Event(remClock, UnblockRemove(ip)));
              && (ok <==> removed.1 == Done) && (ok <==> IpsAt(old(keys), BLOCKLIST_KEY, remClock).Some?)
              && keys == Exec(0, removed.0, Event(delClock, UnblockFlag(ip))).0
    {
      ok := SRem(ip, remClock);
      Del(FlagKey(ip));
    }

    /** IsIPBlocked: `reap` tells that a background removal of the address was started; a Redis error blocks nobody. */
    method IsIPBlocked(ip: string, memberClock: int, flagClock: int) returns (blocked: bool, reap: bool)
      ensures var member := Exec(0, keys, Event(memberClock, CheckMember(ip))).1;
              var flag := Exec(0, keys, Event(flagClock, CheckFlag(ip))).1;
              && (blocked <==> member == Found(true) && flag == Found(true))
              && (reap <==> member == Found(true) && flag == Found(false))
    {
      var ips := IpsAt(keys, BLOCKLIST_KEY, memberClock);
      if ips.None? || ip !in ips.value {
        return false, false;
      }
      if !Present(keys, FlagKey(ip), flagClock) {
        return false, true;
      }
      return true, false;
    }

    /** SMEMBERS: every address added and not removed since, expired bans included. */
    method ListBlockedIPs(clock: int) returns (ips: set<string>)
      ensures forall ip :: ip in ips <==> Exec(0, keys, Event(clock, CheckMember(ip))).1 == Found(true)
    {
      var found := IpsAt(keys, BLOCKLIST_KEY, clock);
      ips := if found.Some? then found.value else {};
    }
  }
}
