/**
 The breaker one atomic instruction at a time: any number of threads, each somewhere inside Allow,
 RecordSuccess, RecordFailure or its handler, in any interleaving and with any clock readings.
 */
module BreakerThreads {
  import opened Breaker
  import opened BreakerRuns

  /** The next instruction of a thread. */
  datatype Pc =
    | Idle                           // between requests
    | AllowLoad                      // load state
    | AllowTimer                     // Open: load openedAt
    | AllowCheck(since: int)         // Open: compare with the clock
    | AllowHalfOpen                  // CAS state Open -> HalfOpen
    | AllowProbe                     // CAS probe false -> true
    | Serving                        // admitted; the handler runs
    | SuccessLoad                    // load state
    | SuccessReset                   // Closed: store failures
    | SuccessHalfReset               // HalfOpen: store failures
    | SuccessClear                   // HalfOpen: store probe
    | SuccessClose                   // CAS state HalfOpen -> Closed
    | FailureLoad                    // load state
    | FailureAdd                     // Closed: add to failures
    | FailureStamp                   // Closed: store openedAt
    | FailureOpen                    // CAS state Closed -> Open
    | FailureClear                   // HalfOpen: store probe
    | FailureRestamp                 // HalfOpen: store openedAt
    | FailureReopen                  // CAS state HalfOpen -> Open

  datatype Ending = Succeeds | Fails | Panics

  /** Thread `id` executes its next instruction; an idle one starts a request, a serving one ends its handler. */
  datatype Tick = Tick(id: nat, now: int, ending: Ending)

  /** Counts of successful compare-and-swaps on each edge, and of probe grants and true-to-false clears. */
  datatype Ledger = Ledger(tripped: nat, halved: nat, reopened: nat, closed: nat, grants: nat, clears: nat)

  /** The breaker's fields with the ledger of what was done to them. */
  datatype Shared = Shared(mem: Core, ledger: Ledger)

  /** Threads without an entry are idle. */
  datatype Machine = Machine(shared: Shared, threads: map<nat, Pc>)

  const BOOT := Machine(Shared(INITIAL, Ledger(0, 0, 0, 0, 0, 0)), map[])

  /** A compare-and-swap on the state, entered in the ledger when it succeeds. */
  function Swap(s: Shared, from: Phase, to: Phase): Shared {
    var l := s.ledger;
    if s.mem.phase != from then s
    else
      Shared(s.mem.(phase := to),
             match (from, to)
             case (Closed, _) => l.(tripped := l.tripped + 1)
             case (Open, _) => l.(halved := l.halved + 1)
             case (HalfOpen, Open) => l.(reopened := l.reopened + 1)
             case (HalfOpen, _) => l.(closed := l.closed + 1))
  }

  function ClearProbe(s: Shared): Shared {
    Shared(s.mem.(probe := false), if s.mem.probe then s.ledger.(clears := s.ledger.clears + 1) else s.ledger)
  }

  function GrantProbe(s: Shared): Shared {
    Shared(s.mem.(probe := true), if s.mem.probe then s.ledger else s.ledger.(grants := s.ledger.grants + 1))
  }

  /** One instruction: its effect on the shared fields, and the next instruction. */
  function Instruction(cfg: Config, s: Shared, pc: Pc, k: Tick): (Shared, Pc) {
    match pc
    case Idle => (s, AllowLoad)
    case AllowLoad =>
      (s, match s.mem.phase case Closed => Serving case Open => AllowTimer case HalfOpen => AllowProbe)
    case AllowTimer => (s, AllowCheck(s.mem.openedAt))
    case AllowCheck(since) =>
      (s, if k.now - since * NANOS_PER_MILLI < cfg.recovery then Idle else AllowHalfOpen)
    case AllowHalfOpen => (Swap(s, Open, HalfOpen), AllowProbe)
    case AllowProbe => if s.mem.probe then (s, Idle) else (GrantProbe(s), Serving)
    case Serving =>
      (s, match k.ending case Succeeds => SuccessLoad case Fails => FailureLoad case Panics => Idle)
    case SuccessLoad =>
      (s, match s.mem.phase case Closed => SuccessReset case Open => Idle case HalfOpen => SuccessHalfReset)
    case SuccessReset => (s.(mem := s.mem.(failures := 0)), Idle)
    case SuccessHalfReset => (s.(mem := s.mem.(failures := 0)), SuccessClear)
    case SuccessClear => (ClearProbe(s), SuccessClose)
    case SuccessClose => (Swap(s, HalfOpen, Closed), Idle)
    case FailureLoad =>
      (s, match s.mem.phase case Closed => FailureAdd case Open => Idle case HalfOpen => FailureClear)
    case FailureAdd =>
      var failures := Wrap32(s.mem.failures + 1);
      (s.(mem := s.mem.(failures := failures)), if failures >= cfg.threshold then FailureStamp else Idle)
    case FailureStamp => (s.(mem := s.mem.(openedAt := UnixMilli(k.now))), FailureOpen)
    case FailureOpen => (Swap(s, Closed, Open), Idle)
    case FailureClear => (ClearProbe(s), FailureRestamp)
    case FailureRestamp => (s.(mem := s.mem.(openedAt := UnixMilli(k.now))), FailureReopen)
    case FailureReopen => (Swap(s, HalfOpen, Open), Idle)
  }

  function PcOf(threads: map<nat, Pc>, id: nat): Pc {
    if id in threads then threads[id] else Idle
  }

  function Put(threads: map<nat, Pc>, id: nat, pc: Pc): map<nat, Pc> {
    if pc.Idle? then threads - {id} else threads[id := pc]
  }

  function Execute(cfg: Config, m: Machine, k: Tick): Machine {
    var (shared, pc) := Instruction(cfg, m.shared, PcOf(m.threads, k.id), k);
    Machine(shared, Put(m.threads, k.id, pc))
  }

  function Schedule(cfg: Config, m: Machine, ticks: seq<Tick>): Machine
    decreases |ticks|
  {
    if ticks == [] then m else Schedule(cfg, Execute(cfg, m, ticks[0]), ticks[1..])
  }

  function Bit(b: bool): nat { if b then 1 else 0 }

  /** Each of the four edges is taken by one instruction only, and the ledger counts edges, grants and clears. */
  lemma {:induction false} FourEdges(cfg: Config, m: Machine, k: Tick)
    ensures var pc, from, to := PcOf(m.threads, k.id), m.shared.mem.phase, Execute(cfg, m, k).shared.mem.phase;
            from == to || (pc, from, to) in {(FailureOpen, Closed, Open), (AllowHalfOpen, Open, HalfOpen),
                                             (FailureReopen, HalfOpen, Open), (SuccessClose, HalfOpen, Closed)}
    ensures var before, after := m.shared, Execute(cfg, m, k).shared;
            var from, to, l := before.mem.phase, after.mem.phase, before.ledger;
            after.ledger == Ledger(l.tripped + Bit(from == Closed && to == Open),
                                   l.halved + Bit(from == Open && to == HalfOpen),
                                   l.reopened + Bit(from == HalfOpen && to == Open),
                                   l.closed + Bit(from == HalfOpen && to == Closed),
                                   l.grants + Bit(!before.mem.probe && after.mem.probe),
                                   l.clears + Bit(before.mem.probe && !after.mem.probe))
  {
  }

  /**
   Each method loads the state once. Whatever the state is at any later instruction, the thread goes on
   alike and does the same to the other fields.
   */
  lemma {:induction false} StateLoadedOnce(cfg: Config, s: Shared, pc: Pc, k: Tick, other: Phase)
    requires !pc.AllowLoad? && !pc.SuccessLoad? && !pc.FailureLoad?
    ensures var (s1, pc1) := Instruction(cfg, s, pc, k);
            var (s2, pc2) := Instruction(cfg, s.(mem := s.mem.(phase := other)), pc, k);
            pc1 == pc2 && s1.mem == s2.mem.(phase := s1.mem.phase)
  {
  }

  /** Any instructions of other threads, then one of thread `tick.id`. */
  datatype Turn = Turn(others: seq<Tick>, tick: Tick)

  ghost predicate TurnOf(turn: Turn, id: nat) {
    turn.tick.id == id && forall k :: k in turn.others ==> k.id != id
  }

  /** The machine just before the turn's own instruction. */
  function Awaiting(cfg: Config, m: Machine, turn: Turn): Machine {
    Schedule(cfg, m, turn.others)
  }

  function Take(cfg: Config, m: Machine, turn: Turn): Machine {
    Execute(cfg, Awaiting(cfg, m, turn), turn.tick)
  }

  lemma {:induction false} OthersPass(cfg: Config, m: Machine, ticks: seq<Tick>, id: nat)
    requires forall k :: k in ticks ==> k.id != id
    ensures PcOf(Schedule(cfg, m, ticks).threads, id) == PcOf(m.threads, id)
    decreases |ticks|
  {
    if ticks == [] {
    } else {
      OthersPass(cfg, Execute(cfg, m, ticks[0]), ticks[1..], id);
    }
  }

  lemma {:induction false} OwnTurn(cfg: Config, m: Machine, turn: Turn, id: nat)
    requires TurnOf(turn, id)
    ensures var (s, pc) := Instruction(cfg, Awaiting(cfg, m, turn).shared, PcOf(m.threads, id), turn.tick);
            Take(cfg, m, turn).shared == s && PcOf(Take(cfg, m, turn).threads, id) == pc
  {
    OthersPass(cfg, m, turn.others, id);
  }

  /**
   A request that has loaded Open, its four remaining instructions at any distance from each other: the opening
   time it reads and its clock decide whether it fails fast, and otherwise the flag alone decides whether it is
   let through, even if others have moved the state meanwhile or won the swap to HalfOpen.
   */
  lemma {:induction false} TimerThenFlag(cfg: Config, m: Machine, id: nat,
                                         timer: Turn, check: Turn, swap: Turn, flag: Turn)
    requires PcOf(m.threads, id) == AllowTimer
    requires TurnOf(timer, id) && TurnOf(check, id) && TurnOf(swap, id) && TurnOf(flag, id)
    ensures var openedAt := Awaiting(cfg, m, timer).shared.mem.openedAt;
            var checked := Take(cfg, Take(cfg, m, timer), check);
            var swapped := Take(cfg, checked, swap);
            var taken := Awaiting(cfg, swapped, flag).shared.mem.probe;
            if check.tick.now < openedAt * NANOS_PER_MILLI + cfg.recovery then PcOf(checked.threads, id) == Idle
            else PcOf(Take(cfg, swapped, flag).threads, id) == (if taken then Idle else Serving) &&
                 Take(cfg, swapped, flag).shared.mem.probe
  {
    OwnTurn(cfg, m, timer, id);
    var timed := Take(cfg, m, timer);
    OwnTurn(cfg, timed, check, id);
    var checked := Take(cfg, timed, check);
    OwnTurn(cfg, checked, swap, id);
    OwnTurn(cfg, Take(cfg, checked, swap), flag, id);
  }

  /** The opening time in memory, and the one every waiting request has read, is one of `stamps`. */
  ghost predicate Stamped(m: Machine, stamps: set<int>) {
    && (!m.shared.mem.phase.Closed? ==> m.shared.mem.openedAt in stamps)
    && (forall id :: id in m.threads ==> StampedThread(m.shared.mem.openedAt, m.threads[id], stamps))
  }

  ghost predicate StampedThread(openedAt: int, pc: Pc, stamps: set<int>) {
    && (pc.AllowTimer? || pc.FailureOpen? || pc.FailureReopen? ==> openedAt in stamps)
    && (pc.AllowCheck? ==> pc.since in stamps)
  }

  lemma {:induction false} StampedStep(cfg: Config, m: Machine, k: Tick, stamps: set<int>)
    requires Stamped(m, stamps) && UnixMilli(k.now) in stamps
    ensures Stamped(Execute(cfg, m, k), stamps)
  {
    var next := Execute(cfg, m, k);
    assert next.shared.mem.openedAt == m.shared.mem.openedAt || next.shared.mem.openedAt in stamps;
    assert StampedThread(m.shared.mem.openedAt, PcOf(m.threads, k.id), stamps);
    forall id | id in next.threads ensures StampedThread(next.shared.mem.openedAt, next.threads[id], stamps) {
      assert id != k.id ==> StampedThread(m.shared.mem.openedAt, m.threads[id], stamps);
    }
  }

  lemma {:induction false} StaysStamped(cfg: Config, m: Machine, ticks: seq<Tick>, stamps: set<int>)
    requires Stamped(m, stamps) && forall k :: k in ticks ==> UnixMilli(k.now) in stamps
    ensures Stamped(Schedule(cfg, m, ticks), stamps)
    decreases |ticks|
  {
    if ticks == [] {
    } else {
      StampedStep(cfg, m, ticks[0], stamps);
      StaysStamped(cfg, Execute(cfg, m, ticks[0]), ticks[1..], stamps);
    }
  }

  /** In every schedule from a fresh breaker the opening time is recorded before the breaker opens. */
  lemma {:induction false} StampedBeforeOpen(cfg: Config, ticks: seq<Tick>)
    ensures var m := Schedule(cfg, BOOT, ticks);
            && (!m.shared.mem.phase.Closed? ==> exists k :: k in ticks && m.shared.mem.openedAt == UnixMilli(k.now))
            && (forall id :: id in m.threads && m.threads[id].AllowCheck? ==>
                  exists k :: k in ticks && m.threads[id].since == UnixMilli(k.now))
  {
    var stamps := set k | k in ticks :: UnixMilli(k.now);
    StaysStamped(cfg, BOOT, ticks, stamps);
  }

  /** The edge counts balance to the current state, and grants less clears to the probe flag. */
  ghost predicate Balanced(s: Shared) {
    var l, phase := s.ledger, s.mem.phase;
    && 1 + l.closed == l.tripped + Bit(phase.Closed?)
    && l.tripped + l.reopened == l.halved + Bit(phase.Open?)
    && l.halved == l.reopened + l.closed + Bit(phase.HalfOpen?)
    && l.grants == l.clears + Bit(s.mem.probe)
  }

  /** In every interleaving the successful compare-and-swaps balance. */
  lemma {:induction false} AlwaysBalanced(cfg: Config, m: Machine, ticks: seq<Tick>)
    requires Balanced(m.shared)
    ensures Balanced(Schedule(cfg, m, ticks).shared)
    decreases |ticks|
  {
    if ticks == [] {
    } else {
      BalanceStep(cfg, m.shared, PcOf(m.threads, ticks[0].id), ticks[0]);
      AlwaysBalanced(cfg, Execute(cfg, m, ticks[0]), ticks[1..]);
    }
  }

  lemma {:induction false} BalanceStep(cfg: Config, s: Shared, pc: Pc, k: Tick)
    requires Balanced(s)
    ensures Balanced(Instruction(cfg, s, pc, k).0)
  {
  }

  /** From a fresh breaker, whatever the schedule: trips and closings alternate, and so do grants and clears. */
  lemma {:induction false} FromBoot(cfg: Config, ticks: seq<Tick>)
    ensures var s := Schedule(cfg, BOOT, ticks).shared; var l := s.ledger;
            && Balanced(s)
            && l.closed <= l.tripped <= l.closed + 1
            && l.clears <= l.grants <= l.clears + 1
            && l.reopened + l.closed <= l.halved <= l.reopened + l.tripped
  {
    AlwaysBalanced(cfg, BOOT, ticks);
  }

  lemma {:induction false} ScheduleSplit(cfg: Config, m: Machine, first: seq<Tick>, second: seq<Tick>)
    ensures Schedule(cfg, m, first + second) == Schedule(cfg, Schedule(cfg, m, first), second)
    decreases |first|
  {
    if first == [] {
      assert first + second == second;
    } else {
      assert (first + second)[1..] == first[1..] + second;
      ScheduleSplit(cfg, Execute(cfg, m, first[0]), first[1..], second);
    }
  }

  predicate Calm(ticks: seq<Tick>) {
    forall k: Tick :: k in ticks ==> !k.ending.Panics?
  }

  /** Some schedule without panics leads from `m` to `m'`. */
  ghost predicate Reaches(cfg: Config, m: Machine, m': Machine) {
    exists ticks :: Schedule(cfg, m, ticks) == m' && Calm(ticks)
  }

  lemma {:induction false} ReachesSelf(cfg: Config, m: Machine)
    ensures Reaches(cfg, m, m)
  {
    assert Schedule(cfg, m, []) == m && Calm([]);
  }

  lemma {:induction false} ReachesOn(cfg: Config, m: Machine, mid: Machine, end: Machine)
    requires Reaches(cfg, m, mid) && Reaches(cfg, mid, end)
    ensures Reaches(cfg, m, end)
  {
    var first :| Schedule(cfg, m, first) == mid && Calm(first);
    var second :| Schedule(cfg, mid, second) == end && Calm(second);
    ScheduleSplit(cfg, m, first, second);
    assert Schedule(cfg, m, first + second) == end && Calm(first + second);
  }

  /** One more instruction of thread `k.id`. */
  lemma {:induction false} Then(cfg: Config, m: Machine, mid: Machine, k: Tick) returns (next: Machine)
    requires Reaches(cfg, m, mid) && !k.ending.Panics?
    ensures next == Execute(cfg, mid, k) && Reaches(cfg, m, next)
  {
    next := Execute(cfg, mid, k);
    assert Schedule(cfg, mid, [k]) == next && Calm([k]);
    ReachesOn(cfg, m, mid, next);
  }

  /** From `m`, thread `k.id` has come to instruction `pc` with the shared fields at `s`; every other thread rests. */
  ghost predicate Got(cfg: Config, m: Machine, k: Tick, s: Shared, pc: Pc) {
    Reaches(cfg, m, Machine(s, Put(m.threads, k.id, pc)))
  }

  lemma {:induction false} Solo(cfg: Config, m: Machine, k: Tick, s: Shared, pc: Pc) returns (s': Shared, pc': Pc)
    requires Got(cfg, m, k, s, pc) && !k.ending.Panics?
    ensures (s', pc') == Instruction(cfg, s, pc, k) && Got(cfg, m, k, s', pc')
  {
    var mid := Machine(s, Put(m.threads, k.id, pc));
    var next := Then(cfg, m, mid, k);
    s', pc' := Instruction(cfg, s, pc, k).0, Instruction(cfg, s, pc, k).1;
    assert PcOf(mid.threads, k.id) == pc;
    assert Put(mid.threads, k.id, pc') == Put(m.threads, k.id, pc');
  }

  lemma {:induction false} AfterTimer(cfg: Config, m: Machine, k: Tick, s: Shared) returns (s': Shared, pc: Pc)
    requires Got(cfg, m, k, s, AllowTimer) && s.mem.phase.Open? && !k.ending.Panics?
    ensures Got(cfg, m, k, s', pc)
    ensures if Elapsed(s.mem, k.now) < cfg.recovery then pc.Idle? && s' == s
            else pc.AllowProbe? && s'.mem == s.mem.(phase := HalfOpen)
  {
    s', pc := Solo(cfg, m, k, s, AllowTimer);
    s', pc := Solo(cfg, m, k, s', pc);
    if pc.AllowHalfOpen? {
      s', pc := Solo(cfg, m, k, s', pc);
    }
  }

  /** Allow run without interruption is the atomic step, and touches no other thread. */
  lemma {:induction false} AllowAlone(cfg: Config, m: Machine, id: nat, now: int) returns (end: Machine)
    requires id !in m.threads
    ensures Reaches(cfg, m, end)
    ensures var (core, verdict) := AllowStep(cfg, m.shared.mem, now);
            end.shared.mem == core && end.threads == if verdict.Admitted? then m.threads[id := Serving] else m.threads
  {
    var k := Tick(id, now, Succeeds);
    assert Put(m.threads, id, Idle) == m.threads;
    ReachesSelf(cfg, m);
    var s, pc := Solo(cfg, m, k, m.shared, Idle);
    s, pc := Solo(cfg, m, k, s, pc);
    if pc.AllowTimer? {
      s, pc := AfterTimer(cfg, m, k, s);
    }
    if pc.AllowProbe? {
      s, pc := Solo(cfg, m, k, s, pc);
    }
    end := Machine(s, Put(m.threads, id, pc));
  }

  lemma {:induction false} SuccessAlone(cfg: Config, m: Machine, id: nat, now: int) returns (end: Machine)
    requires id in m.threads && m.threads[id].Serving?
    ensures Reaches(cfg, m, end) && end.shared.mem == SuccessStep(m.shared.mem) && end.threads == m.threads - {id}
  {
    var k := Tick(id, now, Succeeds);
    assert Put(m.threads, id, Serving) == m.threads;
    ReachesSelf(cfg, m);
    var s, pc := Solo(cfg, m, k, m.shared, Serving);
    s, pc := Solo(cfg, m, k, s, pc);
    if !pc.Idle? {
      s, pc := Solo(cfg, m, k, s, pc);
    }
    if pc.SuccessClear? {
      s, pc := Solo(cfg, m, k, s, pc);
      s, pc := Solo(cfg, m, k, s, pc);
    }
    end := Machine(s, Put(m.threads, id, pc));
  }

  lemma {:induction false} FailureAlone(cfg: Config, m: Machine, id: nat, now: int) returns (end: Machine)
    requires id in m.threads && m.threads[id].Serving?
    ensures Reaches(cfg, m, end)
    ensures end.shared.mem == FailureStep(cfg, m.shared.mem, now) && end.threads == m.threads - {id}
  {
    var k := Tick(id, now, Fails);
    assert Put(m.threads, id, Serving) == m.threads;
    ReachesSelf(cfg, m);
    var s, pc := Solo(cfg, m, k, m.shared, Serving);
    s, pc := Solo(cfg, m, k, s, pc);
    if pc.FailureAdd? {
      s, pc := CountFailure(cfg, m, k, s);
    } else if pc.FailureClear? {
      s, pc := Reopen(cfg, m, k, s);
    }
    end := Machine(s, Put(m.threads, id, pc));
  }

  lemma {:induction false} Reopen(cfg: Config, m: Machine, k: Tick, s: Shared) returns (s': Shared, pc: Pc)
    requires Got(cfg, m, k, s, FailureClear) && s.mem.phase.HalfOpen? && !k.ending.Panics?
    ensures pc.Idle? && Got(cfg, m, k, s', pc) && s'.mem == FailureStep(cfg, s.mem, k.now)
  {
    s', pc := Solo(cfg, m, k, s, FailureClear);
    s', pc := Solo(cfg, m, k, s', pc);
    s', pc := Solo(cfg, m, k, s', pc);
  }

  lemma {:induction false} CountFailure(cfg: Config, m: Machine, k: Tick, s: Shared) returns (s': Shared, pc: Pc)
    requires Got(cfg, m, k, s, FailureAdd) && s.mem.phase.Closed? && !k.ending.Panics?
    ensures pc.Idle? && Got(cfg, m, k, s', pc) && s'.mem == FailureStep(cfg, s.mem, k.now)
  {
    s', pc := Solo(cfg, m, k, s, FailureAdd);
    if !pc.Idle? {
      s', pc := Solo(cfg, m, k, s', pc);
      s', pc := Solo(cfg, m, k, s', pc);
    }
  }

  /** Recording run without interruption, from the end of the handler on, is the atomic step. */
  lemma {:induction false} RecordAlone(cfg: Config, m: Machine, id: nat, ok: bool, now: int) returns (end: Machine)
    requires id in m.threads && m.threads[id].Serving?
    ensures Reaches(cfg, m, end)
    ensures end.shared.mem == (if ok then SuccessStep(m.shared.mem) else FailureStep(cfg, m.shared.mem, now))
    ensures end.threads == m.threads - {id}
  {
    if ok {
      end := SuccessAlone(cfg, m, id, now);
    } else {
      end := FailureAlone(cfg, m, id, now);
    }
  }

  /** The threads of a machine between method calls: one in its handler for each outstanding request. */
  ghost predicate Between(m: Machine, y: System) {
    && m.shared.mem == y.core
    && m.threads.Keys == y.outstanding
    && forall id :: id in m.threads ==> m.threads[id].Serving?
  }

  /** Every run of atomic methods is a schedule of the instructions, panicking handlers included. */
  lemma {:induction false} RunsAreSchedules(cfg: Config, es: seq<Event>, n: nat) returns (ticks: seq<Tick>)
    requires Run(cfg, START, es) && n <= |es|
    ensures Between(Schedule(cfg, BOOT, ticks), At(cfg, START, es, n))
    ensures (forall i :: 0 <= i < n ==> !es[i].Panic?) ==> Calm(ticks)
  {
    if n == 0 {
      ticks := [];
    } else {
      var before := RunsAreSchedules(cfg, es, n - 1);
      assert EnabledAt(cfg, START, es, n - 1);
      var more := StepIsSchedule(cfg, Schedule(cfg, BOOT, before), At(cfg, START, es, n - 1), es[n-1]);
      ScheduleSplit(cfg, BOOT, before, more);
      ticks := before + more;
    }
  }

  lemma {:induction false} StepIsSchedule(cfg: Config, m: Machine, y: System, e: Event) returns (ticks: seq<Tick>)
    requires Between(m, y) && Enabled(y, e)
    ensures Between(Schedule(cfg, m, ticks), Step(cfg, y, e)) && (!e.Panic? ==> Calm(ticks))
  {
    match e {
      case Arrive(id, now) =>
        var end := AllowAlone(cfg, m, id, now);
        ticks :| Schedule(cfg, m, ticks) == end && Calm(ticks);
      case Finish(id, status, now) =>
        var end := RecordAlone(cfg, m, id, status < 500, now);
        ticks :| Schedule(cfg, m, ticks) == end && Calm(ticks);
      case Panic(id, now) =>
        ticks := [Tick(id, now, Panics)];
        assert Schedule(cfg, m, ticks) == Execute(cfg, m, ticks[0]);
    }
  }

  /** A thread here may still clear the probe flag, or close a HalfOpen breaker, without winning the flag first. */
  predicate Resolving(pc: Pc) {
    pc.Serving? || pc.SuccessLoad? || pc.SuccessHalfReset? || pc.SuccessClear? || pc.SuccessClose? ||
    pc.FailureLoad? || pc.FailureClear?
  }

  /** Not closed, the flag set, and no thread that could still clear it. */
  ghost predicate Shut(m: Machine) {
    && !m.shared.mem.phase.Closed? && m.shared.mem.probe
    && forall id :: id in m.threads ==> !Resolving(m.threads[id])
  }

  /** A shut breaker stays shut in every schedule: it never closes and never lets a request through again. */
  lemma {:induction false} ShutForGood(cfg: Config, m: Machine, ticks: seq<Tick>)
    requires Shut(m)
    ensures Shut(Schedule(cfg, m, ticks))
    decreases |ticks|
  {
    if ticks == [] {
    } else {
      ShutStep(cfg, m.shared, PcOf(m.threads, ticks[0].id), ticks[0]);
      ShutForGood(cfg, Execute(cfg, m, ticks[0]), ticks[1..]);
    }
  }

  lemma {:induction false} ShutStep(cfg: Config, s: Shared, pc: Pc, k: Tick)
    requires !s.mem.phase.Closed? && s.mem.probe && !Resolving(pc)
    ensures var (s', pc') := Instruction(cfg, s, pc, k); !s'.mem.phase.Closed? && s'.mem.probe && !Resolving(pc')
  {
  }

  ghost predicate CanCloseAgain(cfg: Config, m: Machine) {
    exists m' :: Reaches(cfg, m, m') && m'.shared.mem.phase.Closed?
  }

  /** From any machine whatever, the breaker can reach Closed again exactly if it is not shut. */
  lemma {:induction false} ClosesUnlessShut(cfg: Config, m: Machine)
    ensures CanCloseAgain(cfg, m) <==> !Shut(m)
  {
    if Shut(m) {
      forall m' | Reaches(cfg, m, m') ensures !m'.shared.mem.phase.Closed? {
        var ticks :| Schedule(cfg, m, ticks) == m' && Calm(ticks);
        ShutForGood(cfg, m, ticks);
      }
    } else if m.shared.mem.phase.Closed? {
      ReachesSelf(cfg, m);
    } else if !m.shared.mem.probe {
      var end := ProbeAndClose(cfg, m);
    } else {
      var id :| id in m.threads && Resolving(m.threads[id]);
      var end := ResolveAndClose(cfg, m, id);
    }
  }

  /** With the flag clear, a new request becomes the probe, succeeds and closes the breaker. */
  lemma {:induction false} ProbeAndClose(cfg: Config, m: Machine) returns (end: Machine)
    requires !m.shared.mem.phase.Closed? && !m.shared.mem.probe
    ensures Reaches(cfg, m, end) && end.shared.mem.phase.Closed?
  {
    var id := Above(m.threads.Keys);
    var probing := AllowAlone(cfg, m, id, Ready(cfg, m));
    end := SuccessAlone(cfg, probing, id, Ready(cfg, m));
    ReachesOn(cfg, m, probing, end);
  }

  /** A resolving thread, once the breaker is HalfOpen, closes it or clears the flag. */
  lemma {:induction false} ResolveAndClose(cfg: Config, m: Machine, id: nat) returns (end: Machine)
    requires !m.shared.mem.phase.Closed? && m.shared.mem.probe && id in m.threads && Resolving(m.threads[id])
    ensures Reaches(cfg, m, end) && end.shared.mem.phase.Closed?
  {
    var halfOpen := MakeHalfOpen(cfg, m);
    var resolved;
    if m.threads[id].FailureLoad? || m.threads[id].FailureClear? {
      resolved := FailureClears(cfg, halfOpen, id);
      end := ProbeAndClose(cfg, resolved);
      ReachesOn(cfg, halfOpen, resolved, end);
    } else {
      end := SuccessCloses(cfg, halfOpen, id);
    }
    ReachesOn(cfg, m, halfOpen, end);
  }

  /** A refused request after the recovery time brings Open to HalfOpen and leaves the other threads where they are. */
  lemma {:induction false} MakeHalfOpen(cfg: Config, m: Machine) returns (end: Machine)
    requires !m.shared.mem.phase.Closed? && m.shared.mem.probe
    ensures Reaches(cfg, m, end) && end.shared.mem == m.shared.mem.(phase := HalfOpen) && end.threads == m.threads
  {
    var id := Above(m.threads.Keys);
    end := AllowAlone(cfg, m, id, Ready(cfg, m));
  }

  lemma {:induction false} FailureClears(cfg: Config, m: Machine, id: nat) returns (end: Machine)
    requires m.shared.mem.phase.HalfOpen? && id in m.threads
    requires m.threads[id].FailureLoad? || m.threads[id].FailureClear?
    ensures Reaches(cfg, m, end) && end.shared.mem.phase.HalfOpen? && !end.shared.mem.probe
  {
    var k := Tick(id, 0, Fails);
    assert Put(m.threads, id, m.threads[id]) == m.threads;
    ReachesSelf(cfg, m);
    var s, pc := m.shared, m.threads[id];
    if pc.FailureLoad? {
      s, pc := Solo(cfg, m, k, s, pc);
    }
    s, pc := Solo(cfg, m, k, s, pc);
    end := Machine(s, Put(m.threads, id, pc));
  }

  /** A succeeding thread that finds HalfOpen runs through to its swap. */
  lemma {:induction false} SuccessCloses(cfg: Config, m: Machine, id: nat) returns (end: Machine)
    requires m.shared.mem.phase.HalfOpen? && id in m.threads && Resolving(m.threads[id])
    requires !m.threads[id].FailureLoad? && !m.threads[id].FailureClear?
    ensures Reaches(cfg, m, end) && end.shared.mem.phase.Closed?
  {
    var k := Tick(id, 0, Succeeds);
    assert Put(m.threads, id, m.threads[id]) == m.threads;
    ReachesSelf(cfg, m);
    var s, pc := m.shared, m.threads[id];
    if pc.Serving? {
      s, pc := Solo(cfg, m, k, s, pc);
    }
    if pc.SuccessLoad? {
      s, pc := Solo(cfg, m, k, s, pc);
    }
    if pc.SuccessHalfReset? {
      s, pc := Solo(cfg, m, k, s, pc);
    }
    end := ClearAndClose(cfg, m, k, s, pc);
  }

  lemma {:induction false} ClearAndClose(cfg: Config, m: Machine, k: Tick, from: Shared, at: Pc) returns (end: Machine)
    requires Got(cfg, m, k, from, at) && from.mem.phase.HalfOpen? && !k.ending.Panics?
    requires at.SuccessClear? || at.SuccessClose?
    ensures Reaches(cfg, m, end) && end.shared.mem.phase.Closed?
  {
    var s, pc := from, at;
    if pc.SuccessClear? {
      s, pc := Solo(cfg, m, k, s, pc);
    }
    s, pc := Solo(cfg, m, k, s, pc);
    end := Machine(s, Put(m.threads, k.id, pc));
  }

  /**
   The stale flag. RecordSuccess clears the flag before its swap to Closed, so an Allow in between takes it and
   leaves Closed with the flag set; the next outage then has no probe. Without any panic the breaker ends up
   HalfOpen with every thread idle, and stays shut.
   */
  lemma {:induction false} StaleFlagShutsForGood(cfg: Config) returns (stale: Machine, shut: Machine)
    requires Fits(cfg)
    ensures Reaches(cfg, BOOT, stale)
    ensures stale.shared.mem.phase.Closed? && stale.shared.mem.probe && stale.threads == map[]
    ensures Reaches(cfg, stale, shut) && shut.shared.mem.phase.HalfOpen? && shut.threads == map[]
    ensures !CanCloseAgain(cfg, shut)
  {
    var open := Trip(cfg, BOOT, TripCount(cfg) - 1);
    stale := LoseClear(cfg, open, Ready(cfg, open));
    ReachesOn(cfg, BOOT, open, stale);
    shut := NextOutage(cfg, stale);
    ClosesUnlessShut(cfg, shut);
  }

  /** With the flag left set, the next trip's first request after the recovery time finds it taken. */
  lemma {:induction false} NextOutage(cfg: Config, stale: Machine) returns (shut: Machine)
    requires Fits(cfg) && stale.threads == map[]
    requires stale.shared.mem.phase.Closed? && stale.shared.mem.failures == 0 && stale.shared.mem.probe
    ensures Reaches(cfg, stale, shut) && shut.threads == map[]
    ensures shut.shared.mem.phase.HalfOpen? && shut.shared.mem.probe
  {
    var reopened := Trip(cfg, stale, TripCount(cfg) - 1);
    shut := AllowAlone(cfg, reopened, 0, Ready(cfg, reopened));
    ReachesOn(cfg, stale, reopened, shut);
  }

  /** When the recovery time of the current outage has passed. */
  function Ready(cfg: Config, m: Machine): int {
    m.shared.mem.openedAt * NANOS_PER_MILLI + cfg.recovery
  }

  /** Failing requests trip a closed breaker with `left` failures to spare; the flag is left as it is. */
  lemma {:induction false} Trip(cfg: Config, m: Machine, left: nat) returns (end: Machine)
    requires Fits(cfg) && m.shared.mem.phase.Closed? && m.threads == map[]
    requires 0 <= m.shared.mem.failures && m.shared.mem.failures + left + 1 == TripCount(cfg)
    ensures Reaches(cfg, m, end) && end.threads == map[]
    ensures end.shared.mem.phase.Open? && end.shared.mem.probe == m.shared.mem.probe
    decreases left
  {
    var failed := FailAlone(cfg, m);
    if left == 0 {
      end := failed;
    } else {
      end := Trip(cfg, failed, left - 1);
      ReachesOn(cfg, m, failed, end);
    }
  }

  /** One failing request, start to end. */
  lemma {:induction false} FailAlone(cfg: Config, m: Machine) returns (end: Machine)
    requires m.shared.mem.phase.Closed? && m.threads == map[]
    ensures Reaches(cfg, m, end) && end.threads == map[]
    ensures end.shared.mem == FailureStep(cfg, m.shared.mem, 0)
  {
    var serving := AllowAlone(cfg, m, 0, 0);
    end := FailureAlone(cfg, serving, 0, 0);
    ReachesOn(cfg, m, serving, end);
  }

  /** The probe (thread 0) clears the flag, thread 1 takes it, the probe closes, thread 1 finishes in Closed. */
  lemma {:induction false} LoseClear(cfg: Config, m: Machine, ready: int) returns (end: Machine)
    requires m.shared.mem.phase.Open? && !m.shared.mem.probe && m.threads == map[]
    requires Elapsed(m.shared.mem, ready) >= cfg.recovery
    ensures Reaches(cfg, m, end) && end.threads == map[]
    ensures end.shared.mem.phase.Closed? && end.shared.mem.failures == 0 && end.shared.mem.probe
  {
    var probing := AllowAlone(cfg, m, 0, ready);
    var cleared := ClearEarly(cfg, probing, ready);
    ReachesOn(cfg, m, probing, cleared);
    end := TakeAndClose(cfg, cleared, ready);
    ReachesOn(cfg, m, cleared, end);
  }

  lemma {:induction false} TakeAndClose(cfg: Config, m: Machine, now: int) returns (end: Machine)
    requires m.shared.mem.phase.HalfOpen? && !m.shared.mem.probe && m.threads == map[0 := SuccessClose]
    ensures Reaches(cfg, m, end) && end.threads == map[]
    ensures end.shared.mem.phase.Closed? && end.shared.mem.failures == 0 && end.shared.mem.probe
  {
    var taken := AllowAlone(cfg, m, 1, now);
    var closed := Then(cfg, m, taken, Tick(0, now, Succeeds));
    assert closed.threads == map[1 := Serving];
    end := SuccessAlone(cfg, closed, 1, now);
    ReachesOn(cfg, m, closed, end);
  }

  /** The probe's RecordSuccess up to, and not including, its swap. */
  lemma {:induction false} ClearEarly(cfg: Config, m: Machine, now: int) returns (end: Machine)
    requires m.shared.mem.phase.HalfOpen? && m.shared.mem.probe && m.threads == map[0 := Serving]
    ensures Reaches(cfg, m, end) && end.threads == map[0 := SuccessClose]
    ensures end.shared.mem.phase.HalfOpen? && !end.shared.mem.probe && end.shared.mem.failures == 0
  {
    var k := Tick(0, now, Succeeds);
    assert Put(m.threads, 0, Serving) == m.threads;
    ReachesSelf(cfg, m);
    var s, pc := Solo(cfg, m, k, m.shared, Serving);
    s, pc := Solo(cfg, m, k, s, pc);
    s, pc := Solo(cfg, m, k, s, pc);
    s, pc := Solo(cfg, m, k, s, pc);
    end := Machine(s, Put(m.threads, 0, pc));
  }
}
