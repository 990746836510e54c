/**
 The Datastore lock of djangae/contrib/locking as a timed transition system; times are in microseconds.

 A holder is inside its critical section from the commit that gives it the lock until its release deletes
 the record, and time never passes beyond `maxHold` after the lock's timestamp while it is inside. A
 transaction and the reaper's query with its deletes are one step each.
 */
module Locking {
  import opened Common

  /** DELETE_LOCKS_OLDER_THAN_SECONDS */
  const CUT_OFF: int := 600 * 1_000_000

  datatype Hold = Hold(identifier: string, stamp: int)

  /** How long sections last, and the values of steal_after_ms that callers use. */
  datatype Config = Config(maxHold: nat, steals: set<Option<nat>>)

  /**
   The stored records carry only a timestamp; `owners` remembers which acquisition wrote each of them, and
   `holders` which acquisitions are inside their critical section.
   */
  datatype State = State(
    now: int,
    locks: map<string, int>,
    owners: map<string, nat>,
    holders: map<nat, Hold>,
    nextToken: nat)

  datatype Action =
    | Tick(d: nat)
    | Try(identifier: string, stealAfter: Option<nat>)
    | Release(token: nat)
    | Crash(token: nat)
    | Reap

  /** An existing record may be stolen; neither None nor 0 ever steals. */
  predicate Stealable(now: int, stamp: int, stealAfter: Option<nat>) {
    stealAfter.Some? && stealAfter.value != 0 && now - stamp > stealAfter.value * 1000
  }

  /** The transaction succeeds in creating or stealing the record. */
  predicate Obtains(s: State, identifier: string, stealAfter: Option<nat>) {
    identifier in s.locks ==> Stealable(s.now, s.locks[identifier], stealAfter)
  }

  predicate Enabled(cfg: Config, s: State, a: Action) {
    match a
    case Tick(d) => forall t :: t in s.holders ==> s.now + d <= s.holders[t].stamp + cfg.maxHold
    case Try(_, stealAfter) => stealAfter in cfg.steals
    case Release(t) => t in s.holders
    case Crash(t) => t in s.holders
    case Reap => true
  }

  /** Deletes by key, whoever owns the record. */
  function Delete(s: State, identifiers: set<string>): State {
    s.(locks := s.locks - identifiers, owners := s.owners - identifiers)
  }

  function Apply(cfg: Config, s: State, a: Action): State
    requires Enabled(cfg, s, a)
  {
    match a
    case Tick(d) => s.(now := s.now + d)
    case Try(identifier, stealAfter) =>
      if !Obtains(s, identifier, stealAfter) then s
      else s.(locks := s.locks[identifier := s.now],
              owners := s.owners[identifier := s.nextToken],
              holders := s.holders[s.nextToken := Hold(identifier, s.now)],
              nextToken := s.nextToken + 1)
    case Release(t) => Delete(s, {s.holders[t].identifier}).(holders := s.holders - {t})
    case Crash(t) => s.(holders := s.holders - {t})
    case Reap => Delete(s, set i | i in s.locks && s.locks[i] < s.now - CUT_OFF)
  }

  const INITIAL := State(0, map[], map[], map[], 0)

  predicate IsRun(cfg: Config, log: seq<Action>)
    decreases |log|, 0
  {
    log == [] || (IsRun(cfg, log[..|log| - 1]) && Enabled(cfg, After(cfg, log[..|log| - 1]), log[|log| - 1]))
  }

  function After(cfg: Config, log: seq<Action>): State
    requires IsRun(cfg, log)
    decreases |log|, 1
  {
    if log == [] then INITIAL else Apply(cfg, After(cfg, log[..|log| - 1]), log[|log| - 1])
  }

  lemma RunExtend(cfg: Config, log: seq<Action>, a: Action)
    requires IsRun(cfg, log) && Enabled(cfg, After(cfg, log), a)
    ensures IsRun(cfg, log + [a]) && After(cfg, log + [a]) == Apply(cfg, After(cfg, log), a)
  {
  }

  // ------------------------------------------------------------------- safety

  /** At most one process per identifier is inside its critical section. */
  predicate Exclusive(s: State) {
    forall t, u :: t in s.holders && u in s.holders && t != u ==> s.holders[t].identifier != s.holders[u].identifier
  }

  /** The stored record of t's identifier is the one that t wrote. */
  predicate Owns(s: State, t: nat)
    requires t in s.holders
  {
    var i := s.holders[t].identifier;
    i in s.locks && i in s.owners && s.owners[i] == t && s.locks[i] == s.holders[t].stamp
  }

  predicate Inv(cfg: Config, s: State) {
    forall t :: t in s.holders ==>
      t < s.nextToken && Owns(s, t) && s.holders[t].stamp <= s.now <= s.holders[t].stamp + cfg.maxHold
  }

  /** No steal and no reaping can hit a section that keeps to its time. */
  predicate SafeConfig(cfg: Config) {
    && cfg.maxHold <= CUT_OFF
    && forall o :: o in cfg.steals && o.Some? && o.value != 0 ==> cfg.maxHold <= o.value * 1000
  }

  lemma StepInv(cfg: Config, s: State, a: Action)
    requires SafeConfig(cfg) && Inv(cfg, s) && Enabled(cfg, s, a)
    ensures Inv(cfg, Apply(cfg, s, a))
  {
  }

  lemma {:induction false} RunInv(cfg: Config, log: seq<Action>)
    requires SafeConfig(cfg) && IsRun(cfg, log)
    ensures Inv(cfg, After(cfg, log))
    decreases |log|
  {
    if log != [] {
      RunInv(cfg, log[..|log| - 1]);
      StepInv(cfg, After(cfg, log[..|log| - 1]), log[|log| - 1]);
    }
  }

  /** In a safe configuration every run is mutually exclusive, and a release deletes the releaser's own record. */
  lemma MutualExclusion(cfg: Config, log: seq<Action>)
    requires SafeConfig(cfg) && IsRun(cfg, log)
    ensures Exclusive(After(cfg, log))
    ensures forall t :: t in After(cfg, log).holders ==> Owns(After(cfg, log), t)
  {
    RunInv(cfg, log);
    var s := After(cfg, log);
    forall t, u | t in s.holders && u in s.holders && t != u
      ensures s.holders[t].identifier != s.holders[u].identifier
    {
      assert Owns(s, t) && Owns(s, u);
    }
  }

  /** Two acquisitions in a row without a release in between. */
  lemma Overtake(cfg: Config, o: Option<nat>, waited: nat, middle: seq<Action>)
    requires o in cfg.steals && waited <= cfg.maxHold
    requires middle == [Tick(waited)] || middle == [Tick(waited), Reap]
    requires middle == [Tick(waited)] ==> Stealable(waited, 0, o)
    requires middle == [Tick(waited), Reap] ==> waited > CUT_OFF
    ensures IsRun(cfg, [Try("k", o)] + middle + [Try("k", o)])
    ensures !Exclusive(After(cfg, [Try("k", o)] + middle + [Try("k", o)]))
  {
    var l1, l2 := [Try("k", o)], [Try("k", o), Tick(waited)];
    assert IsRun(cfg, []);
    RunExtend(cfg, [], Try("k", o));
    assert [] + l1 == l1;
    var s1 := After(cfg, l1);
    assert s1.holders == map[0 := Hold("k", 0)] && s1.locks == map["k" := 0];
    RunExtend(cfg, l1, Tick(waited));
    assert l1 + [Tick(waited)] == l2;
    var l3 := if |middle| == 1 then l2 else l2 + [Reap];
    if |middle| == 2 {
      RunExtend(cfg, l2, Reap);
      assert "k" !in After(cfg, l3).locks;
    }
    assert l1 + middle == l3;
    RunExtend(cfg, l3, Try("k", o));
    var s := After(cfg, l3 + [Try("k", o)]);
    assert 0 in s.holders && 1 in s.holders && s.holders[0].identifier == s.holders[1].identifier;
  }

  /** Where a configuration is unsafe, some run has two processes inside for one identifier. */
  lemma UnsafeRun(cfg: Config) returns (log: seq<Action>)
    requires !SafeConfig(cfg) && cfg.steals != {}
    ensures IsRun(cfg, log) && !Exclusive(After(cfg, log))
  {
    if cfg.maxHold > CUT_OFF {
      var o :| o in cfg.steals;
      var middle := [Tick(CUT_OFF + 1), Reap];
      Overtake(cfg, o, CUT_OFF + 1, middle);
      log := [Try("k", o)] + middle + [Try("k", o)];
    } else {
      var o :| o in cfg.steals && o.Some? && o.value != 0 && cfg.maxHold > o.value * 1000;
      var middle := [Tick(o.value * 1000 + 1)];
      Overtake(cfg, o, o.value * 1000 + 1, middle);
      log := [Try("k", o)] + middle + [Try("k", o)];
    }
  }

  /** Mutual exclusion holds in every run exactly when steal times and the reaper leave a section its time. */
  lemma ExclusiveIffSafe(cfg: Config)
    requires cfg.steals != {}
    ensures SafeConfig(cfg) <==> forall log :: IsRun(cfg, log) ==> Exclusive(After(cfg, log))
  {
    if SafeConfig(cfg) {
      forall log | IsRun(cfg, log) ensures Exclusive(After(cfg, log)) { MutualExclusion(cfg, log); }
    } else {
      var log := UnsafeRun(cfg);
    }
  }

  /** As for sections that steal nothing: they are safe if and only if they take at most ten minutes. */
  lemma TenMinutes(hold: nat)
    ensures SafeConfig(Config(hold, {None})) <==> hold <= 600_000_000
  {
  }

  /** A crashed holder leaves its record behind: others have to steal it, or wait for the reaper. */
  lemma CrashBlocks(cfg: Config, log: seq<Action>, t: nat, stealAfter: Option<nat>)
    requires SafeConfig(cfg) && IsRun(cfg, log) && t in After(cfg, log).holders
    ensures var s := After(cfg, log);
            var s', hold := Apply(cfg, s, Crash(t)), s.holders[t];
            && hold.identifier in s'.locks
            && (Obtains(s', hold.identifier, stealAfter) <==> Stealable(s'.now, hold.stamp, stealAfter))
            && (Obtains(Apply(cfg, s', Reap), hold.identifier, None) <==> s'.now - hold.stamp > CUT_OFF)
  {
    RunInv(cfg, log);
    assert Owns(After(cfg, log), t);
  }

  // ----------------------------------------------------------------- the code

  datatype Outcome = Got(token: nat) | Denied | StillWaiting

  lemma {:induction false} PrefixIsRun(cfg: Config, log: seq<Action>, p: nat)
    requires IsRun(cfg, log) && p <= |log|
    ensures IsRun(cfg, log[..p])
    decreases |log|
  {
    if p < |log| {
      PrefixIsRun(cfg, log[..|log| - 1], p);
      assert log[..|log| - 1][..p] == log[..p];
    } else {
      assert log[..p] == log;
    }
  }

  /** The state before the p-th step. */
  ghost function StateAt(cfg: Config, log: seq<Action>, p: nat): State
    requires IsRun(cfg, log) && p <= |log|
  {
    PrefixIsRun(cfg, log, p);
    After(cfg, log[..p])
  }

  /** The arguments of acquire; `aborts` says which attempts end in a TransactionFailedError. */
  datatype Request = Request(identifier: string, stealAfter: Option<nat>, maxWait: Option<nat>, aborts: nat -> bool)

  /** Attempt k is made before the p-th step: it is that step, unless it aborts, and whether it succeeds. */
  ghost predicate AttemptedAt(cfg: Config, log: seq<Action>, r: Request, k: nat, p: nat, success: bool)
    requires IsRun(cfg, log)
  {
    && p <= |log|
    && (!r.aborts(k) ==> p < |log| && log[p] == Try(r.identifier, r.stealAfter))
    && (success <==> !r.aborts(k) && Obtains(StateAt(cfg, log, p), r.identifier, r.stealAfter))
  }

  /** Before the p-th step no more than the maximum wait had passed. */
  ghost predicate InTime(cfg: Config, log: seq<Action>, r: Request, startTime: int, p: nat)
    requires IsRun(cfg, log)
  {
    p <= |log| && (r.maxWait.Some? ==> StateAt(cfg, log, p).now - startTime <= r.maxWait.value * 1000)
  }

  /** Where the log goes on after attempt k. */
  function Behind(r: Request, at: seq<nat>, k: nat): nat
    requires k < |at|
  {
    at[k] + if r.aborts(k) then 0 else 1
  }

  /** Attempts were made at these positions: all but the last failed while there was time, and nothing came later. */
  ghost predicate Tried(cfg: Config, log: seq<Action>, r: Request, startTime: int, at: seq<nat>, success: bool)
    requires IsRun(cfg, log)
  {
    && |at| >= 1 && |log| == Behind(r, at, |at| - 1)
    && (forall k :: 0 <= k < |at| ==> AttemptedAt(cfg, log, r, k, at[k], success && k == |at| - 1))
    && forall k :: 0 <= k < |at| - 1
                   ==> Behind(r, at, k) <= at[k + 1] && InTime(cfg, log, r, startTime, Behind(r, at, k))
  }

  lemma StateStays(cfg: Config, log: seq<Action>, log': seq<Action>, p: nat)
    requires IsRun(cfg, log) && IsRun(cfg, log') && log <= log' && p <= |log|
    ensures StateAt(cfg, log', p) == StateAt(cfg, log, p)
    ensures p < |log| ==> log'[p] == log[p]
  {
    assert log'[..p] == log[..p];
  }

  lemma TriedFirst(cfg: Config, log: seq<Action>, log': seq<Action>, r: Request, startTime: int, success: bool)
    requires IsRun(cfg, log) && IsRun(cfg, log')
    requires log' == if r.aborts(0) then log else log + [Try(r.identifier, r.stealAfter)]
    requires success <==> !r.aborts(0) && Obtains(After(cfg, log), r.identifier, r.stealAfter)
    ensures Tried(cfg, log', r, startTime, [|log|], success)
  {
    hide IsRun, After;
    assert log'[..|log|] == log;
  }

  /** Others ran after a failure, and then another attempt was made. */
  lemma TriedAgain(cfg: Config, log: seq<Action>, middle: seq<Action>, log': seq<Action>, r: Request, startTime: int,
                   at: seq<nat>, success: bool)
    requires IsRun(cfg, log) && IsRun(cfg, middle) && IsRun(cfg, log') && log <= middle
    requires Tried(cfg, log, r, startTime, at, false) && InTime(cfg, log, r, startTime, |log|)
    requires log' == if r.aborts(|at|) then middle else middle + [Try(r.identifier, r.stealAfter)]
    requires success <==> !r.aborts(|at|) && Obtains(After(cfg, middle), r.identifier, r.stealAfter)
    ensures Tried(cfg, log', r, startTime, at + [|middle|], success)
  {
    var at' := at + [|middle|];
    hide IsRun, After, StateAt, Obtains, InTime;
    forall k | 0 <= k < |at'| ensures AttemptedAt(cfg, log', r, k, at'[k], success && k == |at'| - 1) {
      if k < |at| {
        StaysAttempted(cfg, log, log', r, k, at[k], false);
      } else {
        NowAt(cfg, middle, log');
      }
    }
    forall k | 0 <= k < |at'| - 1
      ensures Behind(r, at', k) <= at'[k + 1] && InTime(cfg, log', r, startTime, Behind(r, at', k))
    {
      assert Behind(r, at', k) == Behind(r, at, k);
      StaysInTime(cfg, log, log', r, startTime, Behind(r, at, k));
    }
  }

  lemma StaysInTime(cfg: Config, log: seq<Action>, log': seq<Action>, r: Request, startTime: int, p: nat)
    requires IsRun(cfg, log) && IsRun(cfg, log') && log <= log' && InTime(cfg, log, r, startTime, p)
    ensures InTime(cfg, log', r, startTime, p)
  {
    hide IsRun, After, StateAt;
    StateStays(cfg, log, log', p);
  }

  lemma StaysAttempted(cfg: Config, log: seq<Action>, log': seq<Action>, r: Request, k: nat, p: nat, success: bool)
    requires IsRun(cfg, log) && IsRun(cfg, log') && log <= log' && AttemptedAt(cfg, log, r, k, p, success)
    ensures AttemptedAt(cfg, log', r, k, p, success)
  {
    hide IsRun, After, StateAt, Obtains;
    StateStays(cfg, log, log', p);
  }

  lemma NowAt(cfg: Config, log: seq<Action>, log': seq<Action>)
    requires IsRun(cfg, log) && IsRun(cfg, log') && log <= log'
    ensures StateAt(cfg, log', |log|) == After(cfg, log)
  {
    assert log'[..|log|] == log;
  }

  class LockTable {
    const cfg: Config
    var now: int
    var locks: map<string, int>
    var nextToken: nat
    ghost var owners: map<string, nat>
    ghost var holders: map<nat, Hold>
    ghost var log: seq<Action>

    ghost function Abs(): State
      reads this
    {
      State(now, locks, owners, holders, nextToken)
    }

    ghost predicate Valid()
      reads this
    {
      IsRun(cfg, log) && Abs() == After(cfg, log)
    }

    constructor (cfg: Config)
      ensures Valid() && this.cfg == cfg && Abs() == INITIAL
    {
      this.cfg := cfg;
      now, locks, nextToken := 0, map[], 0;
      owners, holders, log := map[], map[], [];
    }

    /** Time passes and other processes take any number of steps, but none ends the sections in `mine`. */
    method Others(ghost mine: set<nat>)
      requires Valid()
      modifies this
      ensures Valid() && old(log) <= log
      ensures forall t :: t in mine && t in old(holders) ==> t in holders && holders[t] == old(holders[t])
    {
    }

    ghost method Record(a: Action, was: State)
      requires IsRun(cfg, log) && was == After(cfg, log) && Enabled(cfg, was, a) && Abs() == Apply(cfg, was, a)
      modifies this`log
      ensures Valid() && log == old(log) + [a]
    {
      RunExtend(cfg, log, a);
      log := log + [a];
    }

    /** The transaction inside acquire; `aborts` is a TransactionFailedError. */
    method Trans(identifier: string, stealAfter: Option<nat>, aborts: bool) returns (lock: Option<nat>)
      requires Valid() && stealAfter in cfg.steals
      modifies this
      ensures Valid() && now == old(now)
      ensures lock.Some? <==> !aborts && Obtains(old(Abs()), identifier, stealAfter)
      ensures Abs() == if aborts then old(Abs()) else Apply(cfg, old(Abs()), Try(identifier, stealAfter))
      ensures log == if aborts then old(log) else old(log) + [Try(identifier, stealAfter)]
      ensures lock.Some? ==> lock == Some(old(nextToken))
    {
      if aborts {
        return None;
      }
      ghost var was := Abs();
      if identifier in locks && !(stealAfter.Some? && stealAfter.value != 0
                                  && now - locks[identifier] > stealAfter.value * 1000) {
        lock := None;
      } else {
        lock := Some(nextToken);
        locks := locks[identifier := now];
        owners := owners[identifier := nextToken];
        holders := holders[nextToken := Hold(identifier, now)];
        nextToken := nextToken + 1;
      }
      Record(Try(identifier, stealAfter), was);
    }

    /** One turn of the waiting loop: a sleep, during which others run, and another attempt. */
    method TryAgain(r: Request, attempts: nat, ghost startTime: int, ghost at: seq<nat>)
      returns (lock: Option<nat>, ghost at': seq<nat>)
      requires Valid() && r.stealAfter in cfg.steals && |at| == attempts >= 1
      requires Tried(cfg, log, r, startTime, at, false) && InTime(cfg, log, r, startTime, |log|)
      modifies this
      ensures Valid() && old(log) <= log && |at'| == |at| + 1 && at'[0] == at[0]
      ensures Tried(cfg, log, r, startTime, at', lock.Some?)
      ensures lock.Some? ==> lock.value in holders && holders[lock.value] == Hold(r.identifier, now)
                             && Owns(Abs(), lock.value)
    {
      hide Tried, StateAt, IsRun, After;
      ghost var before := log;
      Others({});
      ghost var middle := log;
      lock := Trans(r.identifier, r.stealAfter, r.aborts(attempts));
      TriedAgain(cfg, before, middle, log, r, startTime, at, lock.Some?);
      at' := at + [|middle|];
    }

    /**
     LockQuerySet.acquire, followed for at most `naps` sleeps: attempts at the positions `at` of the log, of which the
     first that can succeeds. A lock that is handed out is held by a fresh acquisition stamped now.
     */
    method Acquire(r: Request, wait: bool, naps: nat)
      returns (outcome: Outcome, attempts: nat, startTime: int, ghost at: seq<nat>)
      requires Valid() && r.stealAfter in cfg.steals
      modifies this
      ensures Valid() && startTime == old(now) && old(log) <= log
      ensures 1 <= attempts == |at| <= naps + 1 && at[0] == |old(log)| && (!wait ==> attempts == 1)
      ensures Tried(cfg, log, r, startTime, at, outcome.Got?)
      ensures match outcome
              case Got(token) => token in holders && holders[token] == Hold(r.identifier, now) && Owns(Abs(), token)
              case Denied => !wait || !InTime(cfg, log, r, startTime, |log|)
              case StillWaiting => wait && attempts == naps + 1 && InTime(cfg, log, r, startTime, |log|)
    {
      hide Tried, StateAt, IsRun, After;
      startTime := now;
      attempts := 1;
      at := [|log|];
      var lock := Trans(r.identifier, r.stealAfter, r.aborts(0));
      TriedFirst(cfg, old(log), log, r, startTime, lock.Some?);
      while wait && lock.None? && attempts <= naps
        invariant Valid() && old(log) <= log && (!wait ==> attempts == 1)
        invariant 1 <= attempts == |at| <= naps + 1 && at[0] == |old(log)|
        invariant Tried(cfg, log, r, startTime, at, lock.Some?)
        invariant lock.Some? ==> lock.value in holders && holders[lock.value] == Hold(r.identifier, now)
                                 && Owns(Abs(), lock.value)
        decreases naps + 1 - attempts
      {
        NowAt(cfg, log, log);
        if r.maxWait.Some? && now - startTime > r.maxWait.value * 1000 {
          return Denied, attempts, startTime, at;
        }
        lock, at := TryAgain(r, attempts, startTime, at);
        attempts := attempts + 1;
      }
      NowAt(cfg, log, log);
      outcome := if lock.Some? then Got(lock.value)
                 else if wait && !(r.maxWait.Some? && now - startTime > r.maxWait.value * 1000) then StillWaiting
                 else Denied;
    }

    /** DatastoreLock.release at the end of a section: it deletes by key, and in a safe configuration that
        record is the one this section wrote. */
    method Release(token: nat, identifier: string)
      requires Valid() && token in holders && holders[token].identifier == identifier
      modifies this
      ensures Valid() && holders == old(holders) - {token}
      ensures SafeConfig(cfg) ==> old(Owns(Abs(), token))
      ensures locks == old(locks) - {identifier}
    {
      if SafeConfig(cfg) { MutualExclusion(cfg, log); }
      ghost var was := Abs();
      locks := locks - {identifier};
      owners := owners - {identifier};
      holders := holders - {token};
      Record(Action.Release(token), was);
    }

    /** cleanup_locks_task: removes exactly the records stamped before the cut-off; in a safe configuration
        none of them is in use. */
    method Cleanup()
      requires Valid()
      modifies this
      ensures Valid() && holders == old(holders)
      ensures forall i :: i in locks <==> i in old(locks) && old(locks)[i] >= now - CUT_OFF
      ensures forall i :: i in locks ==> locks[i] == old(locks)[i]
      ensures SafeConfig(cfg) ==> forall t :: t in holders ==> holders[t].identifier in locks
    {
      ghost var was := Abs();
      var stale := set i | i in locks && locks[i] < now - CUT_OFF;
      locks := locks - stale;
      owners := owners - stale;
      Record(Reap, was);
      if SafeConfig(cfg) { MutualExclusion(cfg, log); }
    }
  }
}
