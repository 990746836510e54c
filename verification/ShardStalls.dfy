/** What goes wrong with a shard that has key 0 behind another key. */
module ShardStalls {
  import opened Common
  import opened KeyRanges
  import opened Sharding
  import opened ShardSafety
  import opened ShardResume
  import opened ShardCalls
  import opened ShardProgress

  // ------------------------------------------------- when it does not terminate

  /** The run has been continued without faults, failures and crashes, and with n completions in shard i. */
  predicate Cleanly(job: Job, s: State, log: seq<Action>, more: seq<Action>, i: nat, n: nat)
    requires IsRun(job, s, log)
  {
    && IsRun(job, s, more) && |more| >= |log| + n
    && FaultsIn(job, s, more) == FaultsIn(job, s, log)
    && FailuresIn(InShard(i), job, s, more) == FailuresIn(InShard(i), job, s, log)
    && CallsIn(InShard(i), job, s, more) == CallsIn(InShard(i), job, s, log) + n
    && (NoCrash(log) ==> NoCrash(more))
  }

  lemma ExtendCleanly(job: Job, s: State, log: seq<Action>, a: Action, i: nat)
    requires IsRun(job, s, log) && Enabled(job, After(job, s, log), a) && !Faulty(After(job, s, log), a)
    ensures Completions(InShard(i), job, After(job, s, log), a) <= 1
    ensures IsRun(job, s, log + [a])
    ensures Cleanly(job, s, log, log + [a], i, Completions(InShard(i), job, After(job, s, log), a))
    ensures After(job, s, log + [a]) == Apply(job, After(job, s, log), a)
  {
    hide Enabled, Apply, Todo;
    RunExtend(job, s, log, a);
    assert (log + [a])[..|log|] == log;
    ShardCompletions(job, After(job, s, log), a, i);
  }

  lemma ShardCompletions(job: Job, s: State, a: Action, i: nat)
    ensures Completions(InShard(i), job, s, a)
            == if a.Callback? && IsIterating(job, s, a.id) && s.tasks[a.id].task.shard == i then 1 else 0
  {
    hide Todo;
    if a.Callback? && IsIterating(job, s, a.id) {
      MatchingShard(i, s.tasks[a.id].task.shard, [Todo(job, s.tasks[a.id].task)[s.tasks[a.id].done]]);
    }
  }

  lemma CleanlyOn(job: Job, s: State, log: seq<Action>, mid: seq<Action>, more: seq<Action>, i: nat, m: nat, n: nat)
    requires IsRun(job, s, log) && Cleanly(job, s, log, mid, i, m) && Cleanly(job, s, mid, more, i, n)
    ensures Cleanly(job, s, log, more, i, m + n)
  {
  }

  /** The run has led to a ready marker and this state of task id. */
  predicate At(job: Job, s: State, log: seq<Action>, id: nat, t: TaskState) {
    && IsRun(job, s, log) && Ready(After(job, s, log))
    && id < |After(job, s, log).tasks| && After(job, s, log).tasks[id] == t
  }

  lemma {:induction false} RunCallbacks(job: Job, s: State, log: seq<Action>, id: nat, t: Task, n: nat)
    returns (more: seq<Action>)
    requires At(job, s, log, id, Running(t, 0)) && n <= |Todo(job, t)|
    ensures At(job, s, more, id, Running(t, n)) && Cleanly(job, s, log, more, t.shard, n)
  {
    more := log;
    if n > 0 {
      more := RunCallbacks(job, s, log, id, t, n - 1);
      CallbackAt(job, s, more, id, t, n - 1);
      CleanlyOn(job, s, log, more, more + [Callback(id)], t.shard, n - 1, 1);
      more := more + [Callback(id)];
    }
  }

  lemma CallbackAt(job: Job, s: State, log: seq<Action>, id: nat, t: Task, j: nat)
    requires At(job, s, log, id, Running(t, j)) && j < |Todo(job, t)|
    ensures At(job, s, log + [Callback(id)], id, Running(t, j + 1))
    ensures Cleanly(job, s, log, log + [Callback(id)], t.shard, 1)
  {
    hide Todo, IsRun, After, Cleanly;
    ExtendCleanly(job, s, log, Callback(id), t.shard);
    ShardCompletions(job, After(job, s, log), Callback(id), t.shard);
  }

  lemma StartAt(job: Job, s: State, log: seq<Action>, id: nat, t: Task)
    requires At(job, s, log, id, Queued(t))
    ensures At(job, s, log + [Start(id)], id, Running(t, 0))
    ensures Cleanly(job, s, log, log + [Start(id)], t.shard, 0)
  {
    hide Todo, IsRun, After, Cleanly;
    ExtendCleanly(job, s, log, Start(id), t.shard);
  }

  lemma TimeoutAt(job: Job, s: State, log: seq<Action>, id: nat, t: Task, j: nat)
    requires At(job, s, log, id, Running(t, j)) && 0 < j < |Todo(job, t)| && Todo(job, t)[j] == 0
    ensures At(job, s, log + [Timeout(id)], |After(job, s, log).tasks|, Queued(t))
    ensures Cleanly(job, s, log, log + [Timeout(id)], t.shard, 0)
  {
    hide Todo, IsRun, After, Cleanly;
    ExtendCleanly(job, s, log, Timeout(id), t.shard);
  }

  /** Start, the callbacks before key 0, and the timeout there: the task is back as it was. */
  lemma StallOnce(job: Job, s: State, log: seq<Action>, id: nat, t: Task, j: nat)
    returns (more: seq<Action>, next: nat)
    requires At(job, s, log, id, Queued(t)) && 0 < j < |Todo(job, t)| && Todo(job, t)[j] == 0
    ensures At(job, s, more, next, Queued(t)) && Cleanly(job, s, log, more, t.shard, j)
  {
    hide Todo, Cleanly;
    StartAt(job, s, log, id, t);
    var started := log + [Start(id)];
    var called := RunCallbacks(job, s, started, id, t, j);
    CleanlyOn(job, s, log, started, called, t.shard, 0, j);
    TimeoutAt(job, s, called, id, t, j);
    next, more := |After(job, s, called).tasks|, called + [Timeout(id)];
    CleanlyOn(job, s, log, called, more, t.shard, j, 0);
  }

  lemma {:induction false} StallOnAndOn(job: Job, s: State, log: seq<Action>, id: nat, t: Task, j: nat, rounds: nat)
    returns (more: seq<Action>, calls: nat)
    requires At(job, s, log, id, Queued(t)) && 0 < j < |Todo(job, t)| && Todo(job, t)[j] == 0
    ensures calls >= rounds && Cleanly(job, s, log, more, t.shard, calls)
    ensures exists last :: At(job, s, more, last, Queued(t))
  {
    assert IsRun(job, s, log);
    hide Todo, At, IsRun;
    if rounds == 0 {
      more, calls := log, 0;
      StartsCleanly(job, s, log, t.shard);
    } else {
      var most;
      most, calls := StallOnAndOn(job, s, log, id, t, j, rounds - 1);
      var last :| At(job, s, most, last, Queued(t));
      var next;
      more, next := StallOnce(job, s, most, last, t, j);
      CleanlyOn(job, s, log, most, more, t.shard, calls, j);
      calls := calls + j;
    }
  }

  lemma StartsCleanly(job: Job, s: State, log: seq<Action>, i: nat)
    requires IsRun(job, s, log)
    ensures Cleanly(job, s, log, log, i, 0)
  {
  }

  /** Runs with at most one fault end within so many steps. */
  ghost predicate EndsWithin(job: Job, s: State, bound: nat) {
    forall log :: IsRun(job, s, log) && FaultsIn(job, s, log) <= 1 ==> |log| <= bound
  }

  lemma StallNeverEnds(job: Job, s: State, bound: nat)
    requires Ready(s) && !NoStall(job, s)
    ensures !EndsWithin(job, s, bound)
  {
    var id :| 0 <= id < |s.tasks| && !s.tasks[id].Gone? && !ZeroLeads(job, s.tasks[id].task);
    var t := s.tasks[id].task;
    var j :| 0 < j < |Todo(job, t)| && Todo(job, t)[j] == 0;
    var log := BackInQueue(job, s, id);
    hide Todo, At;
    var more, calls := StallOnAndOn(job, s, log, id, t, j, bound + 1);
  }

  /** At most one crash puts a live task back into the queue. */
  lemma BackInQueue(job: Job, s: State, id: nat) returns (log: seq<Action>)
    requires Ready(s) && id < |s.tasks| && !s.tasks[id].Gone?
    ensures At(job, s, log, id, Queued(s.tasks[id].task)) && FaultsIn(job, s, log) <= 1
  {
    log := [];
    assert IsRun(job, s, log) && FaultsIn(job, s, log) == 0;
    if s.tasks[id].Running? {
      RunExtend(job, s, [], Crash(id));
      log := [] + [Crash(id)];
      assert log[..0] == [];
    }
  }

  lemma EndsWithoutStall(job: Job, s: State)
    requires WfJob(job) && Inv(job, s) && Ready(s) && NoStall(job, s)
    ensures EndsWithin(job, s, Energy(job, s) + Setback(job) + 1)
  {
    assert Allowance(job, 0) == 0 && Allowance(job, 1) == Setback(job) + 1;
    assert Settled(job, s);
    hide Inv, NoStall, Settled, Energy, Setback, Allowance, IsRun;
    forall log | IsRun(job, s, log) && FaultsIn(job, s, log) <= 1
      ensures |log| <= Energy(job, s) + Setback(job) + 1
    {
      RunEnergy(job, s, log);
      assert FaultsIn(job, s, log) == 0 || FaultsIn(job, s, log) == 1;
    }
  }

  /**
   From readiness on, the runs with at most one fault are bounded in length exactly when no task stalls: no
   query has key 0 anywhere but first.
   */
  lemma TerminatesIffNoStall(job: Job, s: State)
    requires WfJob(job) && Inv(job, s) && Ready(s)
    ensures NoStall(job, s) <==> exists bound: nat :: EndsWithin(job, s, bound)
  {
    hide NoStall, EndsWithin, Inv;
    if NoStall(job, s) {
      EndsWithoutStall(job, s);
    } else {
      forall bound: nat ensures !EndsWithin(job, s, bound) { StallNeverEnds(job, s, bound); }
    }
  }

  /** All shards made in one go. */
  function Creation(n: nat): seq<Action> {
    if n == 0 then [] else Creation(n - 1) + [MakeShard]
  }

  /** The first n shards have been made and nothing else has happened. */
  predicate FreshShards(job: Job, s: State, n: nat) {
    && s.created == n == |s.tasks| && s.generator.Active? && s.marker.Some?
    && (n == |job.ranges| > 0 ==> Ready(s))
    && forall i :: 0 <= i < n ==> s.tasks[i] == Queued(Task(i, None))
  }

  lemma FreshShardsNext(job: Job, s: State, n: nat)
    requires FreshShards(job, s, n) && n < |job.ranges|
    ensures Enabled(job, s, MakeShard) && FreshShards(job, Apply(job, s, MakeShard), n + 1)
  {
  }

  lemma {:induction false} Created(job: Job, deleteMarker: bool, n: nat)
    requires n <= |job.ranges|
    ensures IsRun(job, Initial(deleteMarker), Creation(n))
    ensures FreshShards(job, After(job, Initial(deleteMarker), Creation(n)), n)
  {
    if n > 0 {
      hide FreshShards, IsRun, After, Enabled, Apply;
      Created(job, deleteMarker, n - 1);
      FreshShardsNext(job, After(job, Initial(deleteMarker), Creation(n - 1)), n - 1);
      RunExtend(job, Initial(deleteMarker), Creation(n - 1), MakeShard);
    }
  }

  /** Seen from the creation of the shards: the iteration terminates exactly when no shard stalls. */
  lemma JobTerminatesIff(job: Job, deleteMarker: bool)
    requires WfJob(job) && job.ranges != []
    ensures IsRun(job, Initial(deleteMarker), Creation(|job.ranges|))
    ensures NoShardStalls(job)
            <==> exists bound: nat :: EndsWithin(job, After(job, Initial(deleteMarker), Creation(|job.ranges|)), bound)
  {
    Created(job, deleteMarker, |job.ranges|);
    RunInv(job, deleteMarker, Creation(|job.ranges|));
    var s := After(job, Initial(deleteMarker), Creation(|job.ranges|));
    TerminatesIffNoStall(job, s);
    hide ZeroLeads, Inv, IsRun, EndsWithin;
    assert forall i :: 0 <= i < |job.ranges| ==> s.tasks[i].task == Task(i, None);
  }

  // -------------------------------------------------- when callbacks are not bounded

  lemma {:induction false} CreationHasNoFailures(job: Job, deleteMarker: bool, n: nat, i: nat)
    requires IsRun(job, Initial(deleteMarker), Creation(n))
    ensures FailuresIn(InShard(i), job, Initial(deleteMarker), Creation(n)) == 0 && NoCrash(Creation(n))
  {
    hide Enabled, Apply;
    if n > 0 {
      assert Creation(n)[..|Creation(n - 1)|] == Creation(n - 1);
      CreationHasNoFailures(job, deleteMarker, n - 1, i);
    }
  }

  /** A shard with key 0 behind another key has runs without any failure that call it more and more often. */
  lemma StalledShardIsUnbounded(job: Job, deleteMarker: bool, i: nat) returns (log: seq<Action>)
    requires i < |job.ranges| && !ZeroLeads(job, Task(i, None))
    ensures IsRun(job, Initial(deleteMarker), log) && NoCrash(log) && !Bounded(job, deleteMarker, log, i)
  {
    var j :| 0 < j < |Todo(job, Task(i, None))| && Todo(job, Task(i, None))[j] == 0;
    var s, n := Initial(deleteMarker), |job.ranges|;
    Created(job, deleteMarker, n);
    CreationHasNoFailures(job, deleteMarker, n, i);
    hide Creation, IsRun, After, Todo, Select;
    var calls;
    log, calls := StallOnAndOn(job, s, Creation(n), i, Task(i, None), j, |Select(job.pks, job.ranges[i], None)| + 1);
  }

  /**
   In every run without hard crashes every shard is called at most once per key and per failure, if and only if
   no shard has key 0 anywhere but first.
   */
  lemma ShardBoundIff(job: Job, deleteMarker: bool)
    requires WfJob(job)
    ensures NoShardStalls(job)
            <==> forall log, i :: IsRun(job, Initial(deleteMarker), log) && NoCrash(log) && 0 <= i < |job.ranges|
                                  ==> Bounded(job, deleteMarker, log, i)
  {
    hide ZeroLeads, Bounded, IsRun;
    if NoShardStalls(job) {
      forall log, i | IsRun(job, Initial(deleteMarker), log) && NoCrash(log) && 0 <= i < |job.ranges|
        ensures Bounded(job, deleteMarker, log, i)
      {
        CrashFreeBound(job, deleteMarker, log, i);
      }
    } else {
      var i :| 0 <= i < |job.ranges| && !ZeroLeads(job, Task(i, None));
      var log := StalledShardIsUnbounded(job, deleteMarker, i);
    }
  }

  /** The keys -1 and 0 in one shard: neither the length of the runs nor the number of calls has a bound. */
  lemma MinusOneAndZero(deleteMarker: bool)
    ensures var job := Job([-1, 0], [Range(None, None)]);
            && IsRun(job, Initial(deleteMarker), Creation(1))
            && (forall bound: nat :: !EndsWithin(job, After(job, Initial(deleteMarker), Creation(1)), bound))
            && exists log :: IsRun(job, Initial(deleteMarker), log) && NoCrash(log)
                             && !Bounded(job, deleteMarker, log, 0)
  {
    var job := Job([-1, 0], [Range(None, None)]);
    assert MeetsZero(job, 0, -1);
    NoShardStallsIff(job);
    JobTerminatesIff(job, deleteMarker);
    ZeroLeadsIff(job, 0);
    var log := StalledShardIsUnbounded(job, deleteMarker, 0);
  }
}
