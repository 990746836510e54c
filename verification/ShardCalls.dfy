/** How often callbacks run: exactly, by shard and by key, at every point of every run. */
module ShardCalls {
  import opened Common
  import opened KeyRanges
  import opened Sharding
  import opened ShardSafety
  import opened ShardResume

  // ---------------------------------------------------------------- counting

  const EVERYWHERE := Scope(None, None)

  function InShard(i: nat): Scope {
    Scope(Some(i), None)
  }

  function OnKey(k: int): Scope {
    Scope(None, Some(k))
  }

  /** The completions of a step. */
  function Completions(of: Scope, job: Job, s: State, a: Action): nat {
    if a.Callback? && IsIterating(job, s, a.id) then
      var t := s.tasks[a.id];
      Matching(of, t.task.shard, [Todo(job, t.task)[t.done]])
    else 0
  }

  /** The completions a step makes worthless: their keys will be called again. */
  function Repeats(of: Scope, job: Job, s: State, a: Action): nat {
    if (a.LateError? || a.Crash?) && IsRunning(s, a.id)
       && s.tasks[a.id].done <= |Todo(job, s.tasks[a.id].task)| then
      var t := s.tasks[a.id];
      Matching(of, t.task.shard, Todo(job, t.task)[Back(a, t.done)..t.done])
    else 0
  }

  /** Exceptions of a task of the scope's shard, other than timeouts. */
  function Failures(of: Scope, s: State, a: Action): nat {
    if (a.LateError? || a.CallbackError?) && IsRunning(s, a.id)
       && (of.shard.None? || of.shard.value == s.tasks[a.id].task.shard) then 1 else 0
  }

  function CallsIn(of: Scope, job: Job, s: State, log: seq<Action>): nat
    requires IsRun(job, s, log)
    decreases |log|
  {
    if log == [] then 0
    else
      var front := log[..|log| - 1];
      CallsIn(of, job, s, front) + Completions(of, job, After(job, s, front), log[|log| - 1])
  }

  function RepeatsIn(of: Scope, job: Job, s: State, log: seq<Action>): nat
    requires IsRun(job, s, log)
    decreases |log|
  {
    if log == [] then 0
    else
      var front := log[..|log| - 1];
      RepeatsIn(of, job, s, front) + Repeats(of, job, After(job, s, front), log[|log| - 1])
  }

  function FailuresIn(of: Scope, job: Job, s: State, log: seq<Action>): nat
    requires IsRun(job, s, log)
    decreases |log|
  {
    if log == [] then 0
    else
      var front := log[..|log| - 1];
      FailuresIn(of, job, s, front) + Failures(of, After(job, s, front), log[|log| - 1])
  }

  /** The keys of the shards. */
  function KeysOf(of: Scope, pks: seq<int>, ranges: seq<Range>): nat {
    if ranges == [] then 0
    else
      var n := |ranges| - 1;
      KeysOf(of, pks, ranges[..n]) + Matching(of, n, Select(pks, ranges[n], None))
  }

  // ------------------------------------------------------------- conservation

  /** Completions so far plus keys still to do equal the created shards' keys plus the repeats. */
  predicate Balanced(of: Scope, job: Job, s: State, calls: nat, repeats: nat)
    requires s.created <= |job.ranges|
  {
    calls + Tally(KeysLeft(of), job, s.tasks) == KeysOf(of, job.pks, job.ranges[..s.created]) + repeats
  }

  lemma StepBalanced(of: Scope, job: Job, s: State, a: Action, calls: nat, repeats: nat)
    requires WfJob(job) && NoStall(job, s) && Inv(job, s) && Enabled(job, s, a) && Balanced(of, job, s, calls, repeats)
    requires !s.generator.GaveUp? && !a.GiveUp?
    ensures Apply(job, s, a).created <= |job.ranges|
    ensures Balanced(of, job, Apply(job, s, a), calls + Completions(of, job, s, a), repeats + Repeats(of, job, s, a))
  {
    assert s.created <= |job.ranges|;
    hide Inv, NoStall, Todo, KeysOf, Matching;
    if a.MakeShard? {
      MakeShardBalanced(of, job, s, calls, repeats);
    } else if EndsEarly(a) {
      EndBalanced(of, job, s, a);
    } else if !a.GeneratorCrash? {
      AdvanceBalanced(of, job, s, a);
    } else {
      assert Apply(job, s, a) == s.(generator := Crashed);
    }
  }

  lemma MakeShardBalanced(of: Scope, job: Job, s: State, calls: nat, repeats: nat)
    requires Enabled(job, s, MakeShard) && Balanced(of, job, s, calls, repeats)
    ensures Balanced(of, job, Apply(job, s, MakeShard), calls, repeats)
  {
    hide Matching, Select, Tally;
    TallyAppend(KeysLeft(of), job, s.tasks, Queued(Task(s.created, None)));
    assert job.ranges[..s.created + 1][..s.created] == job.ranges[..s.created];
  }

  lemma StartKeepsLeft(of: Scope, job: Job, t: Task)
    ensures Weight(KeysLeft(of), job, Running(t, 0)) == Weight(KeysLeft(of), job, Queued(t))
  {
    hide Todo, Matching;
    assert Todo(job, t)[0..] == Todo(job, t);
  }

  lemma CallbackTakesOne(of: Scope, job: Job, t: Task, done: nat)
    requires done < |Todo(job, t)|
    ensures Weight(KeysLeft(of), job, Running(t, done))
            == Matching(of, t.shard, [Todo(job, t)[done]]) + Weight(KeysLeft(of), job, Running(t, done + 1))
  {
    hide Todo, Matching;
    var todo := Todo(job, t);
    MatchingConcat(of, t.shard, [todo[done]], todo[done + 1..]);
    assert todo[done..] == [todo[done]] + todo[done + 1..];
  }

  lemma NothingAtEnd(of: Scope, job: Job, t: Task)
    ensures Weight(KeysLeft(of), job, Running(t, |Todo(job, t)|)) == 0
  {
    hide Todo;
    assert Todo(job, t)[|Todo(job, t)|..] == [];
  }

  lemma BackPutsBack(of: Scope, job: Job, t: Task, done: nat, back: nat, next: Task)
    requires back <= done <= |Todo(job, t)| && next.shard == t.shard && Todo(job, next) == Todo(job, t)[back..]
    ensures Weight(KeysLeft(of), job, Queued(next))
            == Weight(KeysLeft(of), job, Running(t, done)) + Matching(of, t.shard, Todo(job, t)[back..done])
  {
    hide Todo, Matching;
    var todo := Todo(job, t);
    MatchingConcat(of, t.shard, todo[back..done], todo[done..]);
    assert todo[back..] == todo[back..done] + todo[done..];
  }

  /** Ending early puts back exactly the repeats. */
  lemma EndBalanced(of: Scope, job: Job, s: State, a: Action)
    requires WfJob(job) && NoStall(job, s) && Inv(job, s) && Enabled(job, s, a) && EndsEarly(a)
    ensures Tally(KeysLeft(of), job, Apply(job, s, a).tasks)
            == Tally(KeysLeft(of), job, s.tasks) + Repeats(of, job, s, a)
    ensures Apply(job, s, a).created == s.created
  {
    NextTaskTodo(job, s, a);
    hide Inv, NoStall, ZeroLeads, Todo, Tally, Weight, Matching;
    EndTally(KeysLeft(of), job, s, a);
    var t := s.tasks[a.id];
    BackPutsBack(of, job, t.task, t.done, Back(a, t.done), NextTask(job, t, a));
    RepeatsOf(of, job, s, a);
  }

  lemma RepeatsOf(of: Scope, job: Job, s: State, a: Action)
    requires Enabled(job, s, a) && EndsEarly(a)
    requires Back(a, s.tasks[a.id].done) <= s.tasks[a.id].done <= |Todo(job, s.tasks[a.id].task)|
    ensures var t := s.tasks[a.id];
            Repeats(of, job, s, a) == Matching(of, t.task.shard, Todo(job, t.task)[Back(a, t.done)..t.done])
  {
    hide Todo;
    var t := s.tasks[a.id];
    if !a.LateError? && !a.Crash? {
      assert Todo(job, t.task)[Back(a, t.done)..t.done] == [];
    }
  }

  /** Steps that end no invocation early: every completed callback takes its key off what is left. */
  lemma AdvanceBalanced(of: Scope, job: Job, s: State, a: Action)
    requires Inv(job, s) && Enabled(job, s, a) && !s.generator.GaveUp?
    requires a.Drop? || a.Redefer? || a.Start? || a.Callback? || a.Complete?
    ensures Completions(of, job, s, a) + Tally(KeysLeft(of), job, Apply(job, s, a).tasks)
            == Tally(KeysLeft(of), job, s.tasks)
    ensures Apply(job, s, a).created == s.created
  {
    hide Todo, Tally, Weight, Matching, Inv;
    if a.Drop? {
      DropNeedsAbort(job, s, a.id);
      return;
    }
    var t, g := s.tasks[a.id], KeysLeft(of);
    if a.Redefer? {
      TallyReplace(g, job, s.tasks, a.id, t.task);
      GoneIsNothing(g, job);
    } else if a.Start? {
      StartKeepsLeft(of, job, t.task);
      TallyPut(g, job, s.tasks, a.id, Running(t.task, 0));
    } else if a.Callback? {
      CallbackTakesOne(of, job, t.task, t.done);
      TallyPut(g, job, s.tasks, a.id, Running(t.task, t.done + 1));
    } else {
      NothingAtEnd(of, job, t.task);
      GoneIsNothing(g, job);
      TallyPut(g, job, s.tasks, a.id, Gone);
    }
  }

  lemma GoneIsNothing(g: Gauge, job: Job)
    ensures Weight(g, job, Gone) == 0
  {
  }

  /**
   Conservation, at every point of every run that does not give up and without stalls, for any shard and any
   key: completions plus what the tasks have left is what the shards made so far hold, plus the repeats.
   */
  lemma {:induction false} RunBalanced(of: Scope, job: Job, deleteMarker: bool, log: seq<Action>)
    requires WfJob(job) && NoShardStalls(job) && IsRun(job, Initial(deleteMarker), log) && GiveUp !in log
    ensures !After(job, Initial(deleteMarker), log).generator.GaveUp?
    ensures After(job, Initial(deleteMarker), log).created <= |job.ranges|
    ensures NoStall(job, After(job, Initial(deleteMarker), log))
    ensures Balanced(of, job, After(job, Initial(deleteMarker), log),
                     CallsIn(of, job, Initial(deleteMarker), log), RepeatsIn(of, job, Initial(deleteMarker), log))
    decreases |log|
  {
    if log != [] {
      var front, a := log[..|log| - 1], log[|log| - 1];
      RunBalanced(of, job, deleteMarker, front);
      RunInv(job, deleteMarker, front);
      hide Inv, NoStall, Balanced, Completions, Repeats;
      var s := After(job, Initial(deleteMarker), front);
      GaveUpStays(job, s, a);
      ShardZeroLeads(job, s, a);
      StepNoStall(job, s, a);
      StepBalanced(of, job, s, a, CallsIn(of, job, Initial(deleteMarker), front),
                   RepeatsIn(of, job, Initial(deleteMarker), front));
    } else {
      assert job.ranges[..0] == [];
    }
  }

  lemma ShardZeroLeads(job: Job, s: State, a: Action)
    requires NoShardStalls(job) && Enabled(job, s, a)
    ensures a.MakeShard? ==> ZeroLeads(job, Task(s.created, None))
  {
  }

  lemma {:induction false} NeverGaveUp(job: Job, deleteMarker: bool, log: seq<Action>)
    requires WfJob(job) && IsRun(job, Initial(deleteMarker), log)
    ensures GiveUp in log ==> After(job, Initial(deleteMarker), log).generator.GaveUp?
    decreases |log|
  {
    if log != [] {
      var front, a := log[..|log| - 1], log[|log| - 1];
      NeverGaveUp(job, deleteMarker, front);
      var s := After(job, Initial(deleteMarker), front);
      GaveUpStays(job, s, a);
      assert GiveUp in log ==> GiveUp in front || a == GiveUp;
    }
  }

  lemma GaveUpStays(job: Job, s: State, a: Action)
    requires Enabled(job, s, a)
    ensures Apply(job, s, a).generator.GaveUp? <==> s.generator.GaveUp? || a.GiveUp?
  {
  }

  // ---------------------------------------------------------------- by shard

  lemma {:induction false} KeysOfShard(pks: seq<int>, ranges: seq<Range>, i: nat)
    ensures KeysOf(InShard(i), pks, ranges) == if i < |ranges| then |Select(pks, ranges[i], None)| else 0
  {
    if ranges != [] {
      var n := |ranges| - 1;
      KeysOfShard(pks, ranges[..n], i);
      MatchingShard(i, n, Select(pks, ranges[n], None));
    }
  }

  lemma {:induction false} MatchingShard(i: nat, shard: nat, keys: seq<int>)
    ensures Matching(InShard(i), shard, keys) == if shard == i then |keys| else 0
  {
    if keys != [] {
      MatchingShard(i, shard, keys[1..]);
    }
  }

  /**
   At every reachable state, for every shard made: the completions by the shard's tasks plus what these have
   left equal the shard's keys plus its repeats.
   */
  lemma ShardBalance(job: Job, deleteMarker: bool, log: seq<Action>, i: nat)
    requires WfJob(job) && NoShardStalls(job) && IsRun(job, Initial(deleteMarker), log) && GiveUp !in log
    requires i < After(job, Initial(deleteMarker), log).created
    ensures var s0, s := Initial(deleteMarker), After(job, Initial(deleteMarker), log);
            && i < |job.ranges|
            && CallsIn(InShard(i), job, s0, log) + Tally(KeysLeft(InShard(i)), job, s.tasks)
               == |Select(job.pks, job.ranges[i], None)| + RepeatsIn(InShard(i), job, s0, log)
  {
    RunBalanced(InShard(i), job, deleteMarker, log);
    hide IsRun, After, Select, Tally;
    KeysOfShard(job.pks, job.ranges[..After(job, Initial(deleteMarker), log).created], i);
  }

  /** A shard is called at most once per key and repeat, in every run, given up or not. */
  lemma ShardBound(job: Job, deleteMarker: bool, log: seq<Action>, i: nat)
    requires WfJob(job) && NoShardStalls(job) && IsRun(job, Initial(deleteMarker), log) && i < |job.ranges|
    ensures CallsIn(InShard(i), job, Initial(deleteMarker), log)
            <= |Select(job.pks, job.ranges[i], None)| + RepeatsIn(InShard(i), job, Initial(deleteMarker), log)
  {
    if GiveUp in log {
      NeverGaveUp(job, deleteMarker, log);
      RunInv(job, deleteMarker, log);
      NoCalls(InShard(i), job, Initial(deleteMarker), log);
    } else {
      RunBalanced(InShard(i), job, deleteMarker, log);
      hide IsRun, After, Select, Tally, CallsIn, RepeatsIn;
      KeysOfShard(job.pks, job.ranges[..After(job, Initial(deleteMarker), log).created], i);
    }
  }

  lemma {:induction false} NoCalls(of: Scope, job: Job, s: State, log: seq<Action>)
    requires IsRun(job, s, log) && After(job, s, log).calls == multiset{}
    ensures CallsIn(of, job, s, log) == 0
    decreases |log|
  {
    if log != [] {
      var front := log[..|log| - 1];
      CallsGrow(job, After(job, s, front), log[|log| - 1]);
      NoCalls(of, job, s, front);
    }
  }

  lemma CallsGrow(job: Job, s: State, a: Action)
    requires Enabled(job, s, a)
    ensures Apply(job, s, a).calls
            == if a.Callback? then s.calls + multiset{Todo(job, s.tasks[a.id].task)[s.tasks[a.id].done]} else s.calls
  {
    hide Todo;
  }

  predicate NoCrash(log: seq<Action>) {
    forall a :: a in log ==> !a.Crash?
  }

  /** Without crashes every repeat is due to an exception other than a timeout. */
  lemma {:induction false} RepeatsAreFailures(job: Job, s: State, log: seq<Action>, i: nat)
    requires IsRun(job, s, log) && NoCrash(log)
    ensures RepeatsIn(InShard(i), job, s, log) <= FailuresIn(InShard(i), job, s, log)
    decreases |log|
  {
    if log != [] {
      var front, a := log[..|log| - 1], log[|log| - 1];
      assert forall x :: x in front ==> x in log;
      assert a in log;
      RepeatsAreFailures(job, s, front, i);
      var b := After(job, s, front);
      if a.LateError? && IsRunning(b, a.id) && b.tasks[a.id].done <= |Todo(job, b.tasks[a.id].task)| {
        var t := b.tasks[a.id];
        MatchingShard(i, t.task.shard, Todo(job, t.task)[Back(a, t.done)..t.done]);
      }
    }
  }

  /** A shard's keys and failures bound its completions in every run without hard crashes. */
  predicate Bounded(job: Job, deleteMarker: bool, log: seq<Action>, i: nat)
    requires IsRun(job, Initial(deleteMarker), log) && i < |job.ranges|
  {
    CallsIn(InShard(i), job, Initial(deleteMarker), log)
    <= |Select(job.pks, job.ranges[i], None)| + FailuresIn(InShard(i), job, Initial(deleteMarker), log)
  }

  lemma CrashFreeBound(job: Job, deleteMarker: bool, log: seq<Action>, i: nat)
    requires WfJob(job) && NoShardStalls(job) && IsRun(job, Initial(deleteMarker), log) && i < |job.ranges|
    requires NoCrash(log)
    ensures Bounded(job, deleteMarker, log, i)
  {
    ShardBound(job, deleteMarker, log, i);
    RepeatsAreFailures(job, Initial(deleteMarker), log, i);
  }

  // ------------------------------------------------------------------ by key

  lemma {:induction false} CallsOnKey(job: Job, deleteMarker: bool, log: seq<Action>, k: int)
    requires IsRun(job, Initial(deleteMarker), log)
    ensures CallsIn(OnKey(k), job, Initial(deleteMarker), log) == After(job, Initial(deleteMarker), log).calls[k]
    decreases |log|
  {
    if log != [] {
      var front := log[..|log| - 1];
      CallsOnKey(job, deleteMarker, front, k);
      KeyCompletions(job, After(job, Initial(deleteMarker), front), log[|log| - 1], k);
    }
  }

  lemma KeyCompletions(job: Job, s: State, a: Action, k: int)
    requires Enabled(job, s, a)
    ensures Apply(job, s, a).calls[k] == s.calls[k] + Completions(OnKey(k), job, s, a)
  {
    hide Todo, Matching;
    CallsGrow(job, s, a);
    if a.Callback? {
      MatchingOne(k, s.tasks[a.id].task.shard, Todo(job, s.tasks[a.id].task)[s.tasks[a.id].done]);
    }
  }

  lemma MatchingOne(k: int, shard: nat, x: int)
    ensures Matching(OnKey(k), shard, [x]) == if x == k then 1 else 0
  {
    MatchingNone(OnKey(k), shard);
    assert [x][1..] == [];
  }

  /** In how many shards a key is. */
  function Hits(ranges: seq<Range>, k: int): nat {
    if ranges == [] then 0
    else Hits(ranges[..|ranges| - 1], k) + if ShardAdmits(ranges[|ranges| - 1], k) then 1 else 0
  }

  lemma {:induction false} KeysOnKey(pks: seq<int>, ranges: seq<Range>, k: int)
    requires StrictlyAscending(pks)
    ensures KeysOf(OnKey(k), pks, ranges) == if k in pks then Hits(ranges, k) else 0
  {
    if ranges != [] {
      var n := |ranges| - 1;
      KeysOnKey(pks, ranges[..n], k);
      SelectAscending(pks, ranges[n], None);
      MatchingKey(k, n, Select(pks, ranges[n], None));
    }
  }

  lemma {:induction false} MatchingKey(k: int, shard: nat, keys: seq<int>)
    requires StrictlyAscending(keys)
    ensures Matching(OnKey(k), shard, keys) == if k in keys then 1 else 0
  {
    if keys != [] {
      assert keys == [keys[0]] + keys[1..] && keys[0] !in keys[1..];
      MatchingKey(k, shard, keys[1..]);
    }
  }

  lemma {:induction false} NothingLeft(of: Scope, job: Job, tasks: seq<TaskState>)
    requires forall id :: 0 <= id < |tasks| ==> tasks[id].Gone?
    ensures Tally(KeysLeft(of), job, tasks) == 0
  {
    if tasks != [] {
      NothingLeft(of, job, tasks[..|tasks| - 1]);
    }
  }

  /** When finalize is enqueued each key has been called once per shard that admits it, plus its repeats. */
  lemma FinishedKeyCalls(job: Job, deleteMarker: bool, log: seq<Action>, k: int)
    requires WfJob(job) && NoShardStalls(job) && IsRun(job, Initial(deleteMarker), log)
    requires After(job, Initial(deleteMarker), log).finalizes == 1
    ensures After(job, Initial(deleteMarker), log).calls[k]
            == (if k in job.pks then Hits(job.ranges, k) else 0) + RepeatsIn(OnKey(k), job, Initial(deleteMarker), log)
  {
    var s := After(job, Initial(deleteMarker), log);
    FinishedIsDone(job, deleteMarker, log);
    RunBalanced(OnKey(k), job, deleteMarker, log);
    CallsOnKey(job, deleteMarker, log, k);
    hide IsRun, After, CallsIn, RepeatsIn, Hits, KeysOf, Tally;
    NothingLeft(OnKey(k), job, s.tasks);
    KeysOnKey(job.pks, job.ranges, k);
    assert job.ranges[..s.created] == job.ranges;
  }

  lemma FinishedIsDone(job: Job, deleteMarker: bool, log: seq<Action>)
    requires WfJob(job) && IsRun(job, Initial(deleteMarker), log)
    requires After(job, Initial(deleteMarker), log).finalizes == 1
    ensures var s := After(job, Initial(deleteMarker), log);
            && GiveUp !in log && s.created == |job.ranges|
            && forall id :: 0 <= id < |s.tasks| ==> s.tasks[id].Gone?
  {
    var s := After(job, Initial(deleteMarker), log);
    RunInv(job, deleteMarker, log);
    NeverGaveUp(job, deleteMarker, log);
    NoneLive(job, s.tasks);
  }

  lemma {:induction false} MatchingWithin(of: Scope, shard: nat, keys: seq<int>)
    ensures Matching(of, shard, keys) <= Matching(EVERYWHERE, shard, keys)
  {
    if keys != [] {
      MatchingWithin(of, shard, keys[1..]);
    }
  }

  lemma {:induction false} RepeatsWithin(of: Scope, job: Job, s: State, log: seq<Action>)
    requires IsRun(job, s, log)
    ensures RepeatsIn(of, job, s, log) <= RepeatsIn(EVERYWHERE, job, s, log)
    decreases |log|
  {
    if log != [] {
      var front, a := log[..|log| - 1], log[|log| - 1];
      RepeatsWithin(of, job, s, front);
      var b := After(job, s, front);
      if (a.LateError? || a.Crash?) && IsRunning(b, a.id)
         && b.tasks[a.id].done <= |Todo(job, b.tasks[a.id].task)| {
        var t := b.tasks[a.id];
        MatchingWithin(of, t.task.shard, Todo(job, t.task)[Back(a, t.done)..t.done]);
      }
    }
  }

  /** A repeat is a repeat of some key. */
  lemma {:induction false} SomeKeyRepeats(job: Job, s: State, log: seq<Action>) returns (k: int)
    requires IsRun(job, s, log) && RepeatsIn(EVERYWHERE, job, s, log) > 0
    ensures RepeatsIn(OnKey(k), job, s, log) > 0
    decreases |log|
  {
    var front, a := log[..|log| - 1], log[|log| - 1];
    var b := After(job, s, front);
    if Repeats(EVERYWHERE, job, b, a) > 0 {
      var t := b.tasks[a.id];
      k := Todo(job, t.task)[Back(a, t.done)..t.done][0];
    } else {
      k := SomeKeyRepeats(job, s, front);
    }
  }

  /**
   When finalize is enqueued every key has been called exactly once if and only if, given that nothing was
   repeated, each key is in one shard; and if every key is in some shard, then also only if nothing was repeated.
   */
  lemma FinishedOnceIff(job: Job, deleteMarker: bool, log: seq<Action>)
    requires WfJob(job) && NoShardStalls(job) && IsRun(job, Initial(deleteMarker), log)
    requires After(job, Initial(deleteMarker), log).finalizes == 1
    ensures var once := After(job, Initial(deleteMarker), log).calls == multiset(job.pks);
            var repeats := RepeatsIn(EVERYWHERE, job, Initial(deleteMarker), log);
            && (repeats == 0 ==> (once <==> forall k :: k in job.pks ==> Hits(job.ranges, k) == 1))
            && (Covers(job) && once ==> repeats == 0)
  {
    var s0, calls := Initial(deleteMarker), After(job, Initial(deleteMarker), log).calls;
    forall k
      ensures calls[k] == (if k in job.pks then Hits(job.ranges, k) else 0) + RepeatsIn(OnKey(k), job, s0, log)
      ensures RepeatsIn(OnKey(k), job, s0, log) <= RepeatsIn(EVERYWHERE, job, s0, log)
    {
      FinishedKeyCalls(job, deleteMarker, log, k);
      RepeatsWithin(OnKey(k), job, s0, log);
    }
    DistinctMultiplicity(job.pks);
    hide IsRun, After, Hits, RepeatsIn, Covers;
    if RepeatsIn(EVERYWHERE, job, s0, log) == 0 {
      if forall k :: k in job.pks ==> Hits(job.ranges, k) == 1 {
        assert forall k :: calls[k] == multiset(job.pks)[k];
      }
    } else if Covers(job) {
      var k := SomeKeyRepeats(job, s0, log);
      if k in job.pks { CoveredIsHit(job, k); }
      assert calls[k] != multiset(job.pks)[k];
    }
  }

  lemma CoveredIsHit(job: Job, k: int)
    requires Covers(job) && k in job.pks
    ensures Hits(job.ranges, k) >= 1
  {
    var i :| 0 <= i < |job.ranges| && ShardAdmits(job.ranges[i], k);
    AdmittedIsHit(job.ranges, i, k);
  }

  lemma {:induction false} AdmittedIsHit(ranges: seq<Range>, i: nat, k: int)
    requires i < |ranges| && ShardAdmits(ranges[i], k)
    ensures Hits(ranges, k) >= 1
  {
    if i < |ranges| - 1 {
      AdmittedIsHit(ranges[..|ranges| - 1], i, k);
    }
  }

  lemma {:induction false} DistinctMultiplicity(pks: seq<int>)
    requires StrictlyAscending(pks)
    ensures forall k :: multiset(pks)[k] == if k in pks then 1 else 0
  {
    if pks != [] {
      assert pks == [pks[0]] + pks[1..];
      DistinctMultiplicity(pks[1..]);
      assert pks[0] !in pks[1..];
    }
  }

  // ------------------------------------------------------- the two kinds of ranges

  lemma {:induction false} HitsOnce(ranges: seq<Range>, i: int, k: int)
    requires forall j :: 0 <= j < |ranges| ==> (ShardAdmits(ranges[j], k) <==> j == i)
    ensures Hits(ranges, k) == if 0 <= i < |ranges| then 1 else 0
  {
    if ranges != [] {
      var front := ranges[..|ranges| - 1];
      assert forall j :: 0 <= j < |front| ==> front[j] == ranges[j];
      HitsOnce(front, i, k);
    }
  }

  lemma {:induction false} HitsTwice(ranges: seq<Range>, i: int, i2: int, k: int)
    requires i < i2 && forall j :: 0 <= j < |ranges| ==> (ShardAdmits(ranges[j], k) <==> j == i || j == i2)
    ensures Hits(ranges, k) == (if 0 <= i < |ranges| then 1 else 0) + if 0 <= i2 < |ranges| then 1 else 0
  {
    if ranges != [] {
      var front := ranges[..|ranges| - 1];
      assert forall j :: 0 <= j < |front| ==> front[j] == ranges[j];
      HitsTwice(front, i, i2, k);
    }
  }

  lemma {:induction false} HitsAgain(ranges: seq<Range>, i: nat, j: nat, k: int)
    requires i < j < |ranges| && ShardAdmits(ranges[i], k) && ShardAdmits(ranges[j], k)
    ensures Hits(ranges, k) >= 2
  {
    var front := ranges[..|ranges| - 1];
    if j < |front| {
      HitsAgain(front, i, j, k);
    } else {
      AdmittedIsHit(front, i, k);
    }
  }

  /** The sampled keys at which the shards meet. */
  function CutKeys(sampled: seq<int>, shards: int): seq<int> {
    if shards > 1 && sampled != [] then SplitKeys(Sorted(sampled), shards) else []
  }

  /** Where no shard starts at key 0 the shards are disjoint. */
  lemma TruthyCutHits(sampled: seq<int>, shards: int, k: int)
    requires 0 !in CutKeys(sampled, shards)
    ensures Hits(DatastoreKeyRanges(sampled, shards), k) == 1
  {
    var ranges, split := DatastoreKeyRanges(sampled, shards), CutKeys(sampled, shards);
    DatastorePartition(sampled, shards, k);
    var i :| OnlyIn(ranges, i, k);
    forall j | 0 <= j < |ranges| ensures ShardAdmits(ranges[j], k) <==> j == i {
      if split != [] { RangesAtIndex(split, j); }
    }
    HitsOnce(ranges, i, k);
  }

  /** The range before key 0 has lost its end and the one behind its start. */
  lemma AroundZero(split: seq<int>, c: nat, k: int)
    requires c < |split| && split[c] == 0 && Ascending(split)
    ensures k < 0 ==> ShardAdmits(RangesAt(split)[c + 1], k) && !Contains(RangesAt(split)[c + 1], k)
    ensures k >= 0 ==> ShardAdmits(RangesAt(split)[c], k) && !Contains(RangesAt(split)[c], k)
  {
    RangesAtIndex(split, c);
    RangesAtIndex(split, c + 1);
  }

  /** Where two shards meet at key 0 every key is in a second shard; in no third one unless key 0 was sampled twice. */
  lemma ZeroCutHits(split: seq<int>, k: int)
    requires Ascending(split) && 0 in split
    ensures Hits(RangesAt(split), k) >= 2
    ensures StrictlyAscending(split) ==> Hits(RangesAt(split), k) == 2
  {
    var ranges := RangesAt(split);
    var c: nat :| c < |split| && split[c] == 0;
    AroundZero(split, c, k);
    var i := RangeOf(split, k);
    var z := if k < 0 then c + 1 else c;
    var i1, i2 := if i < z then i else z, if i < z then z else i;
    HitsAgain(ranges, i1, i2, k);
    if StrictlyAscending(split) {
      forall j | 0 <= j < |ranges| ensures ShardAdmits(ranges[j], k) <==> j == i1 || j == i2 {
        if j != z { OtherShards(split, c, j, k); }
      }
      HitsTwice(ranges, i1, i2, k);
    }
  }

  /** Only the two shards that meet at key 0 admit a key outside their range. */
  lemma OtherShards(split: seq<int>, c: nat, j: nat, k: int)
    requires c < |split| && split[c] == 0 && StrictlyAscending(split) && j <= |split|
    requires j != if k < 0 then c + 1 else c
    ensures ShardAdmits(RangesAt(split)[j], k) <==> Contains(RangesAt(split)[j], k)
  {
    RangesAtIndex(split, j);
  }

  lemma CutKeysAscending(sampled: seq<int>, shards: int)
    ensures Ascending(CutKeys(sampled, shards))
    ensures Distinct(sampled) ==> StrictlyAscending(CutKeys(sampled, shards))
  {
    if shards > 1 && sampled != [] {
      var sorted := Sorted(sampled);
      SplitKeysAscending(sorted, shards);
      if Distinct(sampled) {
        SortedStrict(sampled);
        SplitKeysStrict(sorted, shards);
      }
    }
  }

  lemma SplitKeysStrict(sorted: seq<int>, shards: int)
    requires StrictlyAscending(sorted) && Ascending(sorted) && 1 < shards
    ensures StrictlyAscending(SplitKeys(sorted, shards))
  {
    var r := SplitKeys(sorted, shards);
    forall i, j | 0 <= i < j < |r| ensures r[i] < r[j] {
      if |sorted| >= shards {
        SplitIndexMonotone(|sorted|, shards, i + 1, j + 1);
        SplitIndexMonotone(|sorted|, shards, j + 1, shards);
      }
    }
  }

  /** How many shards admit a key. */
  lemma DatastoreHits(sampled: seq<int>, shards: int, k: int)
    ensures var zero, hits := 0 in CutKeys(sampled, shards), Hits(DatastoreKeyRanges(sampled, shards), k);
            && (!zero ==> hits == 1) && (zero ==> hits >= 2) && (zero && Distinct(sampled) ==> hits == 2)
  {
    if 0 in CutKeys(sampled, shards) {
      CutKeysAscending(sampled, shards);
      ZeroCutHits(CutKeys(sampled, shards), k);
    } else {
      TruthyCutHits(sampled, shards, k);
    }
  }

  /**
   Sharded by sampled keys, a finished iteration called every key once if and only if nothing was repeated and, if
   there was any key, no two shards meet at key 0. Where they do, it called every key at least twice.
   */
  lemma DatastoreCalledOnce(pks: seq<int>, sampled: seq<int>, shards: int, deleteMarker: bool, log: seq<Action>)
    requires var job := Job(pks, DatastoreKeyRanges(sampled, shards));
             && WfJob(job) && NoShardStalls(job) && IsRun(job, Initial(deleteMarker), log)
             && After(job, Initial(deleteMarker), log).finalizes == 1
    ensures var job := Job(pks, DatastoreKeyRanges(sampled, shards));
            var calls, zero := After(job, Initial(deleteMarker), log).calls, 0 in CutKeys(sampled, shards);
            && (calls == multiset(pks)
                <==> RepeatsIn(EVERYWHERE, job, Initial(deleteMarker), log) == 0 && (pks == [] || !zero))
            && (zero ==> forall k :: k in pks ==> calls[k] >= 2)
  {
    var job := Job(pks, DatastoreKeyRanges(sampled, shards));
    DatastoreCovers(pks, sampled, shards);
    FinishedOnceIff(job, deleteMarker, log);
    hide IsRun, After, Hits, RepeatsIn, CutKeys, DatastoreKeyRanges;
    forall k | k in pks
      ensures Hits(job.ranges, k) == 1 <==> 0 !in CutKeys(sampled, shards)
      ensures 0 in CutKeys(sampled, shards) ==> After(job, Initial(deleteMarker), log).calls[k] >= 2
    {
      DatastoreHits(sampled, shards, k);
      FinishedKeyCalls(job, deleteMarker, log, k);
    }
    assert pks != [] ==> pks[0] in pks;
  }

  /** The keys that both of the last two sequential ranges hold. */
  predicate InOverlap(smallest: int, biggest: int, shards: int, k: int)
    requires smallest <= biggest && shards > 0
  {
    var n, size := |SequentialRanges(smallest, biggest, shards)|, ShardSize(smallest, biggest, shards);
    n >= 2 && biggest - size <= k < biggest - size + (n * size - (biggest - smallest))
  }

  /** A shard other than the first starts, or one other than the last ends, at key 0. */
  predicate ZeroInside(smallest: int, biggest: int, shards: int)
    requires smallest <= biggest && shards > 0
  {
    var n, size := |SequentialRanges(smallest, biggest, shards)|, ShardSize(smallest, biggest, shards);
    n >= 2 && (biggest == size || exists z :: 1 <= z < n && smallest + Offset(size, z) == 0)
  }

  /** If there is none, a shard of sequential ranges admits just what its range contains. */
  lemma SequentialAdmits(smallest: int, biggest: int, shards: int, i: nat, k: int)
    requires smallest <= k <= biggest && shards > 0 && i < |SequentialRanges(smallest, biggest, shards)|
    requires !ZeroInside(smallest, biggest, shards)
    ensures var r := SequentialRanges(smallest, biggest, shards)[i]; ShardAdmits(r, k) <==> Contains(r, k)
  {
    var size, n := ShardSize(smallest, biggest, shards), |SequentialRanges(smallest, biggest, shards)|;
    assert Offset(size, 0) == 0 && Offset(size, 1) == size;
    if i < n - 1 {
      assert SequentialRanges(smallest, biggest, shards)[i] == Step(smallest, size, i);
      assert smallest + Offset(size, i + 1) != 0;
      assert i > 0 ==> smallest + Offset(size, i) != 0;
    }
  }

  /** If there is one, the smallest or the biggest key is in a second shard. */
  lemma ZeroInsideHits(smallest: int, biggest: int, shards: int)
    requires smallest <= biggest && shards > 0 && ZeroInside(smallest, biggest, shards)
    ensures var r := SequentialRanges(smallest, biggest, shards); Hits(r, smallest) >= 2 || Hits(r, biggest) >= 2
  {
    var ranges, size := SequentialRanges(smallest, biggest, shards), ShardSize(smallest, biggest, shards);
    var n := |ranges|;
    assert Offset(size, 0) == 0 && Offset(size, 1) == size;
    if biggest == size {
      assert ranges[0] == Step(smallest, size, 0);
      HitsAgain(ranges, 0, n - 1, smallest);
    } else {
      var z :| 1 <= z < n && smallest + Offset(size, z) == 0;
      assert ranges[z - 1] == Step(smallest, size, z - 1);
      OffsetMonotone(size, z - 1, n - 1);
      HitsAgain(ranges, z - 1, n - 1, biggest);
    }
  }

  lemma OverlapHits(smallest: int, biggest: int, shards: int, k: int)
    requires smallest <= k <= biggest && shards > 0 && !ZeroInside(smallest, biggest, shards)
    requires InOverlap(smallest, biggest, shards, k)
    ensures Hits(SequentialRanges(smallest, biggest, shards), k) == 2
  {
    var ranges := SequentialRanges(smallest, biggest, shards);
    var n := |ranges|;
    hide SequentialRanges, ShardAdmits, Contains, ZeroInside, Hits;
    SequentialOverlap(smallest, biggest, shards, n - 2, n - 1, k);
    forall j | 0 <= j < n ensures ShardAdmits(ranges[j], k) <==> j == n - 2 || j == n - 1 {
      SequentialAdmits(smallest, biggest, shards, j, k);
      if j < n - 2 { SequentialOverlap(smallest, biggest, shards, j, n - 1, k); }
    }
    HitsTwice(ranges, n - 2, n - 1, k);
  }

  /** Otherwise sequential ranges put each key into one shard, and those in the overlap into two. */
  lemma SequentialHits(smallest: int, biggest: int, shards: int, k: int)
    requires smallest <= k <= biggest && shards > 0 && !ZeroInside(smallest, biggest, shards)
    ensures Hits(SequentialRanges(smallest, biggest, shards), k)
            == if InOverlap(smallest, biggest, shards, k) then 2 else 1
  {
    var ranges := SequentialRanges(smallest, biggest, shards);
    var n := |ranges|;
    if InOverlap(smallest, biggest, shards, k) {
      OverlapHits(smallest, biggest, shards, k);
    } else {
      hide SequentialRanges, ShardAdmits, Contains, ZeroInside, Hits;
      SequentialCovers(smallest, biggest, shards, k);
      var i :| 0 <= i < n && Contains(ranges[i], k);
      forall j | 0 <= j < n ensures ShardAdmits(ranges[j], k) <==> j == i {
        SequentialAdmits(smallest, biggest, shards, j, k);
        if j < i { SequentialOverlap(smallest, biggest, shards, j, i, k); }
        if i < j { SequentialOverlap(smallest, biggest, shards, i, j, k); }
      }
      HitsOnce(ranges, i, k);
    }
  }

  function SequentialJob(pks: seq<int>, shards: int): Job
    requires StrictlyAscending(pks) && pks != [] && shards > 0
  {
    Job(pks, SequentialRanges(pks[0], pks[|pks| - 1], shards))
  }

  predicate CalledTwice(pks: seq<int>, shards: int, k: int)
    requires StrictlyAscending(pks) && pks != [] && shards > 0
  {
    InOverlap(pks[0], pks[|pks| - 1], shards, k)
  }

  predicate CutAtZero(pks: seq<int>, shards: int)
    requires StrictlyAscending(pks) && pks != [] && shards > 0
  {
    ZeroInside(pks[0], pks[|pks| - 1], shards)
  }

  lemma SequentialJobHits(pks: seq<int>, shards: int, k: int)
    requires StrictlyAscending(pks) && pks != [] && shards > 0 && k in pks && !CutAtZero(pks, shards)
    ensures Hits(SequentialJob(pks, shards).ranges, k) == if CalledTwice(pks, shards, k) then 2 else 1
  {
    hide InOverlap, ZeroInside, SequentialRanges, Hits;
    assert pks[0] <= k <= pks[|pks| - 1];
    SequentialHits(pks[0], pks[|pks| - 1], shards, k);
  }

  lemma CutAtZeroHits(pks: seq<int>, shards: int)
    requires StrictlyAscending(pks) && pks != [] && shards > 0 && CutAtZero(pks, shards)
    ensures exists k :: k in pks && Hits(SequentialJob(pks, shards).ranges, k) != 1
  {
    hide ZeroInside, SequentialRanges, Hits;
    ZeroInsideHits(pks[0], pks[|pks| - 1], shards);
    assert pks[0] in pks && pks[|pks| - 1] in pks;
  }

  /**
   Sharded by sequential ranges that key 0 does not cut, and without repeats, a finished iteration called the keys
   in the overlap of the last two ranges twice and the others once.
   */
  lemma SequentialCalls(pks: seq<int>, shards: int, deleteMarker: bool, log: seq<Action>, k: int)
    requires StrictlyAscending(pks) && pks != [] && shards > 0 && k in pks && !CutAtZero(pks, shards)
    requires NoShardStalls(SequentialJob(pks, shards))
    requires IsRun(SequentialJob(pks, shards), Initial(deleteMarker), log)
    requires After(SequentialJob(pks, shards), Initial(deleteMarker), log).finalizes == 1
    requires RepeatsIn(EVERYWHERE, SequentialJob(pks, shards), Initial(deleteMarker), log) == 0
    ensures After(SequentialJob(pks, shards), Initial(deleteMarker), log).calls[k]
            == if CalledTwice(pks, shards, k) then 2 else 1
  {
    hide CalledTwice, CutAtZero, SequentialRanges, Hits, RepeatsIn, NoShardStalls;
    FinishedKeyCalls(SequentialJob(pks, shards), deleteMarker, log, k);
    RepeatsWithin(OnKey(k), SequentialJob(pks, shards), Initial(deleteMarker), log);
    SequentialJobHits(pks, shards, k);
  }

  /** Every key is called exactly once if and only if key 0 does not cut the ranges and no key is in the overlap. */
  lemma SequentialCalledOnceIff(pks: seq<int>, shards: int, deleteMarker: bool, log: seq<Action>)
    requires StrictlyAscending(pks) && pks != [] && shards > 0
    requires NoShardStalls(SequentialJob(pks, shards))
    requires IsRun(SequentialJob(pks, shards), Initial(deleteMarker), log)
    requires After(SequentialJob(pks, shards), Initial(deleteMarker), log).finalizes == 1
    requires RepeatsIn(EVERYWHERE, SequentialJob(pks, shards), Initial(deleteMarker), log) == 0
    ensures After(SequentialJob(pks, shards), Initial(deleteMarker), log).calls == multiset(pks)
            <==> !CutAtZero(pks, shards) && forall k :: k in pks ==> !CalledTwice(pks, shards, k)
  {
    hide CalledTwice, CutAtZero, SequentialRanges, Hits, RepeatsIn, IsRun, After, NoShardStalls;
    FinishedOnceIff(SequentialJob(pks, shards), deleteMarker, log);
    if CutAtZero(pks, shards) {
      CutAtZeroHits(pks, shards);
    } else {
      forall k | k in pks
        ensures Hits(SequentialJob(pks, shards).ranges, k) == if CalledTwice(pks, shards, k) then 2 else 1
      {
        SequentialJobHits(pks, shards, k);
      }
    }
  }

  /** Keys that are not negative neither stall nor does key 0 cut their ranges. */
  lemma NaturalKeysAreSafe(pks: seq<int>, shards: int)
    requires StrictlyAscending(pks) && pks != [] && 0 <= pks[0] && shards > 0
    ensures NoShardStalls(SequentialJob(pks, shards)) && !CutAtZero(pks, shards)
  {
    NoShardStallsIff(SequentialJob(pks, shards));
    var size, n := ShardSize(pks[0], pks[|pks| - 1], shards), |SequentialJob(pks, shards).ranges|;
    assert Offset(size, 0) == 0 && Offset(size, 1) == size;
    if n >= 2 {
      forall z | 1 <= z < n ensures Offset(size, z) >= size { OffsetMonotone(size, 1, z); }
    }
  }

  /** As in three ranges of the keys 1 to 11, where 7 and 8 are called twice. */
  lemma SevenAndEightTwice(k: int)
    requires 1 <= k <= 11
    ensures Hits(SequentialRanges(1, 11, 3), k) == if k in {7, 8} then 2 else 1
  {
    hide SequentialRanges, Hits;
    OverlapExample();
    assert CeilDiv(10, 3) == 4 && ShardSize(1, 11, 3) == 4;
    assert !ZeroInside(1, 11, 3) by { assert forall z :: 1 <= z < 3 ==> 1 + Offset(4, z) != 0; }
    SequentialHits(1, 11, 3, k);
  }
}
