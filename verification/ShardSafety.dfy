/** Safety of the sharded iteration over every run, with faults and in every interleaving. */
module ShardSafety {
  import opened Common
  import opened KeyRanges
  import opened Sharding

  // ---------------------------------------------------------------- invariant

  /** The callback has completed on every primary key of shard i. */
  predicate ShardDone(job: Job, s: State, i: nat)
    requires i < |job.ranges|
  {
    forall k :: k in job.pks && ShardAdmits(job.ranges[i], k) ==> k in s.calls
  }

  /** Resume without gaps: whatever the task would skip has been done. */
  predicate NoGap(job: Job, s: State, t: TaskState)
    requires !t.Gone? && t.task.shard < |job.ranges|
  {
    && (t.task.from.Some? ==>
          forall k :: k in job.pks && ShardAdmits(job.ranges[t.task.shard], k) && k < t.task.from.value
                      ==> k in s.calls)
    && (t.Running? ==>
          && t.done <= |Todo(job, t.task)|
          && forall j :: 0 <= j < t.done ==> Todo(job, t.task)[j] in s.calls)
  }

  predicate TasksSound(job: Job, s: State) {
    && s.created <= |job.ranges|
    && (forall id :: 0 <= id < |s.tasks| && !s.tasks[id].Gone? ==>
          s.tasks[id].task.shard < s.created && NoGap(job, s, s.tasks[id]))
    && (forall id, id2 :: 0 <= id < id2 < |s.tasks| && !s.tasks[id].Gone? && !s.tasks[id2].Gone? ==>
          s.tasks[id].task.shard != s.tasks[id2].task.shard)
  }

  /** Some task of shard i is queued or running. */
  predicate HasTask(s: State, i: nat) {
    exists id :: 0 <= id < |s.tasks| && !s.tasks[id].Gone? && s.tasks[id].task.shard == i
  }

  predicate Accounted(job: Job, s: State) {
    forall i :: 0 <= i < s.created <= |job.ranges| ==> HasTask(s, i) || ShardDone(job, s, i)
  }

  /** No callback has run and none is running. */
  predicate Untouched(s: State) {
    && s.calls == multiset{} && s.finalizes == 0
    && forall id :: 0 <= id < |s.tasks| ==> !s.tasks[id].Running?
  }

  datatype Phase = Generating | Aborted | Processing | Finished

  /** The phase a state is in; `Inv` states what holds in each. */
  function PhaseOf(job: Job, s: State): Phase {
    if s.marker.None? then
      if s.generator.GaveUp? then Aborted else Finished
    else if !s.marker.value.isReady then Generating
    else if IsFinished(s.marker.value) then Finished
    else Processing
  }

  predicate PhaseInv(job: Job, s: State) {
    match PhaseOf(job, s)
    case Generating =>
      && Untouched(s) && s.marker.value.shardsComplete == 0
      && (s.created < |job.ranges| || job.ranges == []) && !s.generator.GaveUp?
    case Aborted => Untouched(s) && s.created < |job.ranges|
    case Processing =>
      && s.created == |job.ranges| > 0 && s.finalizes == 0 && s.generator.Active?
    case Finished =>
      && s.created == |job.ranges| > 0 && s.finalizes == 1 && Live(job, s) == 0 && s.generator.Active?
  }

  predicate Inv(job: Job, s: State) {
    && TasksSound(job, s)
    && PhaseInv(job, s)
    && (s.marker.Some? ==>
          s.marker.value.shardCount == s.created && s.marker.value.shardsComplete + Live(job, s) == s.created)
    && (!PhaseOf(job, s).Aborted? ==> Accounted(job, s))
  }

  // ------------------------------------------------------------- preservation

  lemma InitialInv(job: Job, deleteMarker: bool)
    requires WfJob(job)
    ensures Inv(job, Initial(deleteMarker))
  {
  }

  /** Appending or replacing a task of the same shard keeps every shard covered. */
  lemma KeepsAccounted(job: Job, s: State, s': State)
    requires Accounted(job, s) && s.created == s'.created && s.calls <= s'.calls
    requires forall i :: 0 <= i < s.created && HasTask(s, i) ==> HasTask(s', i)
    ensures Accounted(job, s')
  {
  }

  lemma HasTaskWitness(s: State, i: nat, id: nat)
    requires id < |s.tasks| && !s.tasks[id].Gone? && s.tasks[id].task.shard == i
    ensures HasTask(s, i)
  {
  }

  /** The task is put back or moves on in place. */
  lemma PutInv(job: Job, s: State, id: nat, t: TaskState)
    requires WfJob(job) && Inv(job, s) && id < |s.tasks| && !s.tasks[id].Gone? && !t.Gone?
    requires t.task == s.tasks[id].task && NoGap(job, s, t)
    requires t.Running? ==> Ready(s)
    ensures Inv(job, Put(s, id, t))
  {
    var s' := Put(s, id, t);
    TallyPut(LiveTasks, job, s.tasks, id, t);
    forall i | 0 <= i < s.created && HasTask(s, i) ensures HasTask(s', i) {
      var x :| 0 <= x < |s.tasks| && !s.tasks[x].Gone? && s.tasks[x].task.shard == i;
      HasTaskWitness(s', i, x);
    }
    if !PhaseOf(job, s).Aborted? { KeepsAccounted(job, s, s'); }
  }

  /** The task ends and a task of the same shard is enqueued. */
  lemma ReplaceInv(job: Job, s: State, id: nat, t: Task)
    requires WfJob(job) && Inv(job, s) && id < |s.tasks| && !s.tasks[id].Gone?
    requires t.shard == s.tasks[id].task.shard && NoGap(job, s, Queued(t))
    ensures Inv(job, Replace(s, id, t))
  {
    var s' := Replace(s, id, t);
    TallyReplace(LiveTasks, job, s.tasks, id, t);
    ReplaceSound(job, s, id, t);
    if !PhaseOf(job, s).Aborted? { ReplaceAccounted(job, s, id, t); }
  }

  lemma ReplaceSound(job: Job, s: State, id: nat, t: Task)
    requires TasksSound(job, s) && id < |s.tasks| && !s.tasks[id].Gone?
    requires t.shard == s.tasks[id].task.shard && NoGap(job, s, Queued(t))
    ensures TasksSound(job, Replace(s, id, t))
  {
  }

  lemma ReplaceAccounted(job: Job, s: State, id: nat, t: Task)
    requires Accounted(job, s) && id < |s.tasks| && !s.tasks[id].Gone? && t.shard == s.tasks[id].task.shard
    ensures Accounted(job, Replace(s, id, t))
  {
    var s' := Replace(s, id, t);
    forall i | 0 <= i < s.created && HasTask(s, i) ensures HasTask(s', i) {
      var x :| 0 <= x < |s.tasks| && !s.tasks[x].Gone? && s.tasks[x].task.shard == i;
      HasTaskWitness(s', i, if x == id then |s.tasks| else x);
    }
    KeepsAccounted(job, s, s');
  }

  /** Nothing below the j-th result of a running task is left undone. */
  lemma ResumeNoGap(job: Job, s: State, t: TaskState, j: nat)
    requires WfJob(job) && t.Running? && t.task.shard < |job.ranges| && NoGap(job, s, t)
    requires j <= t.done && j < |Todo(job, t.task)|
    ensures NoGap(job, s, Queued(Resume(t.task, Todo(job, t.task)[j])))
  {
    var todo := Todo(job, t.task);
    var v, r := todo[j], job.ranges[t.task.shard];
    TodoResume(job, t.task, j);
    if v != 0 {
      forall k | k in job.pks && ShardAdmits(r, k) && k < v ensures k in s.calls {
        if t.task.from.None? || t.task.from.value <= k {
          assert k in todo;
          var x :| 0 <= x < |todo| && todo[x] == k;
          if x >= j {
            assert k == todo[j..][x - j];
            assert k in Todo(job, Resume(t.task, v));
          }
        }
      }
    }
  }

  /** Callbacks only ever run between readiness and completion. */
  lemma RunningIsProcessing(job: Job, s: State, id: nat)
    requires Inv(job, s) && IsRunning(s, id)
    ensures Ready(s) && PhaseOf(job, s).Processing?
  {
    NoneLive(job, s.tasks);
  }

  /** More completions leave no new gap. */
  lemma MoreCallsSound(job: Job, s: State, s': State)
    requires TasksSound(job, s) && s.calls <= s'.calls && s'.tasks == s.tasks && s'.created == s.created
    ensures TasksSound(job, s')
  {
    hide Todo;
    forall id | 0 <= id < |s.tasks| && !s.tasks[id].Gone? ensures NoGap(job, s', s.tasks[id]) {
      assert NoGap(job, s, s.tasks[id]);
    }
  }

  lemma MoreCallsInv(job: Job, s: State, s': State)
    requires Inv(job, s) && PhaseOf(job, s).Processing? && s.calls <= s'.calls && s' == s.(calls := s'.calls)
    ensures Inv(job, s')
  {
    hide TasksSound, Accounted;
    MoreCallsSound(job, s, s');
    KeepsAccounted(job, s, s');
  }

  lemma NextNoGap(job: Job, s: State, s': State, t: TaskState)
    requires t.Running? && t.task.shard < |job.ranges| && NoGap(job, s, t) && t.done < |Todo(job, t.task)|
    requires s'.calls == s.calls + multiset{Todo(job, t.task)[t.done]}
    ensures NoGap(job, s', Running(t.task, t.done + 1))
  {
    hide Todo;
  }

  lemma CallbackInv(job: Job, s: State, id: nat)
    requires WfJob(job) && Inv(job, s) && IsIterating(job, s, id)
    ensures Inv(job, Apply(job, s, Callback(id)))
  {
    hide NoGap, Todo, TasksSound, Inv, PhaseInv, PhaseOf, Accounted, WfJob, Put;
    var t := s.tasks[id];
    var s1 := s.(calls := s.calls + multiset{Todo(job, t.task)[t.done]});
    RunningIsProcessing(job, s, id);
    TaskSound(job, s, id);
    MoreCallsInv(job, s, s1);
    NextNoGap(job, s, s1, t);
    PutInv(job, s1, id, Running(t.task, t.done + 1));
    CallbackIsPut(job, s, id);
  }

  lemma CallbackIsPut(job: Job, s: State, id: nat)
    requires IsIterating(job, s, id)
    ensures var t := s.tasks[id];
            Apply(job, s, Callback(id))
            == Put(s.(calls := s.calls + multiset{Todo(job, t.task)[t.done]}), id, Running(t.task, t.done + 1))
  {
    hide Todo;
  }

  lemma TaskSound(job: Job, s: State, id: nat)
    requires Inv(job, s) && id < |s.tasks| && !s.tasks[id].Gone?
    ensures s.tasks[id].task.shard < |job.ranges| && NoGap(job, s, s.tasks[id])
  {
  }

  lemma MakeShardInv(job: Job, s: State)
    requires WfJob(job) && Inv(job, s) && Enabled(job, s, MakeShard)
    ensures Inv(job, Apply(job, s, MakeShard))
  {
    var s' := Apply(job, s, MakeShard);
    TallyAppend(LiveTasks, job, s.tasks, Queued(Task(s.created, None)));
    forall i | 0 <= i < s'.created ensures HasTask(s', i) || ShardDone(job, s', i) {
      if i == s.created {
        HasTaskWitness(s', i, |s.tasks|);
      } else if HasTask(s, i) {
        var x :| 0 <= x < |s.tasks| && !s.tasks[x].Gone? && s.tasks[x].task.shard == i;
        HasTaskWitness(s', i, x);
      } else {
        assert ShardDone(job, s, i);
      }
    }
  }

  /** A task that has gone through its whole query leaves nothing of its shard undone. */
  lemma IteratedShardDone(job: Job, s: State, t: TaskState)
    requires t.Running? && t.task.shard < |job.ranges| && NoGap(job, s, t) && t.done == |Todo(job, t.task)|
    ensures ShardDone(job, s, t.task.shard)
  {
  }

  lemma CompleteInv(job: Job, s: State, id: nat)
    requires WfJob(job) && Inv(job, s) && Enabled(job, s, Complete(id))
    ensures Inv(job, Apply(job, s, Complete(id)))
  {
    var s' := Put(s, id, Gone);
    RunningIsProcessing(job, s, id);
    TallyPut(LiveTasks, job, s.tasks, id, Gone);
    NoneLive(job, s'.tasks);
    CompleteAccounted(job, s, id);
    KeepsAccounted(job, s', CommitCompletion(s'));
  }

  lemma CompleteAccounted(job: Job, s: State, id: nat)
    requires TasksSound(job, s) && Accounted(job, s) && Enabled(job, s, Complete(id))
    ensures Accounted(job, Put(s, id, Gone))
  {
    var s' := Put(s, id, Gone);
    IteratedShardDone(job, s, s.tasks[id]);
    forall i | 0 <= i < s.created && i != s.tasks[id].task.shard && HasTask(s, i) ensures HasTask(s', i) {
      var x :| 0 <= x < |s.tasks| && !s.tasks[x].Gone? && s.tasks[x].task.shard == i;
      HasTaskWitness(s', i, x);
    }
    forall i | 0 <= i < s.created ensures HasTask(s', i) || ShardDone(job, s', i) {
      assert HasTask(s, i) || ShardDone(job, s, i);
      if i == s.tasks[id].task.shard { assert ShardDone(job, s', i); }
    }
  }

  lemma DropInv(job: Job, s: State, id: nat)
    requires WfJob(job) && Inv(job, s) && Enabled(job, s, Drop(id))
    ensures Inv(job, Apply(job, s, Drop(id)))
  {
    NoneLive(job, s.tasks);
  }

  lemma StepInv(job: Job, s: State, a: Action)
    requires WfJob(job) && Inv(job, s) && Enabled(job, s, a)
    ensures Inv(job, Apply(job, s, a))
  {
    hide PhaseInv, TasksSound, Accounted, NoGap, Todo;
    match a
    case MakeShard => MakeShardInv(job, s);
    case GiveUp => GiveUpInv(job, s);
    case GeneratorCrash => GeneratorCrashInv(job, s);
    case Drop(id) => DropInv(job, s, id);
    case Redefer(id) => RequeueInv(job, s, id);
    case Start(id) => StartInv(job, s, id);
    case Callback(id) => CallbackInv(job, s, id);
    case Timeout(id) => RedeferInv(job, s, id, s.tasks[id].done);
    case CallbackError(id) =>
      if s.tasks[id].done == 0 { BackInv(job, s, id); } else { RedeferInv(job, s, id, s.tasks[id].done); }
    case LateError(id) =>
      if s.tasks[id].done == 0 { BackInv(job, s, id); } else { RedeferInv(job, s, id, s.tasks[id].done - 1); }
    case Crash(id) => BackInv(job, s, id);
    case Complete(id) => CompleteInv(job, s, id);
  }

  lemma GiveUpInv(job: Job, s: State)
    requires Inv(job, s) && Enabled(job, s, GiveUp)
    ensures Inv(job, Apply(job, s, GiveUp))
  {
  }

  lemma GeneratorCrashInv(job: Job, s: State)
    requires Inv(job, s) && Enabled(job, s, GeneratorCrash)
    ensures Inv(job, Apply(job, s, GeneratorCrash))
  {
    KeepsAccounted(job, s, Apply(job, s, GeneratorCrash));
  }

  lemma RequeueInv(job: Job, s: State, id: nat)
    requires WfJob(job) && Inv(job, s) && IsQueued(s, id)
    ensures Inv(job, Replace(s, id, s.tasks[id].task))
  {
    ReplaceInv(job, s, id, s.tasks[id].task);
  }

  lemma StartInv(job: Job, s: State, id: nat)
    requires WfJob(job) && Inv(job, s) && IsQueued(s, id) && Ready(s)
    ensures Inv(job, Put(s, id, Running(s.tasks[id].task, 0)))
  {
    PutInv(job, s, id, Running(s.tasks[id].task, 0));
  }

  /** The task stays queued as it was. */
  lemma BackInv(job: Job, s: State, id: nat)
    requires WfJob(job) && Inv(job, s) && IsRunning(s, id)
    ensures Inv(job, Put(s, id, Queued(s.tasks[id].task)))
  {
    PutInv(job, s, id, Queued(s.tasks[id].task));
  }

  lemma RedeferInv(job: Job, s: State, id: nat, j: nat)
    requires WfJob(job) && Inv(job, s) && IsRunning(s, id)
    requires j <= s.tasks[id].done && j < |Todo(job, s.tasks[id].task)|
    ensures Inv(job, Replace(s, id, Resume(s.tasks[id].task, Todo(job, s.tasks[id].task)[j])))
  {
    ResumeNoGap(job, s, s.tasks[id], j);
    ReplaceInv(job, s, id, Resume(s.tasks[id].task, Todo(job, s.tasks[id].task)[j]));
  }

  /** Every state of every run satisfies the invariant. */
  lemma {:induction false} RunInv(job: Job, deleteMarker: bool, log: seq<Action>)
    requires WfJob(job) && IsRun(job, Initial(deleteMarker), log)
    ensures Inv(job, After(job, Initial(deleteMarker), log))
    decreases |log|
  {
    if log == [] {
      InitialInv(job, deleteMarker);
    } else {
      var front := log[..|log| - 1];
      RunInv(job, deleteMarker, front);
      StepInv(job, After(job, Initial(deleteMarker), front), log[|log| - 1]);
    }
  }

  // ----------------------------------------------------------------- theorems

  /** Every matched key passes the filters of some shard. */
  predicate Covers(job: Job) {
    forall k :: k in job.pks ==> exists i :: 0 <= i < |job.ranges| && ShardAdmits(job.ranges[i], k)
  }

  /** The filters only ever drop a bound of the range, so what a range contains its shard admits. */
  lemma DatastoreCovers(pks: seq<int>, sampled: seq<int>, shards: int)
    ensures Covers(Job(pks, DatastoreKeyRanges(sampled, shards)))
  {
    var ranges := DatastoreKeyRanges(sampled, shards);
    forall k | k in pks ensures exists i :: 0 <= i < |ranges| && ShardAdmits(ranges[i], k) {
      DatastorePartition(sampled, shards, k);
      var i :| OnlyIn(ranges, i, k);
      assert ShardAdmits(ranges[i], k);
    }
  }

  lemma SequentialJobCovers(pks: seq<int>, shards: int)
    requires StrictlyAscending(pks) && pks != [] && shards > 0
    ensures Covers(Job(pks, SequentialRanges(pks[0], pks[|pks| - 1], shards)))
  {
    var ranges := SequentialRanges(pks[0], pks[|pks| - 1], shards);
    forall k | k in pks ensures exists i :: 0 <= i < |ranges| && ShardAdmits(ranges[i], k) {
      SequentialCovers(pks[0], pks[|pks| - 1], shards, k);
      var i :| 0 <= i < |ranges| && Contains(ranges[i], k);
      assert ShardAdmits(ranges[i], k);
    }
  }

  /**
   finalize is enqueued at most once, and only after the callback has completed on every matched key;
   it has been enqueued exactly when creation finished and no task is left.
   */
  lemma FinalizeOnceAfterAll(job: Job, deleteMarker: bool, log: seq<Action>)
    requires WfJob(job) && Covers(job) && IsRun(job, Initial(deleteMarker), log)
    ensures var s := After(job, Initial(deleteMarker), log);
            && s.finalizes <= 1
            && (s.finalizes == 1 ==> forall k :: k in job.pks ==> k in s.calls)
            && (s.finalizes == 1 <==> s.created == |job.ranges| > 0 && Live(job, s) == 0)
  {
    var s := After(job, Initial(deleteMarker), log);
    RunInv(job, deleteMarker, log);
    NoneLive(job, s.tasks);
    if s.finalizes == 1 {
      assert !PhaseOf(job, s).Generating? && !PhaseOf(job, s).Aborted?;
      forall k | k in job.pks ensures k in s.calls {
        var i :| 0 <= i < |job.ranges| && ShardAdmits(job.ranges[i], k);
        assert ShardDone(job, s, i);
      }
    }
  }

  /** The counters of an existing marker, and what a finished marker means. */
  lemma MarkerCounts(job: Job, deleteMarker: bool, log: seq<Action>)
    requires WfJob(job) && IsRun(job, Initial(deleteMarker), log)
    ensures var s := After(job, Initial(deleteMarker), log);
            s.marker.Some? ==>
              && s.marker.value.shardsComplete + Live(job, s) == s.marker.value.shardCount == s.created
              && (s.marker.value.isReady <==> s.marker.value.shardCount == |job.ranges| > 0)
              && (IsFinished(s.marker.value) <==> s.finalizes == 1)
  {
    RunInv(job, deleteMarker, log);
  }

  /**
   Readiness is permanent: a step from a ready marker keeps it ready with the same count, or is the last
   completion, which enqueues finalize and removes the marker exactly when asked to.
   */
  lemma ReadyIsPermanent(job: Job, s: State, a: Action)
    requires WfJob(job) && Inv(job, s) && Ready(s) && Enabled(job, s, a)
    ensures var m, s' := s.marker.value, Apply(job, s, a);
            && m.shardCount == |job.ranges|
            && (s'.marker.None? <==> m.deleteOnCompletion && s'.finalizes == s.finalizes + 1)
            && (s'.marker.Some? ==> s'.marker.value == m.(shardsComplete := s'.marker.value.shardsComplete))
            && (s'.finalizes == s.finalizes + 1 <==> a.Complete? && Live(job, s) == 1)
  {
  }

  /** The marker carries the wish it was created with, and is gone after finalize exactly when that was its removal. */
  predicate Obeys(s: State, deleteMarker: bool) {
    && (s.marker.Some? ==> s.marker.value.deleteOnCompletion == deleteMarker)
    && (s.finalizes == 1 ==> (s.marker.None? <==> deleteMarker))
    && (s.marker.None? ==> s.finalizes == 1 || s.generator.GaveUp?)
  }

  lemma StepObeys(job: Job, s: State, a: Action, deleteMarker: bool)
    requires Inv(job, s) && Obeys(s, deleteMarker) && Enabled(job, s, a)
    ensures Obeys(Apply(job, s, a), deleteMarker)
  {
    hide TasksSound, Accounted, NoGap, Todo;
    NoneLive(job, s.tasks);
  }

  /** In every run the last completion removes the marker if that was asked for at its creation, and else keeps it. */
  lemma {:induction false} RemovedIffAsked(job: Job, deleteMarker: bool, log: seq<Action>)
    requires WfJob(job) && IsRun(job, Initial(deleteMarker), log)
    ensures Obeys(After(job, Initial(deleteMarker), log), deleteMarker)
    decreases |log|
  {
    hide Inv;
    if log != [] {
      var front := log[..|log| - 1];
      RemovedIffAsked(job, deleteMarker, front);
      RunInv(job, deleteMarker, front);
      StepObeys(job, After(job, Initial(deleteMarker), front), log[|log| - 1], deleteMarker);
    }
  }

  /**
   Once creation gave up no callback ever runs and finalize is never enqueued; the only step that a
   left-over task can take is to be dropped.
   */
  lemma AbortedNeverRuns(job: Job, deleteMarker: bool, log: seq<Action>, a: Action)
    requires WfJob(job) && IsRun(job, Initial(deleteMarker), log)
    requires After(job, Initial(deleteMarker), log).generator.GaveUp?
    ensures var s := After(job, Initial(deleteMarker), log);
            && s.calls == multiset{} && s.finalizes == 0
            && (Enabled(job, s, a) <==> a.Drop? && IsQueued(s, a.id))
            && (Enabled(job, s, a) ==> Apply(job, s, a).generator.GaveUp?
                                       && Live(job, Apply(job, s, a)) == Live(job, s) - 1)
  {
    var s := After(job, Initial(deleteMarker), log);
    RunInv(job, deleteMarker, log);
    if Enabled(job, s, a) { TallyPut(LiveTasks, job, s.tasks, a.id, Gone); }
  }

  /** A key of the shard that is not done yet lies in the part of the query still to be iterated. */
  predicate StillToCome(job: Job, t: TaskState, k: int)
    requires !t.Gone?
  {
    var todo := Todo(job, t.task);
    k in todo && (t.Running? ==> t.done <= |todo| && k in todo[t.done..])
  }

  lemma UndoneStillToCome(job: Job, s: State, t: TaskState, k: int)
    requires !t.Gone? && t.task.shard < |job.ranges| && NoGap(job, s, t)
    requires k in job.pks && ShardAdmits(job.ranges[t.task.shard], k) && k !in s.calls
    ensures StillToCome(job, t, k)
  {
  }

  /** Resume without gaps: at every point a shard's undone keys are all still ahead of its task. */
  lemma ResumeWithoutGaps(job: Job, deleteMarker: bool, log: seq<Action>, id: nat, k: int)
    requires WfJob(job) && IsRun(job, Initial(deleteMarker), log) && k in job.pks
    requires id < |After(job, Initial(deleteMarker), log).tasks|
    requires !After(job, Initial(deleteMarker), log).tasks[id].Gone?
    ensures var s := After(job, Initial(deleteMarker), log);
            && s.tasks[id].task.shard < |job.ranges|
            && (ShardAdmits(job.ranges[s.tasks[id].task.shard], k) && k !in s.calls
                ==> StillToCome(job, s.tasks[id], k))
  {
    var s := After(job, Initial(deleteMarker), log);
    RunInv(job, deleteMarker, log);
    if ShardAdmits(job.ranges[s.tasks[id].task.shard], k) && k !in s.calls {
      UndoneStillToCome(job, s, s.tasks[id], k);
    }
  }
}
