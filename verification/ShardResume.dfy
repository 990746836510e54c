/** Where re-deferred tasks go on from, and which keys make them start over. */
module ShardResume {
  import opened Common
  import opened KeyRanges
  import opened Sharding
  import opened ShardSafety

  // -------------------------------------------------------------------- key 0

  /** Key 0, which adds no filter when a task is re-deferred from it, is nowhere but first in the task's query. */
  predicate ZeroLeads(job: Job, t: Task) {
    forall j :: 0 < j < |Todo(job, t)| ==> Todo(job, t)[j] != 0
  }

  predicate NoStall(job: Job, s: State) {
    forall id :: 0 <= id < |s.tasks| && !s.tasks[id].Gone? ==> ZeroLeads(job, s.tasks[id].task)
  }

  predicate NoShardStalls(job: Job) {
    forall i :: 0 <= i < |job.ranges| ==> ZeroLeads(job, Task(i, None))
  }

  lemma {:induction false} SelectAscending(pks: seq<int>, r: Range, from: Option<int>)
    requires StrictlyAscending(pks)
    ensures StrictlyAscending(Select(pks, r, from))
  {
    hide Admits;
    if pks != [] {
      var tail := Select(pks[1..], r, from);
      SelectAscending(pks[1..], r, from);
      forall j | 0 <= j < |tail| ensures pks[0] < tail[j] {
        assert tail[j] in tail;
      }
    }
  }

  /** Negative key k is in shard i together with key 0. */
  predicate MeetsZero(job: Job, i: nat, k: int)
    requires i < |job.ranges|
  {
    k < 0 && k in job.pks && 0 in job.pks && ShardAdmits(job.ranges[i], k) && ShardAdmits(job.ranges[i], 0)
  }

  /** No shard stalls exactly when no negative key shares a shard with key 0. */
  lemma NoShardStallsIff(job: Job)
    requires WfJob(job)
    ensures NoShardStalls(job) <==> forall i, k :: 0 <= i < |job.ranges| ==> !MeetsZero(job, i, k)
  {
    hide ZeroLeads, MeetsZero;
    if i, k :| 0 <= i < |job.ranges| && MeetsZero(job, i, k) {
      ZeroLeadsIff(job, i);
      assert !ZeroLeads(job, Task(i, None));
    } else {
      forall i | 0 <= i < |job.ranges| ensures ZeroLeads(job, Task(i, None)) { ZeroLeadsIff(job, i); }
    }
  }

  lemma ZeroLeadsIff(job: Job, i: nat)
    requires WfJob(job) && i < |job.ranges|
    ensures ZeroLeads(job, Task(i, None)) <==> forall k :: !MeetsZero(job, i, k)
  {
    var todo := Todo(job, Task(i, None));
    SelectAscending(job.pks, job.ranges[i], None);
    if j :| 0 < j < |todo| && todo[j] == 0 {
      assert todo[0] in todo && todo[j] in todo && todo[0] < 0;
      assert MeetsZero(job, i, todo[0]);
    }
    if k :| MeetsZero(job, i, k) {
      assert k in todo && 0 in todo;
      var x, z :| 0 <= x < |todo| && 0 <= z < |todo| && todo[x] == k && todo[z] == 0;
      assert 0 < z && Todo(job, Task(i, None))[z] == 0;
      assert !ZeroLeads(job, Task(i, None));
    }
  }

  /** Re-deferring from the j-th result leaves exactly the results from j on. */
  lemma ResumeZeroLeads(job: Job, t: Task, j: nat)
    requires WfJob(job) && ZeroLeads(job, t) && j < |Todo(job, t)|
    ensures Todo(job, Resume(t, Todo(job, t)[j])) == Todo(job, t)[j..]
    ensures ZeroLeads(job, Resume(t, Todo(job, t)[j]))
  {
    TodoResume(job, t, j);
  }

  // ------------------------------------------------------- ending an invocation

  /** The steps that end an invocation before its query is done. */
  predicate EndsEarly(a: Action) {
    a.Timeout? || a.CallbackError? || a.LateError? || a.Crash?
  }

  lemma RunningBounds(job: Job, s: State, id: nat)
    requires Inv(job, s) && IsRunning(s, id)
    ensures s.tasks[id].done <= |Todo(job, s.tasks[id].task)|
  {
  }

  /** The position from which the task left behind by such a step goes on. */
  function Back(a: Action, done: nat): nat
    requires EndsEarly(a)
  {
    if a.Crash? then 0 else if a.LateError? then Max(done - 1, 0) else done
  }

  /** The task left behind: as it was, or re-deferred. */
  function NextTask(job: Job, t: TaskState, a: Action): Task
    requires EndsEarly(a) && t.Running? && Back(a, t.done) <= |Todo(job, t.task)|
    requires !a.Crash? && (t.done > 0 || a.Timeout?) ==> Back(a, t.done) < |Todo(job, t.task)|
  {
    if a.Crash? || (t.done == 0 && !a.Timeout?) then t.task
    else Resume(t.task, Todo(job, t.task)[Back(a, t.done)])
  }

  /** It is of the same shard, and has exactly the results from that position on to do. */
  lemma NextTaskTodo(job: Job, s: State, a: Action)
    requires WfJob(job) && NoStall(job, s) && Inv(job, s) && Enabled(job, s, a) && EndsEarly(a)
    ensures var t := s.tasks[a.id];
            && t.done <= |Todo(job, t.task)| && Back(a, t.done) <= t.done
            && (!a.Crash? && (t.done > 0 || a.Timeout?) ==> Back(a, t.done) < |Todo(job, t.task)|)
            && var next := NextTask(job, t, a);
            next.shard == t.task.shard && Todo(job, next) == Todo(job, t.task)[Back(a, t.done)..]
            && ZeroLeads(job, next)
  {
    RunningBounds(job, s, a.id);
    hide ZeroLeads, Todo, Inv, Resume;
    var t := s.tasks[a.id];
    assert t.task.shard == Resume(t.task, 0).shard && t.task.shard == Resume(t.task, 1).shard by { SameShard(t.task); }
    if !a.Crash? && (t.done > 0 || a.Timeout?) {
      ResumeZeroLeads(job, t.task, Back(a, t.done));
      SameShard(t.task);
    }
  }

  lemma SameShard(t: Task)
    ensures forall k :: Resume(t, k).shard == t.shard
  {
  }

  /** What such a step does to any gauge: the running task's share is replaced by that of the task left behind. */
  lemma EndTally(g: Gauge, job: Job, s: State, a: Action)
    requires Enabled(job, s, a) && EndsEarly(a) && s.tasks[a.id].done <= |Todo(job, s.tasks[a.id].task)|
    ensures var t := s.tasks[a.id];
            Tally(g, job, Apply(job, s, a).tasks)
            == Tally(g, job, s.tasks) - Weight(g, job, t) + Weight(g, job, Queued(NextTask(job, t, a)))
  {
    hide Todo, Tally, Weight;
    var t := s.tasks[a.id];
    if a.Crash? || (t.done == 0 && !a.Timeout?) {
      TallyPut(g, job, s.tasks, a.id, Queued(t.task));
    } else {
      TallyReplace(g, job, s.tasks, a.id, NextTask(job, t, a));
    }
  }

  lemma StepNoStall(job: Job, s: State, a: Action)
    requires WfJob(job) && Inv(job, s) && NoStall(job, s) && Enabled(job, s, a)
    requires a.MakeShard? ==> ZeroLeads(job, Task(s.created, None))
    ensures NoStall(job, Apply(job, s, a))
  {
    if EndsEarly(a) {
      NextTaskTodo(job, s, a);
      EndNoStall(job, s, a);
    } else {
      hide ZeroLeads, Todo, Inv;
    }
  }

  lemma EndNoStall(job: Job, s: State, a: Action)
    requires NoStall(job, s) && Enabled(job, s, a) && EndsEarly(a)
    requires s.tasks[a.id].done <= |Todo(job, s.tasks[a.id].task)|
    requires ZeroLeads(job, NextTask(job, s.tasks[a.id], a))
    ensures NoStall(job, Apply(job, s, a))
  {
    hide ZeroLeads, Todo, Resume;
  }

  /** A queued task finds no marker only after the creation was given up. */
  lemma DropNeedsAbort(job: Job, s: State, id: nat)
    requires Inv(job, s) && Enabled(job, s, Drop(id))
    ensures s.generator.GaveUp?
  {
    NoneLive(job, s.tasks);
  }
}
