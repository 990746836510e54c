/**
 The sharded background iteration of djangae/tasks/deferred.py as a transition system: one marker,
 the tasks ever enqueued for it, and the log of callback completions.

 A commit of `transaction.atomic` together with its on-commit enqueue is one step, and a task is
 consumed by the step that ends it; a task whose invocation raises or crashes is queued again as it was.
 */
module Sharding {
  import opened Common
  import opened KeyRanges

  /** The matched primary keys in order, and the ranges they are sharded by. */
  datatype Job = Job(pks: seq<int>, ranges: seq<Range>)

  predicate WfJob(job: Job) {
    StrictlyAscending(job.pks)
  }

  /** DeferIterationMarker. */
  datatype Marker = Marker(isReady: bool, shardCount: nat, shardsComplete: nat, deleteOnCompletion: bool)

  predicate IsFinished(m: Marker) {
    m.isReady && m.shardCount == m.shardsComplete
  }

  /** A `_process_shard` task: its shard, and the extra pk__gte filter gained when it was re-deferred. */
  datatype Task = Task(shard: nat, from: Option<int>)

  /** What became of an enqueued task; a running one has completed `done` callbacks. */
  datatype TaskState = Queued(task: Task) | Running(task: Task, done: nat) | Gone

  datatype Generator = Active | GaveUp | Crashed

  datatype State = State(
    marker: Option<Marker>,
    tasks: seq<TaskState>,
    created: nat,
    generator: Generator,
    calls: multiset<int>,
    finalizes: nat)

  datatype Action =
    | MakeShard
    | GiveUp
    | GeneratorCrash
    | Drop(id: nat)
    | Redefer(id: nat)
    | Start(id: nat)
    | Callback(id: nat)
    | Timeout(id: nat)
    | CallbackError(id: nat)
    | LateError(id: nat)
    | Crash(id: nat)
    | Complete(id: nat)

  // ------------------------------------------------------------------ queries

  /** A bound is only applied when it is truthy: None and 0 both leave the query as it is. */
  predicate Truthy(bound: Option<int>) {
    bound.Some? && bound.value != 0
  }

  /** The pk__gte and pk__lt filters of one shard. */
  predicate ShardAdmits(r: Range, k: int) {
    && (Truthy(r.start) ==> r.start.value <= k)
    && (Truthy(r.end) ==> k < r.end.value)
  }

  predicate Admits(r: Range, from: Option<int>, k: int) {
    ShardAdmits(r, k) && (from.Some? ==> from.value <= k)
  }

  /** The primary keys a task's query returns, in order. */
  function Select(pks: seq<int>, r: Range, from: Option<int>): (s: seq<int>)
    ensures forall k :: k in s <==> k in pks && Admits(r, from, k)
    ensures |s| <= |pks|
  {
    if pks == [] then []
    else (if Admits(r, from, pks[0]) then [pks[0]] else []) + Select(pks[1..], r, from)
  }

  function Todo(job: Job, t: Task): seq<int> {
    if t.shard < |job.ranges| then Select(job.pks, job.ranges[t.shard], t.from) else []
  }

  /** The task re-deferred from lastPk; a falsy lastPk adds no filter. */
  function Resume(t: Task, lastPk: int): Task {
    if lastPk != 0 then t.(from := Some(lastPk)) else t
  }

  lemma {:induction false} SelectSame(pks: seq<int>, r: Range, a: Option<int>, b: Option<int>)
    requires forall k :: k in pks ==> Admits(r, a, k) == Admits(r, b, k)
    ensures Select(pks, r, a) == Select(pks, r, b)
  {
    if pks != [] {
      assert pks[0] in pks && forall k :: k in pks[1..] ==> k in pks;
      SelectSame(pks[1..], r, a, b);
    }
  }

  /** Resuming from the j-th result returns exactly the results from j on. */
  lemma {:induction false} SelectResume(pks: seq<int>, r: Range, from: Option<int>, j: nat)
    requires StrictlyAscending(pks) && j < |Select(pks, r, from)|
    ensures Select(pks, r, Some(Select(pks, r, from)[j])) == Select(pks, r, from)[j..]
    decreases |pks|, 1
  {
    var s, tail := Select(pks, r, from), Select(pks[1..], r, from);
    var v := s[j];
    if Admits(r, from, pks[0]) {
      assert s == [pks[0]] + tail;
      if j == 0 {
        assert forall k :: k in pks[1..] ==> v < k;
        SelectSame(pks[1..], r, Some(v), from);
      } else {
        assert v == tail[j - 1];
        SelectResumeTail(pks, r, from, j - 1, v);
        assert s[j..] == tail[j - 1..];
      }
    } else {
      SelectResumeTail(pks, r, from, j, v);
    }
  }

  /** The same when the result is not the first key. */
  lemma {:induction false} SelectResumeTail(pks: seq<int>, r: Range, from: Option<int>, j: nat, v: int)
    requires StrictlyAscending(pks) && pks != []
    requires j < |Select(pks[1..], r, from)| && v == Select(pks[1..], r, from)[j]
    ensures Select(pks, r, Some(v)) == Select(pks[1..], r, from)[j..]
    decreases |pks|, 0
  {
    assert v in pks[1..] by {
      assert v in Select(pks[1..], r, from);
    }
    assert !Admits(r, Some(v), pks[0]);
    SelectResume(pks[1..], r, from, j);
  }

  lemma TodoResume(job: Job, t: Task, j: nat)
    requires WfJob(job) && j < |Todo(job, t)|
    ensures Todo(job, t)[j] != 0 ==> Todo(job, Resume(t, Todo(job, t)[j])) == Todo(job, t)[j..]
  {
    SelectResume(job.pks, job.ranges[t.shard], t.from, j);
  }

  // -------------------------------------------------------------------- steps

  function Initial(deleteMarker: bool): State {
    State(Some(Marker(false, 0, 0, deleteMarker)), [], 0, Active, multiset{}, 0)
  }

  predicate IsQueued(s: State, id: nat) {
    id < |s.tasks| && s.tasks[id].Queued?
  }

  predicate IsRunning(s: State, id: nat) {
    id < |s.tasks| && s.tasks[id].Running?
  }

  /** Callbacks are left to run. */
  predicate IsIterating(job: Job, s: State, id: nat) {
    IsRunning(s, id) && s.tasks[id].done < |Todo(job, s.tasks[id].task)|
  }

  predicate Ready(s: State) {
    s.marker.Some? && s.marker.value.isReady
  }

  predicate Enabled(job: Job, s: State, a: Action) {
    match a
    case MakeShard => s.generator.Active? && s.created < |job.ranges| && s.marker.Some?
    case GiveUp => s.generator.Active? && s.created < |job.ranges|
    case GeneratorCrash => s.generator.Active? && s.created < |job.ranges|
    case Drop(id) => IsQueued(s, id) && s.marker.None?
    case Redefer(id) => IsQueued(s, id) && s.marker.Some? && !s.marker.value.isReady
    case Start(id) => IsQueued(s, id) && Ready(s)
    case Callback(id) => IsIterating(job, s, id)
    case Timeout(id) => IsIterating(job, s, id)
    case CallbackError(id) => IsIterating(job, s, id)
    case LateError(id) => IsRunning(s, id) && s.tasks[id].done <= |Todo(job, s.tasks[id].task)|
    case Crash(id) => IsRunning(s, id)
    case Complete(id) => IsRunning(s, id) && s.tasks[id].done == |Todo(job, s.tasks[id].task)|
  }

  /** The current invocation ends and a new task is enqueued. */
  function Replace(s: State, id: nat, t: Task): State
    requires id < |s.tasks|
  {
    s.(tasks := s.tasks[id := Gone] + [Queued(t)])
  }

  function Put(s: State, id: nat, t: TaskState): State
    requires id < |s.tasks|
  {
    s.(tasks := s.tasks[id := t])
  }

  /** The make_shard transaction. */
  function CommitShard(job: Job, s: State): State
    requires s.marker.Some?
  {
    var m := s.marker.value;
    s.(marker := Some(m.(shardCount := m.shardCount + 1, isReady := m.isReady || s.created + 1 == |job.ranges|)),
       tasks := s.tasks + [Queued(Task(s.created, None))],
       created := s.created + 1)
  }

  /** The mark_shard_complete transaction. */
  function CommitCompletion(s: State): State {
    if s.marker.None? then s else
    var m := s.marker.value.(shardsComplete := s.marker.value.shardsComplete + 1);
    if m.shardsComplete == m.shardCount then
      s.(marker := if m.deleteOnCompletion then None else Some(m), finalizes := s.finalizes + 1)
    else s.(marker := Some(m))
  }

  function Apply(job: Job, s: State, a: Action): State
    requires Enabled(job, s, a)
  {
    match a
    case MakeShard => CommitShard(job, s)
    case GiveUp => s.(marker := None, generator := GaveUp)
    case GeneratorCrash => s.(generator := Crashed)
    case Drop(id) => Put(s, id, Gone)
    case Redefer(id) => Replace(s, id, s.tasks[id].task)
    case Start(id) => Put(s, id, Running(s.tasks[id].task, 0))
    case Callback(id) =>
      var t := s.tasks[id];
      Put(s, id, Running(t.task, t.done + 1)).(calls := s.calls + multiset{Todo(job, t.task)[t.done]})
    case Timeout(id) =>
      var t := s.tasks[id];
      Replace(s, id, Resume(t.task, Todo(job, t.task)[t.done]))
    case CallbackError(id) =>
      var t := s.tasks[id];
      if t.done == 0 then Put(s, id, Queued(t.task))
      else Replace(s, id, Resume(t.task, Todo(job, t.task)[t.done]))
    case LateError(id) =>
      var t := s.tasks[id];
      if t.done == 0 then Put(s, id, Queued(t.task))
      else Replace(s, id, Resume(t.task, Todo(job, t.task)[t.done - 1]))
    case Crash(id) => Put(s, id, Queued(s.tasks[id].task))
    case Complete(id) => CommitCompletion(Put(s, id, Gone))
  }

  // --------------------------------------------------------------------- runs

  predicate IsRun(job: Job, s: State, log: seq<Action>)
    decreases |log|, 0
  {
    log == [] ||
    var front := log[..|log| - 1];
    IsRun(job, s, front) && Enabled(job, After(job, s, front), log[|log| - 1])
  }

  function After(job: Job, s: State, log: seq<Action>): State
    requires IsRun(job, s, log)
    decreases |log|, 1
  {
    if log == [] then s
    else Apply(job, After(job, s, log[..|log| - 1]), log[|log| - 1])
  }

  lemma RunExtend(job: Job, s: State, log: seq<Action>, a: Action)
    requires IsRun(job, s, log) && Enabled(job, After(job, s, log), a)
    ensures IsRun(job, s, log + [a]) && After(job, s, log + [a]) == Apply(job, After(job, s, log), a)
  {
  }

  // ------------------------------------------------------------------- gauges

  /** Which completions are meant: those by the tasks of one shard, or on one key, or all. */
  datatype Scope = Scope(shard: Option<nat>, key: Option<int>)

  /** How many of a shard's keys are in scope. */
  function Matching(of: Scope, shard: nat, keys: seq<int>): nat {
    if keys == [] then 0
    else
      (if (of.shard.None? || of.shard.value == shard) && (of.key.None? || of.key.value == keys[0]) then 1 else 0)
      + Matching(of, shard, keys[1..])
  }

  lemma MatchingNone(of: Scope, shard: nat)
    ensures Matching(of, shard, []) == 0
  {
  }

  lemma {:induction false} MatchingConcat(of: Scope, shard: nat, a: seq<int>, b: seq<int>)
    ensures Matching(of, shard, a + b) == Matching(of, shard, a) + Matching(of, shard, b)
  {
    if a == [] {
      assert a + b == b;
    } else {
      assert (a + b)[1..] == a[1..] + b;
      MatchingConcat(of, shard, a[1..], b);
    }
  }

  /** Quantities added up over the tasks. */
  datatype Gauge = LiveTasks | KeysLeft(of: Scope) | Potential

  function Weight(g: Gauge, job: Job, t: TaskState): nat {
    match t
    case Gone => 0
    case Queued(task) =>
      (match g
       case LiveTasks => 1
       case KeysLeft(of) => Matching(of, task.shard, Todo(job, task))
       case Potential => 3 * |Todo(job, task)| + 2)
    case Running(task, done) =>
      var rest := if done <= |Todo(job, task)| then Todo(job, task)[done..] else [];
      (match g
       case LiveTasks => 1
       case KeysLeft(of) => Matching(of, task.shard, rest)
       case Potential => 3 * |rest| + if done == 0 then 1 else 3)
  }

  function Tally(g: Gauge, job: Job, tasks: seq<TaskState>): nat {
    if tasks == [] then 0
    else Tally(g, job, tasks[..|tasks| - 1]) + Weight(g, job, tasks[|tasks| - 1])
  }

  lemma {:induction false} TallyPut(g: Gauge, job: Job, tasks: seq<TaskState>, id: nat, t: TaskState)
    requires id < |tasks|
    ensures Tally(g, job, tasks[id := t]) == Tally(g, job, tasks) - Weight(g, job, tasks[id]) + Weight(g, job, t)
    ensures Tally(g, job, tasks) >= Weight(g, job, tasks[id])
  {
    var n := |tasks| - 1;
    if id == n {
      assert tasks[id := t][..n] == tasks[..n];
    } else {
      assert tasks[id := t][..n] == tasks[..n][id := t];
      TallyPut(g, job, tasks[..n], id, t);
    }
  }

  lemma TallyAppend(g: Gauge, job: Job, tasks: seq<TaskState>, t: TaskState)
    ensures Tally(g, job, tasks + [t]) == Tally(g, job, tasks) + Weight(g, job, t)
  {
  }

  lemma TallyReplace(g: Gauge, job: Job, tasks: seq<TaskState>, id: nat, t: Task)
    requires id < |tasks|
    ensures Tally(g, job, tasks[id := Gone] + [Queued(t)])
            == Tally(g, job, tasks) - Weight(g, job, tasks[id]) + Weight(g, job, Queued(t))
  {
    TallyPut(g, job, tasks, id, Gone);
    TallyAppend(g, job, tasks[id := Gone], Queued(t));
  }

  /** The number of queued or running tasks. */
  function Live(job: Job, s: State): nat {
    Tally(LiveTasks, job, s.tasks)
  }

  lemma {:induction false} NoneLive(job: Job, tasks: seq<TaskState>)
    ensures Tally(LiveTasks, job, tasks) == 0 <==> forall id :: 0 <= id < |tasks| ==> tasks[id].Gone?
  {
    if tasks != [] {
      NoneLive(job, tasks[..|tasks| - 1]);
      assert forall id :: 0 <= id < |tasks| - 1 ==> tasks[..|tasks| - 1][id] == tasks[id];
    }
  }
}
