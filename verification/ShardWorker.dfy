/**
 The code of `_generate_shards` and `_process_shard` over the shared marker and task queue. Every write
 appends the step it takes to a ghost log, so `Valid` says that what the code did, interleaved with
 everybody else's steps, is a run of the transition system.
 */
module ShardWorker {
  import opened Common
  import opened Sharding
  import opened ShardSafety

  /** What goes wrong at one position of the iteration. */
  datatype Mishap = Fine | TimesUp | CallbackRaises | FetchRaises

  datatype Exit = Vanished | NotReady | ShardComplete | Redeferred | Reraised

  predicate ActsOn(a: Action, id: nat) {
    match a
    case MakeShard => false
    case GiveUp => false
    case GeneratorCrash => false
    case _ => a.id == id
  }

  predicate MakesShards(a: Action) {
    a.MakeShard? || a.GiveUp? || a.GeneratorCrash?
  }

  /** The steps of a log that act on one task. */
  function OwnSteps(log: seq<Action>, id: nat): seq<Action> {
    if log == [] then []
    else OwnSteps(log[..|log| - 1], id) + if ActsOn(log[|log| - 1], id) then [log[|log| - 1]] else []
  }

  lemma OwnStepsAppend(log: seq<Action>, a: Action, id: nat)
    ensures OwnSteps(log + [a], id) == OwnSteps(log, id) + if ActsOn(a, id) then [a] else []
  {
  }

  lemma StepKeepsOthers(job: Job, s: State, a: Action, id: nat)
    requires Enabled(job, s, a) && !ActsOn(a, id) && id < |s.tasks|
    ensures id < |Apply(job, s, a).tasks| && Apply(job, s, a).tasks[id] == s.tasks[id]
  {
  }

  /** Steps on other tasks leave a task and its own steps alone. */
  lemma {:induction false} OthersKeep(job: Job, s: State, before: seq<Action>, log: seq<Action>, id: nat)
    requires before <= log && IsRun(job, s, log)
    requires forall i :: |before| <= i < |log| ==> !ActsOn(log[i], id)
    ensures IsRun(job, s, before)
    ensures OwnSteps(log, id) == OwnSteps(before, id)
    ensures id < |After(job, s, before).tasks| ==>
              id < |After(job, s, log).tasks| && After(job, s, log).tasks[id] == After(job, s, before).tasks[id]
  {
    if log != before {
      var front := log[..|log| - 1];
      OthersKeep(job, s, before, front, id);
      if id < |After(job, s, before).tasks| {
        StepKeepsOthers(job, After(job, s, front), log[|log| - 1], id);
      }
    } else {
      assert before == log;
    }
  }

  /** Nobody but the generator changes how many shards there are. */
  lemma {:induction false} OthersKeepGenerator(job: Job, s: State, before: seq<Action>, log: seq<Action>)
    requires before <= log && IsRun(job, s, log)
    requires forall i :: |before| <= i < |log| ==> !MakesShards(log[i])
    ensures IsRun(job, s, before)
    ensures After(job, s, log).created == After(job, s, before).created
    ensures After(job, s, log).generator == After(job, s, before).generator
  {
    if log != before {
      OthersKeepGenerator(job, s, before, log[..|log| - 1]);
    } else {
      assert before == log;
    }
  }

  /** The marker outlives the creation of the shards, and without it nothing has run. */
  lemma GeneratorMarker(job: Job, deleteMarker: bool, log: seq<Action>)
    requires WfJob(job) && IsRun(job, Initial(deleteMarker), log)
    ensures var s := After(job, Initial(deleteMarker), log);
            s.created < |job.ranges| && !s.generator.GaveUp? ==>
              s.marker.Some? && s.calls == multiset{} && s.finalizes == 0
  {
    RunInv(job, deleteMarker, log);
  }

  /** A task that has gone through its whole query leaves nothing of its shard undone. */
  lemma FullyIterated(job: Job, deleteMarker: bool, log: seq<Action>, id: nat)
    requires WfJob(job) && IsRun(job, Initial(deleteMarker), log)
    requires Enabled(job, After(job, Initial(deleteMarker), log), Complete(id))
    ensures var s := After(job, Initial(deleteMarker), log);
            s.tasks[id].task.shard < |job.ranges| && ShardDone(job, s, s.tasks[id].task.shard)
  {
    var s := After(job, Initial(deleteMarker), log);
    RunInv(job, deleteMarker, log);
    IteratedShardDone(job, s, s.tasks[id]);
  }

  /** The step of one turn of the loop. */
  function EndOf(id: nat, mishap: Mishap): Action {
    match mishap
    case TimesUp => Timeout(id)
    case CallbackRaises => CallbackError(id)
    case FetchRaises => LateError(id)
    case Fine => Callback(id)
  }

  /** The turns of the loop from position j of n on, up to the first mishap. */
  function Turns(id: nat, n: nat, mishaps: nat -> Mishap, j: nat): (r: seq<Action>)
    decreases n - j
  {
    if j >= n then []
    else [EndOf(id, mishaps(j))] + if mishaps(j).Fine? then Turns(id, n, mishaps, j + 1) else []
  }

  lemma TurnsFrom(id: nat, n: nat, mishaps: nat -> Mishap, j: nat)
    ensures j < n ==> Turns(id, n, mishaps, j)
                      == [EndOf(id, mishaps(j))] + if mishaps(j).Fine? then Turns(id, n, mishaps, j + 1) else []
    ensures j >= n ==> Turns(id, n, mishaps, j) == []
  {
  }

  predicate AllFine(n: nat, mishaps: nat -> Mishap) {
    forall j :: 0 <= j < n ==> mishaps(j).Fine?
  }

  /** Everything an invocation does on a ready marker: start, turns, and the completion if it gets there. */
  function Script(id: nat, n: nat, mishaps: nat -> Mishap, markFails: bool): seq<Action> {
    [Start(id)] + Turns(id, n, mishaps, 0)
    + if AllFine(n, mishaps) then [if markFails then LateError(id) else Complete(id)] else []
  }

  class Iteration {
    const job: Job
    const deleteMarker: bool
    var marker: Option<Marker>
    var tasks: seq<TaskState>
    var created: nat
    var generator: Generator
    var calls: multiset<int>
    var finalizes: nat
    ghost var log: seq<Action>

    ghost function Abs(): State
      reads this
    {
      State(marker, tasks, created, generator, calls, finalizes)
    }

    ghost predicate Valid()
      reads this
    {
      && WfJob(job)
      && IsRun(job, Initial(deleteMarker), log)
      && Abs() == After(job, Initial(deleteMarker), log)
    }

    /** The marker is created before any shard. */
    constructor (job: Job, deleteMarker: bool)
      requires WfJob(job)
      ensures Valid() && this.job == job && this.deleteMarker == deleteMarker
      ensures Abs() == Initial(deleteMarker)
    {
      this.job := job;
      this.deleteMarker := deleteMarker;
      marker, tasks, created := Some(Marker(false, 0, 0, deleteMarker)), [], 0;
      generator, calls, finalizes, log := Active, multiset{}, 0, [];
    }

    /** Other workers, the queue and the generator run: any number of steps that leave one task alone. */
    method OthersRun(ghost mine: nat)
      requires Valid()
      modifies this
      ensures Valid() && old(log) <= log
      ensures forall i :: |old(log)| <= i < |log| ==> !ActsOn(log[i], mine)
    {
    }

    /** The same, as the invocation that runs a task sees it. */
    method Interleave(id: nat)
      requires Valid() && id < |tasks|
      modifies this
      ensures Valid() && id < |tasks| && tasks[id] == old(tasks[id])
      ensures OwnSteps(log, id) == OwnSteps(old(log), id)
    {
      ghost var before := log;
      OthersRun(id);
      OthersKeep(job, Initial(deleteMarker), before, log, id);
    }

    /** The workers run while shards are being made. */
    method WorkersRun()
      requires Valid()
      modifies this
      ensures Valid() && old(log) <= log
      ensures forall i :: |old(log)| <= i < |log| ==> !MakesShards(log[i])
    {
    }

    /** Records that the fields have just taken a step. */
    ghost method Record(a: Action, was: State)
      requires WfJob(job) && IsRun(job, Initial(deleteMarker), log) && was == After(job, Initial(deleteMarker), log)
      requires Enabled(job, was, a) && Abs() == Apply(job, was, a)
      modifies this`log
      ensures Valid() && log == old(log) + [a]
    {
      RunExtend(job, Initial(deleteMarker), log, a);
      log := log + [a];
    }

    /** defer(_process_shard, ...) */
    method Enqueue(t: Task)
      modifies this`tasks
      ensures tasks == old(tasks) + [Queued(t)]
    {
      tasks := tasks + [Queued(t)];
    }

    /** The make_shard transaction. */
    method MakeShardTransaction()
      requires Valid() && generator.Active? && created < |job.ranges| && marker.Some?
      modifies this
      ensures Valid() && log == old(log) + [MakeShard]
      ensures Abs() == CommitShard(job, old(Abs()))
    {
      ghost var was := Abs();
      var m := marker.value;
      m := m.(shardCount := m.shardCount + 1);
      if created == |job.ranges| - 1 {
        m := m.(isReady := true);
      }
      marker := Some(m);
      Enqueue(Task(created, None));
      created := created + 1;
      Record(MakeShard, was);
    }

    /** One turn of the loop over the key ranges, with the workers running before it. */
    method NextShard(exhausted: bool)
      requires Valid() && created < |job.ranges| && generator.Active?
      modifies this
      ensures Valid()
      ensures if exhausted then created == old(created) && marker.None? && calls == multiset{} && finalizes == 0
              else created == old(created) + 1 && generator.Active?
    {
      ghost var before := log;
      WorkersRun();
      OthersKeepGenerator(job, Initial(deleteMarker), before, log);
      GeneratorMarker(job, deleteMarker, log);
      hide IsRun, After;
      if exhausted {
        ghost var was := Abs();
        marker := None;
        generator := GaveUp;
        Record(GiveUp, was);
      } else {
        MakeShardTransaction();
      }
    }

    /**
     _generate_shards once its marker exists. The retries of a transaction run out for shard i when
     exhausted(i); whatever the workers do meanwhile, nothing has run for a job that is given up.
     */
    method GenerateShards(exhausted: nat -> bool) returns (raised: bool)
      requires Valid() && created == 0 && generator.Active?
      modifies this
      ensures Valid() && created <= |job.ranges|
      ensures forall i :: 0 <= i < created ==> !exhausted(i)
      ensures if raised then created < |job.ranges| && exhausted(created) else created == |job.ranges|
      ensures raised ==> marker.None? && calls == multiset{} && finalizes == 0
    {
      hide Valid;
      raised := false;
      while created < |job.ranges| && !raised
        invariant Valid() && created <= |job.ranges| && (!raised ==> generator.Active?)
        invariant forall i :: 0 <= i < created ==> !exhausted(i)
        invariant raised ==> created < |job.ranges| && exhausted(created)
        invariant raised ==> marker.None? && calls == multiset{} && finalizes == 0
        decreases |job.ranges| - created, !raised
      {
        raised := exhausted(created);
        NextShard(raised);
      }
    }

    /** The mark_shard_complete transaction at the end of task id. */
    method MarkShardComplete(id: nat)
      requires Valid() && Enabled(job, Abs(), Complete(id))
      modifies this
      ensures Valid() && OwnSteps(log, id) == OwnSteps(old(log), id) + [Complete(id)]
      ensures Abs() == CommitCompletion(Put(old(Abs()), id, Gone))
    {
      hide IsRun, After, OwnSteps, Todo;
      ghost var was := Abs();
      tasks := tasks[id := Gone];
      if marker.Some? {
        var m := marker.value;
        m := m.(shardsComplete := m.shardsComplete + 1);
        marker := Some(m);
        if m.shardsComplete == m.shardCount {
          if m.deleteOnCompletion {
            marker := None;
          }
          finalizes := finalizes + 1;
        }
      }
      OwnStepsAppend(log, Complete(id), id);
      Record(Complete(id), was);
    }

    /** The current invocation of task id ends, and a task for the rest is enqueued. */
    method ReDefer(id: nat, lastPk: int, ghost a: Action)
      requires Valid() && IsRunning(Abs(), id) && Enabled(job, Abs(), a) && ActsOn(a, id)
      requires Apply(job, Abs(), a) == Replace(Abs(), id, Resume(tasks[id].task, lastPk))
      modifies this
      ensures Valid() && OwnSteps(log, id) == OwnSteps(old(log), id) + [a]
      ensures Abs() == Apply(job, old(Abs()), a)
    {
      ghost var was := Abs();
      var t := tasks[id].task;
      tasks := tasks[id := Gone];
      if lastPk != 0 {
        t := t.(from := Some(lastPk));
      }
      Enqueue(t);
      OwnStepsAppend(log, a, id);
      Record(a, was);
    }

    /** Re-raise: the queue keeps the task as it was. */
    method ReRaise(id: nat, ghost a: Action)
      requires Valid() && IsRunning(Abs(), id) && Enabled(job, Abs(), a) && ActsOn(a, id)
      requires Apply(job, Abs(), a) == Put(Abs(), id, Queued(tasks[id].task))
      modifies this
      ensures Valid() && OwnSteps(log, id) == OwnSteps(old(log), id) + [a]
      ensures Abs() == Apply(job, old(Abs()), a)
    {
      ghost var was := Abs();
      tasks := tasks[id := Queued(tasks[id].task)];
      OwnStepsAppend(log, a, id);
      Record(a, was);
    }

    /** The except clause for anything but a timeout. */
    method Fail(id: nat, lastPk: int, firstIteration: bool, ghost a: Action) returns (exit: Exit)
      requires Valid() && IsRunning(Abs(), id) && Enabled(job, Abs(), a) && ActsOn(a, id)
      requires Apply(job, Abs(), a) == if firstIteration then Put(Abs(), id, Queued(tasks[id].task))
                                       else Replace(Abs(), id, Resume(tasks[id].task, lastPk))
      modifies this
      ensures Valid() && OwnSteps(log, id) == OwnSteps(old(log), id) + [a]
      ensures Abs() == Apply(job, old(Abs()), a)
      ensures exit == if firstIteration then Reraised else Redeferred
    {
      if firstIteration {
        ReRaise(id, a);
        exit := Reraised;
      } else {
        ReDefer(id, lastPk, a);
        exit := Redeferred;
      }
    }

    /** The reads and decisions before the iteration starts. */
    method BeginShard(id: nat) returns (exit: Option<Exit>)
      requires Valid() && IsQueued(Abs(), id)
      modifies this
      ensures Valid() && id < |tasks|
      ensures exit == if old(marker).None? then Some(Vanished) else if old(Ready(Abs())) then None else Some(NotReady)
      ensures exit.None? ==> tasks[id] == Running(old(tasks[id]).task, 0)
      ensures exit.Some? ==> tasks[id].Gone?
      ensures OwnSteps(log, id) == OwnSteps(old(log), id) +
                [if exit.None? then Start(id) else if exit.value.Vanished? then Drop(id) else Redefer(id)]
    {
      ghost var was := Abs();
      var t := tasks[id].task;
      if marker.None? {
        tasks := tasks[id := Gone];
        OwnStepsAppend(log, Drop(id), id);
        Record(Drop(id), was);
        return Some(Vanished);
      }
      if !marker.value.isReady {
        tasks := tasks[id := Gone];
        Enqueue(t);
        OwnStepsAppend(log, Redefer(id), id);
        Record(Redefer(id), was);
        return Some(NotReady);
      }
      tasks := tasks[id := Running(t, 0)];
      OwnStepsAppend(log, Start(id), id);
      Record(Start(id), was);
      exit := None;
    }

    /** One more callback completes. */
    method RunCallback(id: nat, k: int)
      requires Valid() && IsIterating(job, Abs(), id) && k == Todo(job, tasks[id].task)[tasks[id].done]
      modifies this
      ensures Valid() && OwnSteps(log, id) == OwnSteps(old(log), id) + [Callback(id)]
      ensures Abs() == Apply(job, old(Abs()), Callback(id))
    {
      hide IsRun, After, OwnSteps, Todo;
      ghost var was := Abs();
      tasks := tasks[id := Running(tasks[id].task, tasks[id].done + 1)];
      calls := calls + multiset{k};
      OwnStepsAppend(log, Callback(id), id);
      Record(Callback(id), was);
    }

    /**
     One turn of the loop at position j: it either completes a callback or ends the invocation with the
     step that its mishap calls for.
     */
    method Turn(id: nat, task: Task, j: nat, todo: seq<int>, mishap: Mishap) returns (exit: Option<Exit>)
      requires Valid() && id < |tasks| && tasks[id] == Running(task, j)
      requires todo == Todo(job, task) && j < |todo|
      modifies this
      ensures Valid() && id < |tasks|
      ensures OwnSteps(log, id) == OwnSteps(old(log), id) + [EndOf(id, mishap)]
      ensures exit.None? <==> mishap.Fine?
      ensures exit.None? ==> tasks[id] == Running(task, j + 1)
      ensures exit.Some? ==> exit.value in {Reraised, Redeferred}
      ensures exit == Some(Reraised) ==> tasks[id] == Queued(task)
      ensures exit == Some(Redeferred) ==> tasks[id].Gone?
    {
      hide IsRun, After, OwnSteps;
      Interleave(id);
      match mishap
      case TimesUp =>
        ReDefer(id, todo[j], Timeout(id));
        exit := Some(Redeferred);
      case CallbackRaises =>
        var e := Fail(id, todo[j], j == 0, CallbackError(id));
        exit := Some(e);
      case FetchRaises =>
        var e := Fail(id, if j == 0 then 0 else todo[j - 1], j == 0, LateError(id));
        exit := Some(e);
      case Fine =>
        RunCallback(id, todo[j]);
        exit := None;
    }

    /** The iteration over the shard's query. */
    method Iterate(id: nat, task: Task, todo: seq<int>, mishaps: nat -> Mishap) returns (exit: Option<Exit>)
      requires Valid() && id < |tasks| && tasks[id] == Running(task, 0) && todo == Todo(job, task)
      modifies this
      ensures Valid() && id < |tasks|
      ensures OwnSteps(log, id) == OwnSteps(old(log), id) + Turns(id, |todo|, mishaps, 0)
      ensures exit.None? <==> AllFine(|todo|, mishaps)
      ensures exit.None? ==> tasks[id] == Running(task, |todo|)
      ensures exit.Some? ==> exit.value in {Reraised, Redeferred}
      ensures exit == Some(Reraised) ==> tasks[id] == Queued(task)
      ensures exit == Some(Redeferred) ==> tasks[id].Gone?
    {
      hide IsRun, After, OwnSteps, Todo, Turns;
      ghost var before, done := OwnSteps(log, id), [];
      var j := 0;
      while j < |todo|
        invariant Valid() && j <= |todo| && id < |tasks| && tasks[id] == Running(task, j)
        invariant OwnSteps(log, id) == before + done && AllFine(j, mishaps)
        invariant done + Turns(id, |todo|, mishaps, j) == Turns(id, |todo|, mishaps, 0)
      {
        TurnsFrom(id, |todo|, mishaps, j);
        exit := Turn(id, task, j, todo, mishaps(j));
        done := done + [EndOf(id, mishaps(j))];
        if exit.Some? {
          return;
        }
        j := j + 1;
      }
      TurnsFrom(id, |todo|, mishaps, j);
      exit := None;
    }

    /** The else clause of the iteration. */
    method EndShard(id: nat, task: Task, todo: seq<int>, markFails: bool) returns (exit: Exit)
      requires Valid() && id < |tasks| && todo == Todo(job, task) && tasks[id] == Running(task, |todo|)
      modifies this
      ensures Valid() && id < |tasks|
      ensures OwnSteps(log, id) == OwnSteps(old(log), id) + [if markFails then LateError(id) else Complete(id)]
      ensures tasks[id] == if exit.Reraised? then Queued(task) else Gone
      ensures exit.ShardComplete? <==> !markFails
      ensures exit in {Reraised, Redeferred, ShardComplete}
      ensures !markFails ==> task.shard < |job.ranges| && ShardDone(job, Abs(), task.shard)
    {
      Interleave(id);
      if markFails {
        var n := |todo|;
        exit := Fail(id, if n == 0 then 0 else todo[n - 1], n == 0, LateError(id));
      } else {
        FullyIterated(job, deleteMarker, log, id);
        MarkShardComplete(id);
        exit := ShardComplete;
      }
    }

    /**
     _process_shard on a queued task, with everybody else running before and after every step. The steps
     it takes are the start and then the script of its mishaps, and a completed shard is really done.
     */
    method ProcessShard(id: nat, mishaps: nat -> Mishap, markFails: bool) returns (exit: Exit)
      requires Valid() && IsQueued(Abs(), id)
      modifies this
      ensures Valid() && id < |tasks|
      ensures OwnSteps(log, id) == OwnSteps(old(log), id) +
                match exit
                case Vanished => [Drop(id)]
                case NotReady => [Redefer(id)]
                case _ => Script(id, |Todo(job, old(tasks[id]).task)|, mishaps, markFails)
      ensures tasks[id] == if exit.Reraised? then old(tasks[id]) else Gone
      ensures exit.ShardComplete? ==>
                var shard := old(tasks[id]).task.shard;
                shard < |job.ranges| && ShardDone(job, Abs(), shard)
    {
      hide IsRun, After, OwnSteps, Todo, Turns;
      var task := tasks[id].task;
      Interleave(id);
      var early := BeginShard(id);
      if early.Some? {
        return early.value;
      }
      var todo := Todo(job, task);
      early := Iterate(id, task, todo, mishaps);
      if early.Some? {
        return early.value;
      }
      exit := EndShard(id, task, todo, markFails);
    }
  }
}
