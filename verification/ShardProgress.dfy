/** Every run of a ready job reaches finalize, unless a task starts over again and again at key 0. */
module ShardProgress {
  import opened Common
  import opened Arith
  import opened Sharding
  import opened ShardSafety
  import opened ShardResume

  // -------------------------------------------------------------- termination

  /** Exceptions, crashes, and timeouts before the first callback of an invocation. */
  predicate Faulty(s: State, a: Action) {
    match a
    case CallbackError(_) => true
    case LateError(_) => true
    case Crash(_) => true
    case Timeout(id) => IsRunning(s, id) && s.tasks[id].done == 0
    case _ => false
  }

  function FaultsIn(job: Job, s: State, log: seq<Action>): nat
    requires IsRun(job, s, log)
    decreases |log|
  {
    if log == [] then 0
    else
      var front := log[..|log| - 1];
      FaultsIn(job, s, front) + if Faulty(After(job, s, front), log[|log| - 1]) then 1 else 0
  }

  /** A queue of tasks with this much potential can take this many fault-free steps. */
  function Energy(job: Job, s: State): nat {
    Tally(Potential, job, s.tasks)
  }

  /** How far a single fault can throw the iteration back. */
  function Setback(job: Job): nat {
    3 * |job.pks| + 2
  }

  /** Changing one task to a state of smaller potential. */
  lemma PutEnergy(job: Job, s: State, id: nat, t: TaskState)
    requires id < |s.tasks| && Weight(Potential, job, t) < Weight(Potential, job, s.tasks[id])
    ensures Tally(Potential, job, s.tasks[id := t]) < Energy(job, s)
  {
    TallyPut(Potential, job, s.tasks, id, t);
  }

  /** A step of a healthy worker uses up potential. */
  lemma AdvanceEnergy(job: Job, s: State, a: Action)
    requires Enabled(job, s, a) && (a.Start? || a.Callback? || a.Complete?)
    ensures Energy(job, Apply(job, s, a)) < Energy(job, s)
  {
    hide Todo, Tally;
    var t := s.tasks[a.id];
    if a.Start? {
      PutEnergy(job, s, a.id, Running(t.task, 0));
    } else if a.Callback? {
      PutEnergy(job, s, a.id, Running(t.task, t.done + 1));
    } else {
      PutEnergy(job, s, a.id, Gone);
    }
  }

  /** From readiness on every step without a fault uses up potential, and a fault adds a bounded amount. */
  lemma StepEnergy(job: Job, s: State, a: Action)
    requires WfJob(job) && NoStall(job, s) && Inv(job, s) && Ready(s) && Enabled(job, s, a)
    ensures Energy(job, Apply(job, s, a)) <= Energy(job, s) + if Faulty(s, a) then Setback(job) else -1
  {
    if a.Start? || a.Callback? || a.Complete? {
      AdvanceEnergy(job, s, a);
    } else {
      ReadySteps(job, s, a);
      EndEnergy(job, s, a);
    }
  }

  /** An invocation that ends early leaves less to do, or is a fault and puts back at most its whole query. */
  lemma EndEnergy(job: Job, s: State, a: Action)
    requires WfJob(job) && NoStall(job, s) && Inv(job, s) && Enabled(job, s, a) && EndsEarly(a)
    ensures Energy(job, Apply(job, s, a)) <= Energy(job, s) + if Faulty(s, a) then Setback(job) else -1
  {
    NextTaskTodo(job, s, a);
    hide Inv, NoStall, ZeroLeads, Todo, Tally;
    EndTally(Potential, job, s, a);
    var t := s.tasks[a.id].task;
    assert |Todo(job, t)| <= |job.pks| by { TodoLength(job, t); }
  }

  lemma TodoLength(job: Job, t: Task)
    ensures |Todo(job, t)| <= |job.pks|
  {
  }

  lemma ReadySteps(job: Job, s: State, a: Action)
    requires Inv(job, s) && Ready(s) && Enabled(job, s, a)
    ensures a.Start? || a.Callback? || a.Complete? || a.Timeout? || a.CallbackError? || a.LateError? || a.Crash?
  {
  }

  /** The steps that a number of faults can cost. */
  function Allowance(job: Job, faults: nat): nat {
    if faults == 0 then 0 else Allowance(job, faults - 1) + Setback(job) + 1
  }

  lemma {:induction false} AllowanceIsProduct(job: Job, faults: nat)
    ensures Allowance(job, faults) == faults * (Setback(job) + 1)
  {
    if faults > 0 {
      AllowanceIsProduct(job, faults - 1);
      MulSub(faults, 1, Setback(job) + 1);
    }
  }

  /** Once finalize is enqueued nothing happens any more. */
  lemma FinishedIsFinal(job: Job, s: State, a: Action)
    requires Inv(job, s) && s.finalizes == 1
    ensures !Enabled(job, s, a)
  {
    NoneLive(job, s.tasks);
  }

  /** Until then a healthy worker or queue has a step to take on any live task. */
  lemma UnfinishedHasStep(job: Job, s: State) returns (a: Action)
    requires Inv(job, s) && Ready(s) && s.finalizes == 0
    ensures Enabled(job, s, a) && !Faulty(s, a)
  {
    NoneLive(job, s.tasks);
    var id :| 0 <= id < |s.tasks| && !s.tasks[id].Gone?;
    a := if s.tasks[id].Queued? then Start(id)
         else if s.tasks[id].done < |Todo(job, s.tasks[id].task)| then Callback(id)
         else Complete(id);
  }

  /**
   A run from a ready state with f faults has at most Energy + f * (Setback + 1) steps, and finalize is
   enqueued exactly when no fault-free step is left: with finitely many faults every run comes to an end,
   and it ends with finalize enqueued.
   */
  lemma ReadyJobTerminates(job: Job, s: State, log: seq<Action>)
    requires WfJob(job) && NoStall(job, s) && Inv(job, s) && Ready(s) && IsRun(job, s, log)
    ensures |log| <= Energy(job, s) + FaultsIn(job, s, log) * (Setback(job) + 1)
    ensures var e := After(job, s, log);
            e.finalizes == 1 <==> forall a :: Enabled(job, e, a) ==> Faulty(e, a)
  {
    RunEnergy(job, s, log);
    AllowanceIsProduct(job, FaultsIn(job, s, log));
    var e := After(job, s, log);
    if e.finalizes == 1 {
      forall a ensures !Enabled(job, e, a) { FinishedIsFinal(job, e, a); }
    } else {
      var a := UnfinishedHasStep(job, e);
    }
  }

  /** Ready and still at work, or done for good. */
  predicate Settled(job: Job, s: State) {
    Inv(job, s) && NoStall(job, s) && (s.finalizes == 1 || (Ready(s) && s.finalizes == 0))
  }

  lemma SettledStep(job: Job, s: State, a: Action)
    requires WfJob(job) && Settled(job, s) && Enabled(job, s, a)
    ensures Settled(job, Apply(job, s, a))
    ensures Energy(job, Apply(job, s, a)) <= Energy(job, s) + if Faulty(s, a) then Setback(job) else -1
  {
    if s.finalizes == 1 { FinishedIsFinal(job, s, a); }
    StepInv(job, s, a);
    StepNoStall(job, s, a);
    StepEnergy(job, s, a);
  }

  lemma {:induction false} RunEnergy(job: Job, s: State, log: seq<Action>)
    requires WfJob(job) && Settled(job, s) && IsRun(job, s, log)
    ensures Settled(job, After(job, s, log))
    ensures Energy(job, After(job, s, log)) + |log| <= Energy(job, s) + Allowance(job, FaultsIn(job, s, log))
    decreases |log|
  {
    if log != [] {
      var front, a := log[..|log| - 1], log[|log| - 1];
      RunEnergy(job, s, front);
      SettledStep(job, After(job, s, front), a);
      LastFault(job, s, log);
    }
  }

  lemma LastFault(job: Job, s: State, log: seq<Action>)
    requires log != [] && IsRun(job, s, log)
    ensures var front, a := log[..|log| - 1], log[|log| - 1];
            Allowance(job, FaultsIn(job, s, log))
            == Allowance(job, FaultsIn(job, s, front))
               + if Faulty(After(job, s, front), a) then Setback(job) + 1 else 0
  {
    hide Apply, After, Setback, Faulty;
  }

  /**
   A timeout after at least one callback shortens the rest of the shard exactly when the key it stopped
   at is truthy: key 0 adds no filter, and the next invocation starts over.
   */
  lemma TimeoutProgress(job: Job, t: Task, j: nat)
    requires WfJob(job) && 0 < j < |Todo(job, t)|
    ensures |Todo(job, Resume(t, Todo(job, t)[j]))| < |Todo(job, t)| <==> Todo(job, t)[j] != 0
  {
    TodoResume(job, t, j);
  }

  // ------------------------------------------------------ a completion that is lost

  /** One attempt of mark_shard_complete: the marker it finds, and whether its transaction commits. */
  datatype Attempt = Attempt(found: Option<Marker>, commits: bool)

  /** This completion deletes the marker, which also takes the primary key off the object in memory. */
  predicate Deletes(m: Marker) {
    m.deleteOnCompletion && m.shardsComplete + 1 == m.shardCount
  }

  lemma DeletesIff(s: State)
    requires s.marker.Some?
    ensures CommitCompletion(s).marker.None? <==> Deletes(s.marker.value)
  {
  }

  /** Whether attempts on the same object get the shard counted; without its primary key it finds no marker. */
  predicate GetsCounted(hasPk: bool, attempts: seq<Attempt>)
    decreases |attempts|
  {
    attempts != [] &&
    var a := attempts[0];
    if !hasPk || a.found.None? then !a.commits && GetsCounted(hasPk, attempts[1..])
    else a.commits || GetsCounted(!Deletes(a.found.value), attempts[1..])
  }

  lemma {:induction false} WithoutPk(attempts: seq<Attempt>)
    ensures !GetsCounted(false, attempts)
    decreases |attempts|
  {
    if attempts != [] {
      WithoutPk(attempts[1..]);
    }
  }

  /** Attempts that find the marker, the last of which commits, count the shard iff no failed one had deleted it. */
  lemma {:induction false} GetsCountedIff(attempts: seq<Attempt>)
    requires attempts != []
    requires forall i :: 0 <= i < |attempts|
                         ==> attempts[i].found.Some? && (attempts[i].commits <==> i == |attempts| - 1)
    ensures GetsCounted(true, attempts)
            <==> forall i :: 0 <= i < |attempts| - 1 ==> !Deletes(attempts[i].found.value)
    decreases |attempts|
  {
    if |attempts| > 1 {
      if Deletes(attempts[0].found.value) {
        WithoutPk(attempts[1..]);
      } else {
        GetsCountedIff(attempts[1..]);
      }
    }
  }

  /** A shard that is lost this way was the last one; nothing can happen afterwards, and finalize is never enqueued. */
  lemma LostForGood(job: Job, s: State, id: nat, a: Action)
    requires Inv(job, s) && Ready(s) && Enabled(job, s, Complete(id)) && Deletes(s.marker.value)
    ensures Put(s, id, Gone).finalizes == 0 && Put(s, id, Gone).marker.Some?
    ensures !Enabled(job, Put(s, id, Gone), a)
  {
    hide Todo;
    TallyPut(LiveTasks, job, s.tasks, id, Gone);
    NoneLive(job, s.tasks[id := Gone]);
  }
}
