/**
 * The threaded job executor as a state machine: every lock-protected block and every move of the pool
 * is one step, and the theorems hold for all interleavings.
 */
module JobExecutor {
  import opened Options

  type JobId = string
  type TaskId = nat
  type WaiterId = nat

  datatype JobState = Created | ValidatingInputs | Rejected | Running | Completed | Failed

  datatype JobRecord = JobRecord(id: JobId, state: JobState, locale: Option<string>)
  {
    predicate IsTerminal()
    {
      state == Completed || state == Rejected || state == Failed
    }
  }

  /**
   * A pool task: running the service, about to store its outcome, outcome stored but future not yet
   * completed, completed, or failed with an exception.
   */
  datatype Phase = Pending | Ready(record: JobRecord) | Stored | Done | Raised

  datatype Task = Task(job: JobId, phase: Phase)

  /** A `wait` call: blocked on the future it found, about to read the record, or over. */
  datatype Stage =
    | Blocked(future: Option<TaskId>)
    | Woken(future: Option<TaskId>)
    | Returned(record: Option<JobRecord>)
    | Aborted

  datatype Waiter = Waiter(job: JobId, stage: Stage)

  datatype State = State(
    records: map<JobId, JobRecord>,
    futures: map<JobId, TaskId>,
    tasks: map<TaskId, Task>,
    waiters: map<WaiterId, Waiter>)
  {
    function RecordOf(id: JobId): Option<JobRecord>
    {
      if id in records then Some(records[id]) else None
    }

    predicate Settled(id: JobId)
    {
      id in records && records[id].IsTerminal()
    }
  }

  datatype Step =
    | Submit(id: JobId, locale: Option<string>, task: TaskId)
    | RunReturns(task: TaskId, record: JobRecord)
    | RunRaises(task: TaskId)
    | Store(task: TaskId)
    | Finish(task: TaskId)
    | WaitStarts(waiter: WaiterId, id: JobId)
    | WaitWakes(waiter: WaiterId)
    | WaitAborts(waiter: WaiterId)
    | WaitReturns(waiter: WaiterId)

  function RunningRecord(id: JobId, locale: Option<string>): JobRecord
  {
    JobRecord(id, Running, locale)
  }

  /** `future.result` returns once the task is done; without a future there is nothing to wait for. */
  predicate MayWake(s: State, future: Option<TaskId>)
  {
    future.Some? ==> future.value in s.tasks && s.tasks[future.value].phase == Done
  }

  predicate Enabled(s: State, step: Step)
  {
    match step
    case Submit(_, _, f) => f !in s.tasks
    case RunReturns(f, _) => f in s.tasks && s.tasks[f].phase == Pending
    case RunRaises(f) => f in s.tasks && s.tasks[f].phase == Pending
    case Store(f) => f in s.tasks && s.tasks[f].phase.Ready?
    case Finish(f) => f in s.tasks && s.tasks[f].phase == Stored
    case WaitStarts(w, _) => w !in s.waiters
    case WaitWakes(w) => w in s.waiters && s.waiters[w].stage.Blocked? && MayWake(s, s.waiters[w].stage.future)
    case WaitAborts(w) => w in s.waiters && s.waiters[w].stage.Blocked? && s.waiters[w].stage.future.Some?
    case WaitReturns(w) => w in s.waiters && s.waiters[w].stage.Woken?
  }

  function Apply(s: State, step: Step): State
    requires Enabled(s, step)
  {
    match step
    case Submit(id, locale, f) =>
      s.(records := s.records[id := RunningRecord(id, locale)], futures := s.futures[id := f],
        tasks := s.tasks[f := Task(id, Pending)])
    case RunReturns(f, record) => s.(tasks := s.tasks[f := Task(s.tasks[f].job, Ready(record))])
    case RunRaises(f) => s.(tasks := s.tasks[f := Task(s.tasks[f].job, Raised)])
    case Store(f) =>
      var record := s.tasks[f].phase.record;
      s.(records := s.records[record.id := record], tasks := s.tasks[f := Task(s.tasks[f].job, Stored)])
    case Finish(f) => s.(tasks := s.tasks[f := Task(s.tasks[f].job, Done)])
    case WaitStarts(w, id) =>
      s.(waiters := s.waiters[w := Waiter(id, Blocked(if id in s.futures then Some(s.futures[id]) else None))])
    case WaitWakes(w) => s.(waiters := s.waiters[w := Waiter(s.waiters[w].job, Woken(s.waiters[w].stage.future))])
    case WaitAborts(w) => s.(waiters := s.waiters[w := Waiter(s.waiters[w].job, Aborted)])
    case WaitReturns(w) =>
      s.(waiters := s.waiters[w := Waiter(s.waiters[w].job, Returned(s.RecordOf(s.waiters[w].job)))])
  }

  /** The service returns a terminal record of the job it was given. */
  predicate Honest(s: State, step: Step)
    requires Enabled(s, step)
  {
    step.RunReturns? ==> step.record.IsTerminal() && step.record.id == s.tasks[step.task].job
  }

  predicate Fresh(s: State, step: Step)
  {
    step.Submit? ==> step.id !in s.records
  }

  /** A job that is not created, validating or running is over. */
  lemma TerminalStates(r: JobRecord)
    ensures r.IsTerminal() <==> r.state !in {Created, ValidatingInputs, Running}
  {
  }

  // ---------------------------------------------------------------- the executor object

  /** The object's fields; each method body is one lock-protected block. */
  class ThreadedJobExecutor {
    var records: map<JobId, JobRecord>
    var futures: map<JobId, TaskId>
    var tasks: map<TaskId, Task>
    var waiters: map<WaiterId, Waiter>

    function Abstract(): State
      reads this
    {
      State(records, futures, tasks, waiters)
    }

    constructor ()
      ensures Abstract() == State(map[], map[], map[], map[])
    {
      records, futures, tasks, waiters := map[], map[], map[], map[];
    }

    /** `submit`: a RUNNING record and a new pool task, in one critical section. */
    method SubmitJob(id: JobId, locale: Option<string>, task: TaskId) returns (record: JobRecord)
      requires Enabled(Abstract(), Submit(id, locale, task))
      modifies this
      ensures Abstract() == Apply(old(Abstract()), Submit(id, locale, task))
      ensures record.state == Running && Some(record) == Abstract().RecordOf(id)
    {
      record := JobRecord(id, Running, locale);
      records := records[id := record];
      tasks := tasks[task := Task(id, Pending)];
      futures := futures[id := task];
    }

    /** The end of `_execute`: the outcome is stored under the id it carries; the pool completes the future later. */
    method StoreOutcome(task: TaskId)
      requires Enabled(Abstract(), Store(task))
      modifies this
      ensures Abstract() == Apply(old(Abstract()), Store(task))
    {
      var outcome := tasks[task].phase.record;
      records := records[outcome.id := outcome];
      tasks := tasks[task := Task(tasks[task].job, Stored)];
    }

    method Get(id: JobId) returns (record: Option<JobRecord>)
      ensures record == Abstract().RecordOf(id)
    {
      record := if id in records then Some(records[id]) else None;
    }

    /** The first critical section of `wait`: look up the future. */
    method WaitLookup(waiter: WaiterId, id: JobId)
      requires Enabled(Abstract(), WaitStarts(waiter, id))
      modifies this
      ensures Abstract() == Apply(old(Abstract()), WaitStarts(waiter, id))
    {
      var future := if id in futures then Some(futures[id]) else None;
      waiters := waiters[waiter := Waiter(id, Blocked(future))];
    }

    /** The second one, after `future.result` returned: read the record. */
    method WaitRead(waiter: WaiterId) returns (record: Option<JobRecord>)
      requires Enabled(Abstract(), WaitReturns(waiter))
      modifies this
      ensures Abstract() == Apply(old(Abstract()), WaitReturns(waiter))
      ensures record == old(Abstract()).RecordOf(old(waiters[waiter]).job)
    {
      record := Get(waiters[waiter].job);
      waiters := waiters[waiter := Waiter(waiters[waiter].job, Returned(record))];
    }
  }

  // ---------------------------------------------------------------- runs

  ghost predicate Legal(s: State, steps: seq<Step>)
    decreases steps
  {
    steps != [] ==>
      Enabled(s, steps[0]) && Honest(s, steps[0]) && Fresh(s, steps[0]) && Legal(Apply(s, steps[0]), steps[1..])
  }

  ghost function After(s: State, steps: seq<Step>): State
    requires Legal(s, steps)
    decreases steps
  {
    if steps == [] then s else After(Apply(s, steps[0]), steps[1..])
  }

  const START := State(map[], map[], map[], map[])

  /** What holds between any two steps of a run with fresh ids and an honest service. */
  ghost predicate Invariant(s: State)
  {
    Linked(s) && (forall f {:trigger TaskSound(s, f)} :: f in s.tasks ==> TaskSound(s, f)) &&
    forall w {:trigger WaiterSound(s, w)} :: w in s.waiters ==> WaiterSound(s, w)
  }

  /** Records, futures and tasks belong together one to one. */
  ghost predicate Linked(s: State)
  {
    s.records.Keys == s.futures.Keys &&
    (forall id ::
      id in s.records ==> s.records[id].id == id && (s.records[id].state == Running || s.records[id].IsTerminal())) &&
    (forall id :: id in s.futures ==> s.futures[id] in s.tasks && s.tasks[s.futures[id]].job == id) &&
    forall f :: f in s.tasks ==> s.tasks[f].job in s.futures && s.futures[s.tasks[f].job] == f
  }

  /** A task has stored its outcome exactly when the record of its job is terminal. */
  ghost predicate TaskSound(s: State, f: TaskId)
    requires f in s.tasks
  {
    var task := s.tasks[f];
    (task.phase == Stored || task.phase == Done <==> s.Settled(task.job)) &&
    (task.phase.Ready? ==> task.phase.record.IsTerminal() && task.phase.record.id == task.job)
  }

  /** A waiter watches the task of its job, and is woken only when the record is terminal. */
  ghost predicate WaiterSound(s: State, w: WaiterId)
    requires w in s.waiters
  {
    match s.waiters[w].stage
    case Blocked(future) => Watches(s, s.waiters[w].job, future)
    case Woken(future) => Watches(s, s.waiters[w].job, future) && (future.Some? ==> s.Settled(s.waiters[w].job))
    case _ => true
  }

  ghost predicate Watches(s: State, id: JobId, future: Option<TaskId>)
  {
    future.Some? ==> future.value in s.tasks && s.tasks[future.value].job == id
  }

  lemma StepKeepsLinked(s: State, step: Step)
    requires Invariant(s) && Enabled(s, step) && Honest(s, step) && Fresh(s, step)
    ensures Linked(Apply(s, step))
  {
    if step.Store? { assert TaskSound(s, step.task); }
  }

  lemma StepKeepsTasks(s: State, step: Step, f: TaskId)
    requires Invariant(s) && Enabled(s, step) && Honest(s, step) && Fresh(s, step) && f in Apply(s, step).tasks
    ensures TaskSound(Apply(s, step), f)
  {
    if f in s.tasks { assert TaskSound(s, f); }
    if step.Submit? {
      SubmitKeepsTasks(s, step, f);
    } else if step.Store? {
      StoreKeepsTasks(s, step, f);
    }
  }

  lemma SubmitKeepsTasks(s: State, step: Step, f: TaskId)
    requires Invariant(s) && Enabled(s, step) && Fresh(s, step) && step.Submit? && f in Apply(s, step).tasks
    ensures TaskSound(Apply(s, step), f)
  {
    if f in s.tasks { assert TaskSound(s, f); }
  }

  lemma StoreKeepsTasks(s: State, step: Step, f: TaskId)
    requires Invariant(s) && Enabled(s, step) && step.Store? && f in Apply(s, step).tasks
    ensures TaskSound(Apply(s, step), f)
  {
    assert TaskSound(s, f) && TaskSound(s, step.task);
  }

  lemma StepKeepsWaiters(s: State, step: Step, w: WaiterId)
    requires Invariant(s) && Enabled(s, step) && Honest(s, step) && Fresh(s, step) && w in Apply(s, step).waiters
    ensures WaiterSound(Apply(s, step), w)
  {
    if w in s.waiters { assert WaiterSound(s, w); }
    if step.Store? { assert TaskSound(s, step.task); }
    if step == WaitWakes(w) && s.waiters[w].stage.future.Some? { assert TaskSound(s, s.waiters[w].stage.future.value); }
  }

  lemma StepKeepsInvariant(s: State, step: Step)
    requires Invariant(s) && Enabled(s, step) && Honest(s, step) && Fresh(s, step)
    ensures Invariant(Apply(s, step))
  {
    StepKeepsLinked(s, step);
    forall f | f in Apply(s, step).tasks
      ensures TaskSound(Apply(s, step), f)
    {
      StepKeepsTasks(s, step, f);
    }
    forall w | w in Apply(s, step).waiters
      ensures WaiterSound(Apply(s, step), w)
    {
      StepKeepsWaiters(s, step, w);
    }
  }

  lemma {:induction false} RunKeepsInvariant(s: State, steps: seq<Step>)
    requires Invariant(s) && Legal(s, steps)
    ensures Invariant(After(s, steps))
    decreases steps
  {
    if steps != [] {
      StepKeepsInvariant(s, steps[0]);
      RunKeepsInvariant(Apply(s, steps[0]), steps[1..]);
    }
  }

  // ---------------------------------------------------------------- the life of a record

  /** One step leaves a record alone, creates it as RUNNING, or replaces RUNNING by terminal. */
  lemma StepOfRecord(s: State, step: Step, id: JobId)
    requires Invariant(s) && Enabled(s, step) && Honest(s, step) && Fresh(s, step)
    ensures var before, after := s.RecordOf(id), Apply(s, step).RecordOf(id);
      before == after ||
      (before == None && after.Some? && after.value.state == Running) ||
      (before.Some? && before.value.state == Running && after.Some? && after.value.IsTerminal())
  {
    if step.Store? { assert TaskSound(s, step.task); }
  }

  /** Once stored, a terminal record never changes again. */
  lemma {:induction false} TerminalIsFinal(s: State, steps: seq<Step>, id: JobId)
    requires Invariant(s) && Legal(s, steps) && s.Settled(id)
    ensures After(s, steps).RecordOf(id) == s.RecordOf(id)
    decreases steps
  {
    if steps != [] {
      StepOfRecord(s, steps[0], id);
      StepKeepsInvariant(s, steps[0]);
      TerminalIsFinal(Apply(s, steps[0]), steps[1..], id);
    }
  }

  /** A RUNNING record stays until it is replaced by a terminal one; it never disappears. */
  lemma {:induction false} RunningUntilTerminal(s: State, steps: seq<Step>, id: JobId)
    requires Invariant(s) && Legal(s, steps) && id in s.records
    ensures id in After(s, steps).records
    ensures After(s, steps).records[id] == s.records[id] ||
      (s.records[id].state == Running && After(s, steps).Settled(id))
    decreases steps
  {
    if steps != [] {
      StepOfRecord(s, steps[0], id);
      StepKeepsInvariant(s, steps[0]);
      RunningUntilTerminal(Apply(s, steps[0]), steps[1..], id);
    }
  }

  /** The number of steps that change the record of `id`. */
  ghost function Changes(s: State, steps: seq<Step>, id: JobId): nat
    requires Legal(s, steps)
    decreases steps
  {
    if steps == [] then 0
    else
      (if Apply(s, steps[0]).RecordOf(id) != s.RecordOf(id) then 1 else 0) + Changes(Apply(s, steps[0]), steps[1..], id)
  }

  /** How far along its life a record is: absent, running, terminal. */
  function Age(s: State, id: JobId): nat
  {
    if id !in s.records then 0 else if s.records[id].IsTerminal() then 2 else 1
  }

  /** Every change is one stage of life, so over a whole run a record changes at most twice. */
  lemma {:induction false} ChangesCountStages(s: State, steps: seq<Step>, id: JobId)
    requires Invariant(s) && Legal(s, steps)
    ensures Age(s, id) + Changes(s, steps, id) == Age(After(s, steps), id) <= 2
    decreases steps
  {
    if steps != [] {
      StepOfRecord(s, steps[0], id);
      StepKeepsInvariant(s, steps[0]);
      ChangesCountStages(Apply(s, steps[0]), steps[1..], id);
    }
  }

  // ---------------------------------------------------------------- wait

  /** A `wait` that found a future returns a terminal record, under every interleaving. */
  lemma WaitReturnsTerminal(steps: seq<Step>, w: WaiterId)
    requires Legal(START, steps)
    requires var s := After(START, steps);
      Enabled(s, WaitReturns(w)) && s.waiters[w].stage.future.Some?
    ensures var s := After(START, steps);
      s.Settled(s.waiters[w].job) &&
      Apply(s, WaitReturns(w)).waiters[w].stage == Returned(Some(s.records[s.waiters[w].job]))
  {
    RunKeepsInvariant(START, steps);
    var s := After(START, steps);
    assert WaiterSound(s, w);
  }

  ghost predicate Submits(steps: seq<Step>, id: JobId, f: TaskId)
  {
    exists locale :: Submit(id, locale, f) in steps
  }

  /** A job is submitted once, and a task belongs to one submission. */
  lemma {:induction false} NoSecondSubmit(s: State, steps: seq<Step>, id: JobId, f: TaskId)
    requires Invariant(s) && Legal(s, steps)
    ensures id in s.records ==> !Submits(steps, id, f)
    ensures f in s.tasks ==> !Submits(steps, id, f)
    decreases steps
  {
    if steps != [] {
      StepKeepsInvariant(s, steps[0]);
      StepOfRecord(s, steps[0], id);
      NoSecondSubmit(Apply(s, steps[0]), steps[1..], id, f);
      assert steps == [steps[0]] + steps[1..];
    }
  }

  /** A submitted job is finished exactly when its outcome is stored. */
  lemma {:induction false} StoredIffSettled(s: State, steps: seq<Step>, id: JobId)
    requires Invariant(s) && Legal(s, steps) && id in s.futures
    ensures id in After(s, steps).records
    ensures After(s, steps).Settled(id) <==> s.Settled(id) || Store(s.futures[id]) in steps
    decreases steps
  {
    if steps != [] {
      var t := Apply(s, steps[0]);
      StepKeepsInvariant(s, steps[0]);
      StepKeepsFuture(s, steps[0], id);
      StoredIffSettled(t, steps[1..], id);
      assert steps == [steps[0]] + steps[1..];
    }
  }

  lemma StepKeepsFuture(s: State, step: Step, id: JobId)
    requires Invariant(s) && Enabled(s, step) && Honest(s, step) && Fresh(s, step) && id in s.futures
    ensures id in Apply(s, step).futures && Apply(s, step).futures[id] == s.futures[id]
    ensures Apply(s, step).Settled(id) <==> s.Settled(id) || step == Store(s.futures[id])
  {
    assert TaskSound(s, s.futures[id]);
    if step.Store? { assert TaskSound(s, step.task); }
  }

  /** Submitted during `steps`, and not finished by the end of them. */
  ghost predicate SubmittedUnfinished(steps: seq<Step>, id: JobId)
  {
    exists f :: Submits(steps, id, f) && Store(f) !in steps
  }

  /** A job that was unknown is running exactly when it was submitted and its outcome is not stored. */
  lemma {:induction false} RunningIffUnfinished(s: State, steps: seq<Step>, id: JobId)
    requires Invariant(s) && Legal(s, steps) && id !in s.records
    ensures id in After(s, steps).records && !After(s, steps).Settled(id) <==> SubmittedUnfinished(steps, id)
    decreases steps
  {
    if steps != [] {
      var step, rest, t := steps[0], steps[1..], Apply(s, steps[0]);
      assert steps == [step] + rest;
      StepKeepsInvariant(s, step);
      StepOfRecord(s, step, id);
      if step.Submit? && step.id == id {
        StoredIffSettled(t, rest, id);
        OnlySubmission(t, step, rest, id);
      } else {
        UnknownStays(s, step, id);
        RunningIffUnfinished(t, rest, id);
        UnfinishedLater(s, step, rest, id);
      }
    }
  }

  lemma UnknownStays(s: State, step: Step, id: JobId)
    requires Invariant(s) && Enabled(s, step) && Honest(s, step) && id !in s.records && !(step.Submit? && step.id == id)
    ensures id !in Apply(s, step).records
  {
    if step.Store? { assert TaskSound(s, step.task); }
  }

  lemma OnlySubmission(t: State, step: Step, rest: seq<Step>, id: JobId)
    requires Invariant(t) && Legal(t, rest) && id in t.records && step.Submit? && step.id == id
    ensures SubmittedUnfinished([step] + rest, id) <==> Store(step.task) !in rest
  {
    var steps := [step] + rest;
    forall f
      ensures Submits(steps, id, f) <==> f == step.task
    {
      NoSecondSubmit(t, rest, id, f);
      if f == step.task { assert Submit(id, step.locale, f) in steps; }
    }
    assert forall f :: Store(f) in steps <==> Store(f) in rest;
  }

  lemma UnfinishedLater(s: State, step: Step, rest: seq<Step>, id: JobId)
    requires Invariant(s) && Enabled(s, step) && Honest(s, step) && Fresh(s, step) && Legal(Apply(s, step), rest)
    requires !(step.Submit? && step.id == id)
    ensures SubmittedUnfinished([step] + rest, id) <==> SubmittedUnfinished(rest, id)
  {
    var steps := [step] + rest;
    StepKeepsInvariant(s, step);
    forall f
      ensures Submits(steps, id, f) <==> Submits(rest, id, f)
      ensures Submits(rest, id, f) ==> (Store(f) in steps <==> Store(f) in rest)
    {
      NoSecondSubmit(Apply(s, step), rest, id, f);
      if locale :| Submit(id, locale, f) in rest { assert Submit(id, locale, f) in steps; }
    }
  }

  /** A `wait` keeps its job and the future it found until it reads or fails. */
  lemma {:induction false} WaiterKeeps(s: State, steps: seq<Step>, w: WaiterId, id: JobId, future: Option<TaskId>)
    requires Legal(s, steps) && w in s.waiters && s.waiters[w].job == id
    requires s.waiters[w].stage in {Blocked(future), Woken(future)} || s.waiters[w].stage.Returned? ||
      s.waiters[w].stage.Aborted?
    ensures var t := After(s, steps);
      w in t.waiters && t.waiters[w].job == id &&
      (t.waiters[w].stage in {Blocked(future), Woken(future)} || t.waiters[w].stage.Returned? ||
        t.waiters[w].stage.Aborted?)
    decreases steps
  {
    if steps != [] { WaiterKeeps(Apply(s, steps[0]), steps[1..], w, id, future); }
  }

  /**
   * When `wait` returns something else than a terminal record: a call that starts in the state before
   * `WaitStarts(w, id)` and reads after the steps `mid` returns a record that is not terminal exactly
   * when the job is submitted during `mid` and its outcome is not stored during `mid`. Then it had not
   * been submitted before the call started.
   */
  lemma WaitReturnsRunningIff(pre: seq<Step>, w: WaiterId, id: JobId, mid: seq<Step>)
    requires Legal(START, pre) && Legal(After(START, pre), [WaitStarts(w, id)] + mid)
    requires Enabled(After(After(START, pre), [WaitStarts(w, id)] + mid), WaitReturns(w))
    ensures var s := After(After(START, pre), [WaitStarts(w, id)] + mid);
      Apply(s, WaitReturns(w)).waiters[w].stage == Returned(s.RecordOf(id)) &&
      (s.RecordOf(id).Some? && !s.RecordOf(id).value.IsTerminal() <==> SubmittedUnfinished(mid, id))
    ensures SubmittedUnfinished(mid, id) ==> id !in After(START, pre).futures
  {
    var before := After(START, pre);
    var started := Apply(before, WaitStarts(w, id));
    var steps := [WaitStarts(w, id)] + mid;
    assert steps[1..] == mid;
    RunKeepsInvariant(START, pre);
    StepKeepsInvariant(before, WaitStarts(w, id));
    WaiterKeeps(started, mid, w, id, started.waiters[w].stage.future);
    if id in before.futures {
      WaitOnFutureIsTerminal(started, mid, w);
      forall f
        ensures !Submits(mid, id, f)
      {
        NoSecondSubmit(started, mid, id, f);
      }
    } else {
      RunningIffUnfinished(started, mid, id);
    }
  }

  lemma WaitOnFutureIsTerminal(s: State, mid: seq<Step>, w: WaiterId)
    requires Invariant(s) && Legal(s, mid) && Enabled(After(s, mid), WaitReturns(w))
    requires After(s, mid).waiters[w].stage.future.Some?
    ensures After(s, mid).Settled(After(s, mid).waiters[w].job)
  {
    RunKeepsInvariant(s, mid);
    assert WaiterSound(After(s, mid), w);
  }

  /** A job submitted before the call started comes back terminal. */
  lemma {:induction false} SubmittedIsKnown(s: State, steps: seq<Step>, id: JobId, f: TaskId)
    requires Invariant(s) && Legal(s, steps) && Submits(steps, id, f)
    ensures id in After(s, steps).futures
    decreases steps
  {
    var t := Apply(s, steps[0]);
    StepKeepsInvariant(s, steps[0]);
    assert steps == [steps[0]] + steps[1..];
    if id in t.futures {
      StoredIffSettled(t, steps[1..], id);
      RunKeepsInvariant(t, steps[1..]);
    } else {
      SubmittedIsKnown(t, steps[1..], id, f);
    }
  }

  lemma SubmittedBeforeWaitIsTerminal(pre: seq<Step>, w: WaiterId, id: JobId, mid: seq<Step>, f: TaskId)
    requires Legal(START, pre) && Legal(After(START, pre), [WaitStarts(w, id)] + mid) && Submits(pre, id, f)
    requires Enabled(After(After(START, pre), [WaitStarts(w, id)] + mid), WaitReturns(w))
    ensures var s := After(After(START, pre), [WaitStarts(w, id)] + mid);
      s.Settled(id) && Apply(s, WaitReturns(w)).waiters[w].stage == Returned(Some(s.records[id]))
  {
    SubmittedIsKnown(START, pre, id, f);
    WaitReturnsRunningIff(pre, w, id, mid);
    RunKeepsInvariant(START, pre);
    StoredIffSettled(After(START, pre), [WaitStarts(w, id)] + mid, id);
  }

  /** The promise needs the submission first: a `wait` that starts too early can return RUNNING. */
  lemma EarlyWaitMayReturnRunning()
    ensures var steps := [WaitStarts(0, "j"), Submit("j", None, 0), WaitWakes(0), WaitReturns(0)];
      Legal(START, steps) && After(START, steps).waiters[0].stage == Returned(Some(RunningRecord("j", None)))
  {
    var s1 := Apply(START, WaitStarts(0, "j"));
    var s2 := Apply(s1, Submit("j", None, 0));
    var s3 := Apply(s2, WaitWakes(0));
    var s4 := Apply(s3, WaitReturns(0));
    LegalStep(s4, WaitReturns(0), s3, []);
    LegalStep(s3, WaitWakes(0), s2, [WaitReturns(0)]);
    LegalStep(s2, Submit("j", None, 0), s1, [WaitWakes(0), WaitReturns(0)]);
    LegalStep(s1, WaitStarts(0, "j"), START, [Submit("j", None, 0), WaitWakes(0), WaitReturns(0)]);
  }

  lemma LegalStep(t: State, step: Step, s: State, rest: seq<Step>)
    requires Enabled(s, step) && Honest(s, step) && Fresh(s, step) && t == Apply(s, step) && Legal(t, rest)
    ensures Legal(s, [step] + rest) && After(s, [step] + rest) == After(t, rest)
  {
    assert ([step] + rest)[1..] == rest;
  }

  // ---------------------------------------------------------------- failure

  ghost predicate Crashed(s: State, f: TaskId)
  {
    f in s.tasks && s.tasks[f].phase == Raised
  }

  lemma StepKeepsCrashed(s: State, step: Step, f: TaskId)
    requires Enabled(s, step) && Crashed(s, f)
    ensures Crashed(Apply(s, step), f) && Apply(s, step).tasks[f].job == s.tasks[f].job
  {
  }

  /** If the service raises, the job stays RUNNING for good, and its future never completes. */
  lemma {:induction false} CrashedStaysRunning(s: State, steps: seq<Step>, f: TaskId)
    requires Invariant(s) && Legal(s, steps) && Crashed(s, f)
    ensures var t := After(s, steps);
      Crashed(t, f) && s.tasks[f].job in t.records && t.records[s.tasks[f].job].state == Running && !MayWake(t, Some(f))
    decreases steps
  {
    if steps == [] {
      assert TaskSound(s, f);
    } else {
      StepKeepsInvariant(s, steps[0]);
      StepKeepsCrashed(s, steps[0], f);
      CrashedStaysRunning(Apply(s, steps[0]), steps[1..], f);
    }
  }

  /** A `wait` that found the future of such a job never reads a record: it stays blocked or fails. */
  lemma {:induction false} CrashStrandsWaiters(s: State, steps: seq<Step>, f: TaskId, w: WaiterId)
    requires Legal(s, steps) && Crashed(s, f)
    requires w in s.waiters && (s.waiters[w].stage == Blocked(Some(f)) || s.waiters[w].stage == Aborted)
    ensures var t := After(s, steps);
      w in t.waiters && (t.waiters[w].stage == Blocked(Some(f)) || t.waiters[w].stage == Aborted)
    decreases steps
  {
    if steps != [] {
      StepKeepsCrashed(s, steps[0], f);
      CrashStrandsWaiters(Apply(s, steps[0]), steps[1..], f, w);
    }
  }

  // ---------------------------------------------------------------- reused ids

  /** Only terminal outcomes are waiting to be stored; needs no fresh ids. */
  ghost predicate HonestTasks(s: State)
  {
    forall f :: f in s.tasks && s.tasks[f].phase.Ready? ==> s.tasks[f].phase.record.IsTerminal()
  }

  /** Without fresh ids a step takes a terminal record back exactly if it submits that id again. */
  lemma RevertsIffResubmitted(s: State, step: Step, id: JobId)
    requires HonestTasks(s) && Enabled(s, step) && Honest(s, step) && s.Settled(id)
    ensures HonestTasks(Apply(s, step))
    ensures !Apply(s, step).Settled(id) <==> step.Submit? && step.id == id
  {
  }
}
