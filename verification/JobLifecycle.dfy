/** The status of a job under every interleaving of its run, cancellation and shutdown: one step per
    section that holds the jobs lock (routes/jobs.py:793-806, 1314-1326, 1401-1426, 1460-1487,
    2305-2318). */
module JobLifecycle {
  import opened Collections

  datatype Status = Pending | Running | Completed | Failed | Cancelled

  /** How far the job's one background task is; `Skipped` when it found the job cancelled. */
  datatype Task = Queued | Skipped | Executing | Stored | Raised | Over

  /** The record of a job; a stored result says whether it carries errors. */
  datatype Job = Job(status: Status, error: Option<string>, finishedAt: Option<int>, result: Option<bool>, task: Task,
                     usage: nat)

  datatype Step =
    | Cancel(now: int)
    | Shutdown(reason: string, now: int)
    | Start
    | Store(errors: bool, summary: Option<string>, now: int)
    | Raise(error: string, now: int)
    | Interrupt
    | Die
    | Conclude(saved: bool)

  predicate Terminal(s: Status) {
    s == Completed || s == Failed || s == Cancelled
  }

  function Or(error: Option<string>, other: string): Option<string> {
    if error.Some? && error.value != "" then error else Some(other)
  }

  /** Requests can come at any time; the background run goes through its sections in order. */
  ghost predicate Enabled(j: Job, step: Step) {
    match step
    case Cancel(_) => true
    case Shutdown(_, _) => true
    case Start => j.task == Queued
    case Store(_, _, _) => j.task == Executing
    case Raise(_, _) => j.task == Executing || j.task == Stored
    case Interrupt => j.task == Executing
    case Die => j.task == Executing || j.task == Skipped
    case Conclude(_) => j.task == Stored || j.task == Raised || j.task == Skipped
  }

  ghost function Apply(j: Job, step: Step): Job
    requires Enabled(j, step)
  {
    match step
    case Cancel(now) =>
      if Terminal(j.status) then j
      else j.(status := Cancelled, error := Or(j.error, "cancelled by user"), finishedAt := Some(now))
    case Shutdown(reason, now) =>
      if Terminal(j.status) then j
      else j.(status := Failed, error := Or(j.error, reason), finishedAt := Some(now))
    case Start => if j.status == Cancelled then j.(task := Skipped) else j.(status := Running, task := Executing)
    case Store(errors, summary, now) =>
      if j.status == Cancelled then j.(task := Stored)
      else
        j.(task := Stored, result := Some(errors), finishedAt := Some(now), status := if errors then Failed else Completed,
           error := if errors && summary.Some? then summary else j.error)
    case Raise(error, now) =>
      if j.status == Cancelled then j.(task := Raised)
      else j.(task := Raised, status := Failed, error := Or(j.error, error), finishedAt := Some(now))
    case Interrupt => j.(task := Raised)
    case Die => j.(task := Over)
    case Conclude(saved) =>
      var due :=
        if j.task == Skipped then j.finishedAt.Some? else saved && Terminal(j.status) && j.finishedAt.Some?;
      j.(task := Over, usage := j.usage + if due then 1 else 0)
  }

  const NEW: Job := Job(Pending, None, None, None, Queued, 0)

  /** What holds in every reachable state. */
  ghost predicate Sound(j: Job) {
    (Terminal(j.status) ==> j.finishedAt.Some? && (j.status == Completed || j.error.Some? || j.result == Some(true))) &&
    (j.result.Some? ==> j.status == Failed || (j.status == Completed && j.result == Some(false))) &&
    (j.status == Completed ==> j.result == Some(false)) &&
    (j.task == Queued || j.task == Executing || j.task == Skipped ==> j.result == None) &&
    (j.task == Skipped ==> j.status == Cancelled) &&
    (j.task == Queued ==> j.status != Running) &&
    j.usage <= 1 && (j.usage == 1 ==> j.task == Over && Terminal(j.status))
  }

  lemma SoundKept(j: Job, step: Step)
    requires Sound(j) && Enabled(j, step)
    ensures Sound(Apply(j, step))
  {
  }

  ghost predicate IsRun(run: seq<Job>, steps: seq<Step>) {
    |run| == |steps| + 1 && run[0] == NEW &&
    forall i :: 0 <= i < |steps| ==> Enabled(run[i], steps[i]) && run[i + 1] == Apply(run[i], steps[i])
  }

  /** Over every run: a stored result means completed or failed, usage is emitted at most once and only for a
      finished job, and a finished job says when and why. */
  lemma {:induction false} RunsAreSound(run: seq<Job>, steps: seq<Step>, i: nat)
    requires IsRun(run, steps) && i < |run|
    ensures Sound(run[i])
  {
    if i > 0 {
      RunsAreSound(run, steps, i - 1);
      SoundKept(run[i - 1], steps[i - 1]);
    }
  }

  /** What the end of the background run finds: a job cancelled before its start, or one that was saved and is
      finished. */
  ghost predicate Billed(j: Job, saved: bool) {
    j.task == Skipped || (saved && (j.status == Completed || j.status == Failed || j.status == Cancelled))
  }

  lemma {:induction false} AfterConclusion(run: seq<Job>, steps: seq<Step>, i: nat, k: nat)
    requires IsRun(run, steps) && i <= k < |run| && run[i].task == Over
    ensures run[k].task == Over && run[k].usage == run[i].usage
    decreases k
  {
    if i < k {
      AfterConclusion(run, steps, i, k - 1);
    }
  }

  /** Usage is emitted for exactly the finished jobs: from the end of its background run on, a job has usage 1 if it was
      cancelled before its start, or saved and finished, and else none; before that it has none. */
  lemma UsageIff(run: seq<Job>, steps: seq<Step>, i: nat, k: nat)
    requires IsRun(run, steps) && i < |steps| && steps[i].Conclude? && k < |run|
    ensures run[k].usage == if k > i && Billed(run[i], steps[i].saved) then 1 else 0
  {
    RunsAreSound(run, steps, i);
    if k <= i {
      RunsAreSound(run, steps, k);
      if run[k].task == Over {
        AfterConclusion(run, steps, k, i);
      }
    } else {
      assert Enabled(run[i], steps[i]) && run[i + 1] == Apply(run[i], steps[i]);
      AfterConclusion(run, steps, i + 1, k);
    }
  }

  /** A cancelled job stays cancelled, with the same error, time and no result. */
  lemma {:induction false} CancelledForever(run: seq<Job>, steps: seq<Step>, i: nat, k: nat)
    requires IsRun(run, steps) && i <= k < |run| && run[i].status == Cancelled
    ensures run[k].status == Cancelled && run[k].error == run[i].error && run[k].finishedAt == run[i].finishedAt
    ensures run[k].result == None
    decreases k
  {
    RunsAreSound(run, steps, k);
    if i < k {
      CancelledForever(run, steps, i, k - 1);
    }
  }

  /** The only ways out of a finished status: a task that starts after a shutdown, and an error after the
      result was stored. */
  lemma FinishedStatusLeft(j: Job, step: Step)
    requires Sound(j) && Enabled(j, step) && Terminal(j.status) && Apply(j, step).status != j.status
    ensures (step == Start && j.status == Failed && Apply(j, step).status == Running) ||
            (step.Store? && j.status == Failed && !step.errors) ||
            (step.Raise? && j.status == Completed && Apply(j, step).status == Failed)
  {
  }

  /** A shutdown failure can be overwritten when the background run starts. */
  lemma FailedCanRestart()
    ensures exists run: seq<Job>, steps: seq<Step> :: IsRun(run, steps) && |run| == 3 && run[1].status == Failed && run[2].status == Running
  {
    var failed := Apply(NEW, Shutdown("server shutdown", 0));
    var run, steps := [NEW, failed, Apply(failed, Start)], [Shutdown("server shutdown", 0), Start];
    assert IsRun(run, steps);
  }

  /** A result without errors that comes after a shutdown failure completes the job. */
  lemma FailedCanComplete()
    ensures exists run: seq<Job>, steps: seq<Step> ::
              IsRun(run, steps) && |run| == 4 && run[2].status == Failed && run[3].status == Completed
  {
    var running := Apply(NEW, Start);
    var failed := Apply(running, Shutdown("server shutdown", 0));
    var stored := Apply(failed, Store(false, None, 1));
    var run, steps := [NEW, running, failed, stored], [Start, Shutdown("server shutdown", 0), Store(false, None, 1)];
    assert IsRun(run, steps);
  }

  /** An error after the result was stored makes a completed job failed, with its result kept. */
  lemma CompletedCanFail()
    ensures exists run: seq<Job>, steps: seq<Step> ::
              IsRun(run, steps) && |run| == 4 && run[2].status == Completed && run[3].status == Failed &&
              run[3].result == run[2].result && run[3].result.Some?
  {
    var running := Apply(NEW, Start);
    var stored := Apply(running, Store(false, None, 0));
    var raised := Apply(stored, Raise("save failed", 1));
    var run, steps := [NEW, running, stored, raised], [Start, Store(false, None, 0), Raise("save failed", 1)];
    assert IsRun(run, steps);
  }

  // ---- the locked sections -----------------------------------------------------------------

  class JobRecord {
    var status: Status
    var error: Option<string>
    var finishedAt: Option<int>
    var result: Option<bool>
    var task: Task
    var usage: nat

    constructor ()
      ensures Value() == NEW
    {
      status, error, finishedAt, result, task, usage := Pending, None, None, None, Queued, 0;
    }

    function Value(): Job
      reads this
    {
      Job(status, error, finishedAt, result, task, usage)
    }

    /** `cancel_job`; a finished job is a conflict. */
    method CancelJob(now: int) returns (conflict: bool)
      modifies this
      ensures Value() == Apply(old(Value()), Cancel(now))
      ensures conflict <==> Terminal(old(status))
      ensures !conflict ==> status == Cancelled
    {
      if status == Completed || status == Failed || status == Cancelled {
        return true;
      }
      status := Cancelled;
      if error.None? || error.value == "" {
        error := Some("cancelled by user");
      }
      finishedAt := Some(now);
      conflict := false;
    }

    /** `mark_running_jobs_failed`, for one job. */
    method MarkFailed(reason: string, now: int)
      modifies this
      ensures Value() == Apply(old(Value()), Shutdown(reason, now))
    {
      if status == Pending || status == Running {
        status := Failed;
        if error.None? || error.value == "" {
          error := Some(reason);
        }
        finishedAt := Some(now);
      }
    }

    method StartRun() returns (cancelledBeforeStart: bool)
      requires task == Queued
      modifies this
      ensures Value() == Apply(old(Value()), Start)
      ensures cancelledBeforeStart <==> old(status) == Cancelled
    {
      cancelledBeforeStart := status == Cancelled;
      if cancelledBeforeStart {
        task := Skipped;
      } else {
        status, task := Running, Executing;
      }
    }

    method StoreResult(errors: bool, summary: Option<string>, now: int) returns (cancelledDuringFinalize: bool)
      requires task == Executing
      modifies this
      ensures Value() == Apply(old(Value()), Store(errors, summary, now))
      ensures cancelledDuringFinalize <==> old(status) == Cancelled
    {
      cancelledDuringFinalize := status == Cancelled;
      task := Stored;
      if !cancelledDuringFinalize {
        result, finishedAt := Some(errors), Some(now);
        if errors {
          status := Failed;
          if summary.Some? {
            error := summary;
          }
        } else {
          status := Completed;
        }
      }
    }

    method FailRun(message: string, now: int)
      requires task == Executing || task == Stored
      modifies this
      ensures Value() == Apply(old(Value()), Raise(message, now))
    {
      task := Raised;
      if status != Cancelled {
        status := Failed;
        if error.None? || error.value == "" {
          error := Some(message);
        }
        finishedAt := Some(now);
      }
    }

    /** The end of the background run; the usage row is emitted here. */
    method ConcludeRun(saved: bool) returns (emitted: bool)
      requires task == Stored || task == Raised || task == Skipped
      modifies this
      ensures Value() == Apply(old(Value()), Conclude(saved))
      ensures emitted <==> usage == old(usage) + 1
    {
      if task == Skipped {
        emitted := finishedAt.Some?;
      } else {
        emitted := saved && (status == Completed || status == Failed || status == Cancelled) && finishedAt.Some?;
      }
      task := Over;
      if emitted {
        usage := usage + 1;
      }
    }
  }
}
