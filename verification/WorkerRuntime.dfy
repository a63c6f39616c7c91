// apps/web/v4/runtime/worker-runtime.js: createWorkerRuntime. A job is the `current` object of one
// scanRequest with its abort controller; the scanner runs beside the runtime and reports to it.

module WorkerRuntime {
  import opened Results
  import opened WorkerClient

  datatype Job = Job(id: string, aborted: bool, abortCount: nat, stageArmed: bool, globalArmed: bool)

  // available says that a scanner was given; running are the jobs whose scanner has not finished.
  datatype Runtime = Runtime(
    available: bool,
    active: Option<nat>,
    closed: bool,
    jobs: seq<Job>,
    running: set<nat>,
    posts: seq<FromWorker>)

  function NewRuntime(available: bool): Runtime {
    Runtime(available, None, false, [], {}, [])
  }

  predicate Valid(s: Runtime) {
    && (s.active.Some? ==> s.active.value < |s.jobs|)
    && (forall k <- s.running :: k < |s.jobs|)
  }

  // ---- The handlers ----

  function Cleared(s: Runtime): Runtime
    requires Valid(s)
  {
    if s.active.None? then s
    else
      var k := s.active.value;
      s.(active := None, jobs := s.jobs[k := s.jobs[k].(stageArmed := false, globalArmed := false)])
  }

  function Post(s: Runtime, m: FromWorker): Runtime {
    s.(posts := s.posts + [m])
  }

  function ScanRequestStep(s: Runtime, id: string): Runtime {
    if s.active.Some? || !s.available then Post(s, Error(id, false))
    else
      s.(active := Some(|s.jobs|), jobs := s.jobs + [Job(id, false, 0, true, true)],
         running := s.running + {|s.jobs|})
  }

  function AbortedJob(s: Runtime, k: nat): Runtime
    requires k < |s.jobs|
  {
    s.(jobs := s.jobs[k := s.jobs[k].(aborted := true)])
  }

  function HandleStep(s: Runtime, m: ToWorker): Runtime
    requires Valid(s)
  {
    if s.closed then s
    else match m
      case ScanRequest(id) => ScanRequestStep(s, id)
      case Abort(id) =>
        if s.active.None? || s.jobs[s.active.value].id != id then s
        else
          var k := s.active.value;
          var counted := s.(jobs := s.jobs[k := s.jobs[k].(abortCount := s.jobs[k].abortCount + 1, aborted := true)]);
          if s.jobs[k].abortCount + 1 > 1 then Cleared(counted) else counted
      case Shutdown =>
        var closed := s.(closed := true);
        Cleared(if s.active.Some? then AbortedJob(closed, s.active.value) else closed)
  }

  // The scanner of job k reports progress.
  function ProgressStep(s: Runtime, k: nat): Runtime
    requires k < |s.jobs|
  {
    if s.active != Some(k) || s.jobs[k].aborted then s
    else Post(s.(jobs := s.jobs[k := s.jobs[k].(stageArmed := true)]), Progress(s.jobs[k].id))
  }

  // The scanner of job k returns (ok) or throws; an abort turns either into its own error.
  function DoneStep(s: Runtime, k: nat, ok: bool, fatal: bool): Runtime
    requires Valid(s) && k < |s.jobs|
  {
    var job := s.jobs[k];
    var answer := if ok && !job.aborted then Result(job.id) else Error(job.id, fatal && !job.aborted);
    var answered := Post(s.(running := s.running - {k}), answer);
    if s.active == Some(k) then Cleared(answered) else answered
  }

  function StageStep(s: Runtime, k: nat): Runtime
    requires k < |s.jobs|
  {
    s.(jobs := s.jobs[k := s.jobs[k].(stageArmed := false, aborted := true)])
  }

  function GlobalStep(s: Runtime, k: nat): Runtime
    requires k < |s.jobs|
  {
    s.(jobs := s.jobs[k := s.jobs[k].(globalArmed := false, aborted := true)])
  }

  // ---- The runtime ----

  class WorkerSide {
    var available: bool
    var active: Option<nat>
    var closed: bool
    var jobs: seq<Job>
    var running: set<nat>
    var posts: seq<FromWorker>

    constructor (available: bool)
      ensures Value() == Runtime(available, None, false, [], {}, [])
    {
      this.available := available;
      active, closed, jobs, running, posts := None, false, [], {}, [];
    }

    function Value(): Runtime
      reads this
    {
      Runtime(available, active, closed, jobs, running, posts)
    }

    method Send(message: FromWorker)
      modifies this`posts
      ensures posts == old(posts) + [message]
    {
      posts := posts + [message];
    }

    method ClearActive()
      requires Valid(Value())
      modifies this
      ensures Value() == Cleared(old(Value()))
    {
      if active.None? { return; }
      var k := active.value;
      jobs := jobs[k := jobs[k].(stageArmed := false)];
      jobs := jobs[k := jobs[k].(globalArmed := false)];
      active := None;
    }

    method Handle(message: ToWorker)
      requires Valid(Value())
      modifies this
      ensures Value() == HandleStep(old(Value()), message)
    {
      if closed { return; }
      match message {
        case ScanRequest(id) =>
          if active.Some? || !available {
            Send(Error(id, false));
            return;
          }
          active := Some(|jobs|);
          running := running + {|jobs|};
          jobs := jobs + [Job(id, false, 0, true, true)];
        case Abort(id) =>
          if active.Some? && jobs[active.value].id == id {
            var k := active.value;
            jobs := jobs[k := jobs[k].(abortCount := jobs[k].abortCount + 1)];
            jobs := jobs[k := jobs[k].(aborted := true)];
            if jobs[k].abortCount > 1 {
              ClearActive();
            }
          }
        case Shutdown =>
          closed := true;
          if active.Some? {
            jobs := jobs[active.value := jobs[active.value].(aborted := true)];
          }
          ClearActive();
      }
    }

    method OnProgress(k: nat)
      requires k < |jobs|
      modifies this
      ensures Value() == ProgressStep(old(Value()), k)
    {
      if active != Some(k) || jobs[k].aborted { return; }
      jobs := jobs[k := jobs[k].(stageArmed := true)];
      Send(Progress(jobs[k].id));
    }

    method Finish(k: nat, ok: bool, fatal: bool)
      requires Valid(Value()) && k < |jobs|
      modifies this
      ensures Value() == DoneStep(old(Value()), k, ok, fatal)
    {
      running := running - {k};
      if ok && !jobs[k].aborted {
        Send(Result(jobs[k].id));
      } else {
        Send(Error(jobs[k].id, fatal && !jobs[k].aborted));
      }
      if active == Some(k) {
        ClearActive();
      }
    }

    method StageTimerFires(k: nat)
      requires k < |jobs|
      modifies this
      ensures Value() == StageStep(old(Value()), k)
    {
      jobs := jobs[k := jobs[k].(stageArmed := false)];
      jobs := jobs[k := jobs[k].(aborted := true)];
    }

    method GlobalTimerFires(k: nat)
      requires k < |jobs|
      modifies this
      ensures Value() == GlobalStep(old(Value()), k)
    {
      jobs := jobs[k := jobs[k].(globalArmed := false)];
      jobs := jobs[k := jobs[k].(aborted := true)];
    }
  }

  // ---- Timers ----

  // A timer of a job is armed only while the job is the active one, and the active job runs.
  ghost predicate Invariant(s: Runtime) {
    && Valid(s)
    && (forall k :: 0 <= k < |s.jobs| && (s.jobs[k].stageArmed || s.jobs[k].globalArmed) ==> s.active == Some(k))
    && (s.active.Some? ==> s.active.value in s.running)
  }

  lemma HandleKeeps(s: Runtime, m: ToWorker)
    requires Invariant(s)
    ensures Invariant(HandleStep(s, m))
  {}

  lemma JobStepsKeep(s: Runtime, k: nat, ok: bool, fatal: bool)
    requires Invariant(s) && k in s.running
    ensures Invariant(ProgressStep(s, k)) && Invariant(DoneStep(s, k, ok, fatal))
    ensures s.jobs[k].stageArmed ==> Invariant(StageStep(s, k))
    ensures s.jobs[k].globalArmed ==> Invariant(GlobalStep(s, k))
  {}

  // ---- For whatever client ----

  // A request that finds the worker busy is answered with an error, and the active job goes on.
  lemma SecondRequestIsRefused(s: Runtime, id: string)
    requires Valid(s) && !s.closed && s.active.Some?
    ensures HandleStep(s, ScanRequest(id)) == s.(posts := s.posts + [Error(id, false)])
  {}

  // The first abort reaches the scanner; the second one frees the worker, whether or not the scanner ever returns.
  lemma SecondAbortFreesTheWorker(s: Runtime)
    requires Valid(s) && !s.closed && s.active.Some? && s.jobs[s.active.value].abortCount == 0
    ensures var k := s.active.value;
      var t := HandleStep(s, Abort(s.jobs[k].id));
      && Valid(t) && t.active == Some(k) && t.jobs[k].aborted && t.jobs[k].id == s.jobs[k].id && t.posts == s.posts
      && var u := HandleStep(t, Abort(s.jobs[k].id));
      && u.active.None? && u.posts == s.posts && |u.jobs| == |s.jobs|
      && !u.jobs[k].stageArmed && !u.jobs[k].globalArmed
  {}
}
