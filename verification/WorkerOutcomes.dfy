// What becomes of a scan in the runs of both ends of the browser worker (apps/web/v4/runtime/worker-client.js and
// worker-runtime.js): which answer reaches its call, and that progress, aborts and timers have their effect.

module WorkerOutcomes {
  import opened Results
  import opened WorkerClient
  import opened WorkerLifecycle
  import R = WorkerRuntime

  // All that is on its way to the client arrives.
  function Delivered(s: System): System
    decreases |s.toClient|
  {
    if s.toClient == [] then s else Delivered(After(s, ToClient))
  }

  function Progresses(q: seq<FromWorker>, id: string): nat {
    if q == [] then 0 else (if q[0] == Progress(id) then 1 else 0) + Progresses(q[1..], id)
  }

  function Repeated(o: Observed, n: nat): seq<Observed> {
    if n == 0 then [] else [o] + Repeated(o, n - 1)
  }

  // ---- More of what every state of a run satisfies ----

  // A living client knows that the worker is ready as soon as `ready` is settled.
  predicate Prompt(c: State) {
    !c.disposed ==> !c.ready.Failed? && (c.workerReady <==> c.ready.Reached?)
  }

  // The worker's messages are well formed and about requests.
  ghost predicate Clean(posts: seq<FromWorker>, ids: set<string>) {
    forall m <- posts :: !m.Malformed? && (m.Progress? || IsAnswer(m) ==> m.id in ids)
  }

  // Both timers of the active job are armed until it is aborted, and a closed worker has none.
  predicate Armed(w: R.Runtime) {
    var job := ActiveJob(w);
    && (job.Some? && !job.value.aborted ==> job.value.stageArmed && job.value.globalArmed)
    && (w.closed ==> w.active.None?)
  }

  ghost predicate Sound(s: System) {
    Prompt(s.client) && Clean(s.toClient, s.calls.Keys) && WORKER !in s.calls && Armed(s.worker)
  }

  lemma NextIsPrompt(c: State, e: Event)
    requires Prompt(c) && Enabled(c, e)
    ensures Prompt(Next(c, e))
  {}

  lemma HandleIsClean(w: R.Runtime, m: ToWorker, ids: set<string>)
    requires R.Valid(w) && Armed(w) && w.posts == [] && (m.ScanRequest? ==> m.id in ids)
    ensures Clean(R.HandleStep(w, m).posts, ids) && Armed(R.HandleStep(w, m))
  {}

  lemma JobStepsAreClean(w: R.Runtime, k: nat, ok: bool, fatal: bool, ids: set<string>)
    requires R.Valid(w) && Armed(w) && w.posts == [] && k < |w.jobs| && w.jobs[k].id in ids
    ensures Clean(R.ProgressStep(w, k).posts, ids) && Armed(R.ProgressStep(w, k))
    ensures Clean(R.DoneStep(w, k, ok, fatal).posts, ids) && Armed(R.DoneStep(w, k, ok, fatal))
  {}

  lemma TimerStepsAreClean(w: R.Runtime, k: nat, ids: set<string>)
    requires R.Valid(w) && Armed(w) && w.posts == [] && k < |w.jobs|
    ensures Clean(R.StageStep(w, k).posts, ids) && Armed(R.StageStep(w, k))
    ensures Clean(R.GlobalStep(w, k).posts, ids) && Armed(R.GlobalStep(w, k))
  {}

  lemma ClientMoveKeepsSound(s: System, e: Step)
    requires WorkerLifecycle.Invariant(s) && Sound(s) && CanStep(s, e) && ClientEvent(s, e).Some?
    ensures Sound(After(s, e))
  {
    hide Orderly, R.Invariant, Alive, Honest, Prompt, Known, ScanStep, AbortStep, DisposeStep, FireStep, TerminateStep,
      ReceiveStep, ResumeStep;
    var event := ClientEvent(s, e).value;
    NextIsPrompt(s.client, event);
    ClientStepIs(s, e, event);
    PostsIrrelevant(WorkerClient.Next(s.client, event));
  }

  lemma PostsIrrelevant(c: State)
    requires Prompt(c)
    ensures Prompt(c.(posts := []))
  {}

  lemma WorkerMoveKeepsSound(s: System, toWorker: seq<ToWorker>, w: R.Runtime)
    requires Sound(s) && Clean(w.posts, s.calls.Keys) && Armed(w)
    ensures Sound(WorkerMoves(s.(toWorker := toWorker), w))
  {}

  lemma StepKeepsSound(s: System, e: Step)
    requires WorkerLifecycle.Invariant(s) && Sound(s) && CanStep(s, e)
    ensures Sound(After(s, e))
  {
    hide Orderly, Alive, Honest, Prompt, Sound, Clean, Armed, R.HandleStep, R.ProgressStep, R.DoneStep, R.StageStep,
      R.GlobalStep;
    var w := s.worker;
    SoundHere(s);
    match e {
      case RuntimeStarts => RuntimeStartsSound(s);
      case DeliverToWorker =>
        assert s.toWorker[0] in s.toWorker;
        HandleIsClean(w, s.toWorker[0], s.calls.Keys);
        WorkerMoveKeepsSound(s, s.toWorker[1..], R.HandleStep(w, s.toWorker[0]));
      case JobProgress(k) =>
        JobStepsAreClean(w, k, true, true, s.calls.Keys);
        WorkerMoveKeepsSound(s, s.toWorker, R.ProgressStep(w, k));
      case JobDone(k, ok, fatal) =>
        JobStepsAreClean(w, k, ok, fatal, s.calls.Keys);
        WorkerMoveKeepsSound(s, s.toWorker, R.DoneStep(w, k, ok, fatal));
        ScannedIrrelevant(WorkerMoves(s, R.DoneStep(w, k, ok, fatal)), s.scanned + {w.jobs[k].id});
      case StageTimer(k) =>
        TimerStepsAreClean(w, k, s.calls.Keys);
        WorkerMoveKeepsSound(s, s.toWorker, R.StageStep(w, k));
      case GlobalTimer(k) =>
        TimerStepsAreClean(w, k, s.calls.Keys);
        WorkerMoveKeepsSound(s, s.toWorker, R.GlobalStep(w, k));
      case _ => ClientMoveKeepsSound(s, e);
    }
  }

  lemma SoundHere(s: System)
    requires Sound(s)
    ensures Armed(s.worker)
  {}

  lemma RuntimeStartsSound(s: System)
    requires Sound(s) && !s.started && s.worker.posts == []
    ensures Sound(After(s, RuntimeStarts))
  {}

  lemma ScannedIrrelevant(s: System, scanned: set<string>)
    requires Sound(s)
    ensures Sound(s.(scanned := scanned))
  {}

  lemma {:induction false} RunIsSound(available: bool, steps: seq<Step>)
    ensures Sound(WorkerLifecycle.Run(available, steps))
  {
    hide WorkerLifecycle.Invariant, CanStep, After, Sound;
    if steps == [] {
      StartIsSound(available);
    } else {
      var s, e := WorkerLifecycle.Run(available, steps[..|steps| - 1]), steps[|steps| - 1];
      RunIsSound(available, steps[..|steps| - 1]);
      WorkerLifecycle.RunKeeps(available, steps[..|steps| - 1]);
      if CanStep(s, e) {
        StepKeepsSound(s, e);
      }
    }
  }

  lemma StartIsSound(available: bool)
    ensures Sound(Start(available))
  {}

  // ---- Delivery ----

  // The client runs a request.
  predicate Busy(c: State) {
    !c.disposed && c.active.Some? && c.workerReady && c.ready.Reached? && c.posts == []
  }

  function Heard(s: System, n: nat): System
    requires n <= |s.toClient| && s.client.active.Some?
  {
    var a := s.client.active.value;
    var heard := Repeated(Progressed(a.call), Progresses(s.toClient[..n], a.id));
    s.(toClient := s.toClient[n..], client := s.client.(log := s.client.log + heard))
  }

  lemma OneHeard(s: System)
    requires Busy(s.client) && s.toClient != [] && (s.toClient[0].Ready? || s.toClient[0].Progress?)
    ensures var a := s.client.active.value;
      var log := if s.toClient[0] == Progress(a.id) then s.client.log + [Progressed(a.call)] else s.client.log;
      After(s, ToClient) == s.(toClient := s.toClient[1..], client := s.client.(log := log))
  {
    assert s.toWorker + [] == s.toWorker;
  }

  // What is heard of n messages is what is heard of the first one and then of the others.
  lemma HeardInTurn(s: System, n: nat, t: System)
    requires 0 < n <= |s.toClient| && s.client.active.Some?
    requires var a := s.client.active.value;
      var log := if s.toClient[0] == Progress(a.id) then s.client.log + [Progressed(a.call)] else s.client.log;
      t == s.(toClient := s.toClient[1..], client := s.client.(log := log))
    ensures Heard(t, n - 1) == Heard(s, n)
  {
    assert t.toClient[..n - 1] == s.toClient[..n][1..] && t.toClient[n - 1..] == s.toClient[n..];
    assert Heard(t, n - 1).client.log == Heard(s, n).client.log;
  }

  ghost predicate NoAnswers(q: seq<FromWorker>) {
    forall m <- q :: m.Ready? || m.Progress?
  }

  lemma FirstIsNoAnswer(q: seq<FromWorker>, n: nat)
    requires 0 < n <= |q| && NoAnswers(q[..n])
    ensures (q[0].Ready? || q[0].Progress?) && NoAnswers(q[1..][..n - 1])
  {
    assert q[..n][1..] == q[1..][..n - 1];
    assert q[0] == q[..n][0];
  }

  // The client only reports progress until an answer comes.
  lemma {:induction false} HeardBeforeAnswer(s: System, n: nat)
    requires Busy(s.client) && n <= |s.toClient| && NoAnswers(s.toClient[..n])
    ensures Delivered(s) == Delivered(Heard(s, n))
    decreases n
  {
    if n == 0 {
      assert s.client.log + [] == s.client.log;
      assert s.toClient[0..] == s.toClient;
    } else {
      hide After, Heard, NoAnswers;
      FirstIsNoAnswer(s.toClient, n);
      OneHeard(s);
      var t := After(s, ToClient);
      HeardBeforeAnswer(t, n - 1);
      HeardInTurn(s, n, t);
    }
  }

  predicate StaysReady(s: System, t: System) {
    t.started == s.started && t.client.ready == s.client.ready && t.client.waiting == s.client.waiting
  }

  lemma AnswerHeard(s: System, m: FromWorker)
    requires Busy(s.client) && s.toClient == [m] && IsAnswer(m) && m.id == s.client.active.value.id && m.id != WORKER
    ensures var t, call := Delivered(s), s.client.active.value.call;
      && t.client.log == s.client.log + [if m.Result? then Resolved(call) else Rejected(call)]
      && t.toClient == [] && t.client.active.None? && (t.client.disposed <==> m == Error(m.id, true))
      && t.toWorker == s.toWorker && t.worker == s.worker && StaysReady(s, t)
  {
    assert s.toWorker + [] == s.toWorker;
    assert Delivered(s) == After(s, ToClient);
  }

  // A client with an active request is ready for the answer.
  lemma ActiveIsBusy(s: System)
    requires WorkerLifecycle.Invariant(s) && Sound(s) && s.client.active.Some?
    ensures Busy(s.client)
  {}

  // ---- The end of a scan ----

  ghost predicate Reachable(s: System) {
    exists available, steps :: WorkerLifecycle.Run(available, steps) == s
  }

  lemma ReachableKeeps(s: System)
    requires Reachable(s)
    ensures WorkerLifecycle.Invariant(s) && Sound(s)
  {
    var available, steps :| WorkerLifecycle.Run(available, steps) == s;
    WorkerLifecycle.RunKeeps(available, steps);
    RunIsSound(available, steps);
  }

  lemma Reach(s: System, e: Step)
    requires Reachable(s) && CanStep(s, e)
    ensures Reachable(After(s, e))
  {
    hide After, CanStep;
    var available, steps :| WorkerLifecycle.Run(available, steps) == s;
    assert (steps + [e])[..|steps|] == steps;
    assert WorkerLifecycle.Run(available, steps + [e]) == After(s, e);
  }

  // The scanner of the active request has come to an end: the client reports the progress that is on its way, and
  // then the outcome. The call is resolved if the scanner has returned without an abort, and rejected otherwise;
  // the client gives up only on a fatal error.
  lemma OutcomeReachesItsCall(s: System, k: nat, ok: bool, fatal: bool)
    requires Reachable(s) && CanStep(s, JobDone(k, ok, fatal)) && !s.client.disposed
    ensures var job, t := s.worker.jobs[k], Delivered(After(s, JobDone(k, ok, fatal)));
      && job.id in s.calls
      && var call := s.calls[job.id];
      && t.client.log
         == s.client.log + Repeated(Progressed(call), Progresses(s.toClient, job.id))
          + [if ok && !job.aborted then Resolved(call) else Rejected(call)]
      && (ok && !job.aborted ==> Rejected(call) !in t.client.log)
      && t.toClient == [] && t.client.active.None? && t.worker.active.None? && StaysReady(s, t)
      && (t.client.disposed <==> !ok && fatal && !job.aborted)
  {
    hide Reachable, Delivered, Orderly, R.Invariant, R.DoneStep;
    ReachableKeeps(s);
    OnlyJobIsActive(s, k);
    ActiveIsBusy(s);
    AnswerPosted(s, k, ok, fatal);
    var answer := R.DoneStep(s.worker, k, ok, fatal).posts[0];
    var t, n := After(s, JobDone(k, ok, fatal)), |s.toClient|;
    assert t.toClient[..n] == s.toClient && t.toClient[n..] == [answer];
    HeardBeforeAnswer(t, n);
    AnswerHeard(Heard(t, n), answer);
    ActiveIsUnsettled(s);
    OnlyRepeated(Progressed(s.client.active.value.call), Progresses(s.toClient, s.client.active.value.id));
  }

  lemma ActiveIsUnsettled(s: System)
    requires WorkerLifecycle.Invariant(s) && s.client.active.Some?
    ensures Rejected(s.client.active.value.call) !in s.client.log
  {
    assert !Settled(s.client.log, s.client.active.value.call);
  }

  lemma {:induction false} OnlyRepeated(o: Observed, n: nat)
    ensures forall p <- Repeated(o, n) :: p == o
  {
    if n > 0 {
      OnlyRepeated(o, n - 1);
    }
  }

  // Progress of the active request reaches its call, and restarts the stage timer.
  lemma ProgressReachesItsCall(s: System, k: nat)
    requires Reachable(s) && CanStep(s, JobProgress(k)) && !s.client.disposed && !s.worker.jobs[k].aborted
    ensures var job, t := s.worker.jobs[k], Delivered(After(s, JobProgress(k)));
      && job.id in s.calls
      && var call := s.calls[job.id];
      && t.client.log == s.client.log + Repeated(Progressed(call), Progresses(s.toClient + [Progress(job.id)], job.id))
      && t.client.active == s.client.active && k < |t.worker.jobs| && t.worker.jobs[k].stageArmed
  {
    hide Reachable, Delivered, Orderly, R.Invariant;
    ReachableKeeps(s);
    OnlyJobIsActive(s, k);
    ActiveIsBusy(s);
    var t, n := After(s, JobProgress(k)), |s.toClient| + 1;
    assert t.toClient == s.toClient + [Progress(s.worker.jobs[k].id)];
    assert t.toClient[..n] == t.toClient && t.toClient[n..] == [];
    HeardBeforeAnswer(t, n);
    NothingLeft(Heard(t, n));
  }

  lemma NothingLeft(s: System)
    requires s.toClient == []
    ensures Delivered(s) == s
  {}

  // While the client lives, only the job of its active request runs, and no answer is on its way.
  lemma OnlyJobIsActive(s: System, k: nat)
    requires WorkerLifecycle.Invariant(s) && Sound(s) && !s.client.disposed && k in s.worker.running
    ensures k < |s.worker.jobs| && OfActive(s, s.worker.jobs[k].id)
    ensures s.worker.jobs[k].id in s.calls && s.calls[s.worker.jobs[k].id] == s.client.active.value.call
    ensures s.worker.jobs[k].id != WORKER && s.worker.active == Some(k)
    ensures NoAnswers(s.toClient)
  {
    hide Honest, OneAbort;
    NoneCounted(s.toWorker, s.toClient);
  }

  lemma AnswerPosted(s: System, k: nat, ok: bool, fatal: bool)
    requires WorkerLifecycle.Invariant(s) && CanStep(s, JobDone(k, ok, fatal)) && s.worker.active == Some(k)
    ensures var job, t := s.worker.jobs[k], After(s, JobDone(k, ok, fatal));
      var answer := if ok && !job.aborted then Result(job.id) else Error(job.id, fatal && !job.aborted);
      && R.DoneStep(s.worker, k, ok, fatal).posts == [answer]
      && t.toClient == s.toClient + [answer] && t.client == s.client && t.worker.active.None?
      && t.toWorker == s.toWorker && t.started == s.started
  {
    hide Orderly, Honest, Alive, Known;
  }

  // ---- Aborts and timers ----

  // Until it is aborted, the active job has both timers.
  lemma TimersArmedUntilAborted(s: System)
    requires Reachable(s) && s.worker.active.Some? && s.worker.active.value < |s.worker.jobs|
    ensures var job := s.worker.jobs[s.worker.active.value]; job.aborted || (job.stageArmed && job.globalArmed)
  {
    ReachableKeeps(s);
  }

  // A timer of the worker or an abort by the client reaches the scanner.
  predicate AbortsJob(s: System, e: Step, k: nat) {
    || e == StageTimer(k) || e == GlobalTimer(k)
    || (e == DeliverToWorker && k < |s.worker.jobs| && s.toWorker != [] && s.toWorker[0] == Abort(s.worker.jobs[k].id))
  }

  // Whatever the scanner does then, its call is rejected, and the client can go on.
  lemma AbortedIsRejected(s: System, e: Step, k: nat, ok: bool, fatal: bool)
    requires Reachable(s) && CanStep(s, e) && AbortsJob(s, e, k) && !s.client.disposed && k in s.worker.running
    ensures k < |s.worker.jobs| && s.worker.jobs[k].id in s.calls
    ensures var t, call := After(s, e), s.calls[s.worker.jobs[k].id];
      && CanStep(t, JobDone(k, ok, fatal))
      && var u := Delivered(After(t, JobDone(k, ok, fatal)));
      && u.client.log
         == s.client.log + Repeated(Progressed(call), Progresses(s.toClient, s.worker.jobs[k].id)) + [Rejected(call)]
      && u.client.active.None? && !u.client.disposed
  {
    hide Reachable, Delivered, After, CanStep;
    ReachableKeeps(s);
    OnlyJobIsActive(s, k);
    JobIsAborted(s, e, k, ok, fatal);
    Reach(s, e);
    OutcomeReachesItsCall(After(s, e), k, ok, fatal);
  }

  lemma JobIsAborted(s: System, e: Step, k: nat, ok: bool, fatal: bool)
    requires WorkerLifecycle.Invariant(s) && CanStep(s, e) && AbortsJob(s, e, k) && !s.client.disposed
    requires k in s.worker.running && s.worker.active == Some(k) && k < |s.worker.jobs|
    ensures var t := After(s, e);
      && CanStep(t, JobDone(k, ok, fatal)) && t.worker.jobs[k].aborted && t.worker.jobs[k].id == s.worker.jobs[k].id
      && t.client == s.client && t.toClient == s.toClient && t.calls == s.calls
  {
    hide Orderly, Honest, Known;
    assert s.toClient + [] == s.toClient;
    if e == DeliverToWorker {
      DeliveredWhileAlive(s);
    }
  }

  // The first abort of the active request, by its caller or by its timer, asks the worker, and a timer bounds the
  // wait; the second one gives up.
  lemma FirstAbortAsksSecondGivesUp(s: System, e: Step)
    requires Reachable(s) && CanStep(s, e) && s.client.active.Some?
    requires var a := s.client.active.value; e == CallAbort(a.id) || e == ClientTimer(a.timeout)
    ensures var a, t := s.client.active.value, After(s, e);
      if a.abortSent then
        t.client.disposed && t.client.log == s.client.log + [Rejected(a.call)] && t.toWorker == s.toWorker
      else
        && t.toWorker == s.toWorker + [Abort(a.id)] && t.client.log == s.client.log && !t.client.disposed
        && t.client.active.Some? && t.client.active.value.abortSent && t.client.active.value.id == a.id
        && t.client.active.value.hardTimeout.Some? && t.client.active.value.hardTimeout.value in t.client.timers
  {
    hide Reachable, Honest, Known, Alive;
    ReachableKeeps(s);
    assert s.toWorker + [] == s.toWorker;
  }

  // A disposal, a failing worker or an abort that is not answered in time ends the client: the active call is
  // rejected, and only a disposal tells the worker.
  lemma GivesUpWithRejection(s: System, e: Step)
    requires Reachable(s) && CanStep(s, e) && !s.client.disposed
    requires e.Dispose? || e.WorkerFails? || (e.ClientTimer? && e.timer.Hard?)
    ensures var c, t := s.client, After(s, e);
      && t.client.disposed && t.client.active.None? && t.client.timers == {}
      && t.client.log == c.log + (if c.active.Some? then [Rejected(c.active.value.call)] else [])
      && t.toWorker == s.toWorker + (if e.Dispose? then [Shutdown] else [])
  {
    hide Reachable, Honest, Known, Alive;
    ReachableKeeps(s);
  }

  // The worker that is told stops: its job is aborted, and it takes no more messages.
  lemma ShutdownStopsWorker(s: System)
    requires Reachable(s) && CanStep(s, DeliverToWorker) && s.toWorker[0] == Shutdown
    ensures var w, t := s.worker, After(s, DeliverToWorker);
      && t.worker.closed && t.worker.active.None? && t.toClient == s.toClient
      && (!w.closed && w.active.Some? && w.active.value < |t.worker.jobs| ==>
           var job := t.worker.jobs[w.active.value]; job.aborted && !job.stageArmed && !job.globalArmed)
      && (CanStep(t, DeliverToWorker) ==>
           After(t, DeliverToWorker) == t.(toWorker := t.toWorker[1..]))
  {
    hide Reachable, Orderly, Honest, Known, Alive;
    ReachableKeeps(s);
    assert s.toClient + [] == s.toClient;
  }

  // ---- A whole scan ----

  // The worker takes all that is on its way to it.
  function Taken(s: System): System
    decreases |s.toWorker|
  {
    if CanStep(s, DeliverToWorker) then Taken(After(s, DeliverToWorker)) else s
  }

  // Both ends are ready for a scan.
  predicate Idle(s: System) {
    s.started && !s.client.disposed && s.client.ready.Reached? && s.client.active.None? && s.client.waiting == []
  }

  lemma {:induction false} ReachTaken(s: System)
    requires Reachable(s)
    ensures Reachable(Taken(s))
    decreases |s.toWorker|
  {
    hide Reachable;
    if CanStep(s, DeliverToWorker) {
      Reach(s, DeliverToWorker);
      ReachTaken(After(s, DeliverToWorker));
    }
  }

  lemma {:induction false} ReachDelivered(s: System)
    requires Reachable(s)
    ensures Reachable(Delivered(s))
    decreases |s.toClient|
  {
    hide Reachable;
    if s.toClient != [] {
      Reach(s, ToClient);
      ReachDelivered(After(s, ToClient));
    }
  }

  lemma {:induction false} NoneOfOthers(q: seq<FromWorker>, ids: set<string>, id: string)
    requires Clean(q, ids) && id !in ids
    ensures Progresses(q, id) == 0
  {
    if q != [] {
      assert q[0] in q;
      NoneOfOthers(q[1..], ids, id);
    }
  }

  ghost predicate OnlyAborts(q: seq<ToWorker>) {
    forall m <- q :: m.Abort?
  }

  lemma FirstIsAbort(q: seq<ToWorker>, n: nat)
    requires 0 < n <= |q| && OnlyAborts(q[..n])
    ensures q[0].Abort? && OnlyAborts(q[1..][..n - 1]) && q[1..][n - 1..] == q[n..]
  {
    assert q[..n][1..] == q[1..][..n - 1];
    assert q[0] == q[..n][0];
  }

  predicate AtRest(s: System) {
    s.started && R.Valid(s.worker) && s.worker.active.None? && !s.worker.closed && s.worker.posts == []
  }

  // An abort that comes too late changes nothing.
  lemma StaleAbort(s: System)
    requires AtRest(s) && s.toWorker != [] && s.toWorker[0].Abort?
    ensures CanStep(s, DeliverToWorker) && After(s, DeliverToWorker) == s.(toWorker := s.toWorker[1..])
  {
    assert s.toClient + [] == s.toClient;
  }

  lemma {:induction false} StaleAborts(s: System, n: nat)
    requires n <= |s.toWorker| && OnlyAborts(s.toWorker[..n]) && AtRest(s)
    ensures Taken(s) == Taken(s.(toWorker := s.toWorker[n..]))
    decreases n
  {
    if n == 0 {
      assert s.toWorker[0..] == s.toWorker;
    } else {
      hide After, CanStep, OnlyAborts;
      FirstIsAbort(s.toWorker, n);
      StaleAbort(s);
      StaleAborts(s.(toWorker := s.toWorker[1..]), n - 1);
    }
  }

  lemma IdleWorker(s: System)
    requires WorkerLifecycle.Invariant(s) && Idle(s)
    ensures AtRest(s) && OnlyAborts(s.toWorker)
  {
    NothingUnderway(s);
  }

  function Asked(s: System, id: string): System
    requires CanStep(s, Scan) && CanStep(After(s, Scan), Resume(id))
  {
    After(After(s, Scan), Resume(id))
  }

  lemma RequestIs(s: System, id: string)
    requires WorkerLifecycle.Invariant(s) && Idle(s) && id !in s.calls && id != WORKER
    ensures CanStep(s, Scan) && CanStep(After(s, Scan), Resume(id))
    ensures s.started && Asked(s, id).client.ready.Reached? && Asked(s, id).client.waiting == []
    ensures var t := Asked(s, id);
      && t == s.(client := t.client, toWorker := s.toWorker + [ScanRequest(id)], calls := s.calls[id := s.client.calls])
      && t.client.log == s.client.log && t.client.active.Some? && !t.client.disposed
      && t.client.active.value.id == id && t.client.active.value.call == s.client.calls
  {
    hide Orderly, R.Invariant, Alive, Honest, Known;
    assert s.toWorker + [] == s.toWorker;
  }

  // A request that reaches the idle worker behind late aborts is taken.
  lemma RequestReachesWorker(s: System, m: ToWorker)
    requires AtRest(s) && s.toWorker == [m] && m.ScanRequest?
    ensures var w, t, k := s.worker, Taken(s), |s.worker.jobs|;
      && t == s.(worker := t.worker, toWorker := [], toClient := t.toClient)
      && if w.available then
           && t.toClient == s.toClient && t.worker.active == Some(k) && t.worker.running == w.running + {k}
           && t.worker.jobs == w.jobs + [R.Job(m.id, false, 0, true, true)]
         else t.toClient == s.toClient + [Error(m.id, false)] && t.worker == w
  {
    var t := After(s, DeliverToWorker);
    assert s.toClient + [] == s.toClient;
    assert Taken(s) == Taken(t) == t;
  }

  // A scan that is called on an idle client reaches the worker, which starts it with both timers.
  lemma ScanReachesWorker(s: System, id: string)
    requires Reachable(s) && Idle(s) && id !in s.calls && id != WORKER
    ensures CanStep(s, Scan) && CanStep(After(s, Scan), Resume(id))
    ensures var t, k := Taken(Asked(s, id)), |s.worker.jobs|;
      && Reachable(t) && t.started && t.client == Asked(s, id).client && t.calls == s.calls[id := s.client.calls]
      && if s.worker.available then
           && t.toClient == s.toClient && t.worker.active == Some(k) && k in t.worker.running
           && t.worker.jobs == s.worker.jobs + [R.Job(id, false, 0, true, true)]
         else t.toClient == s.toClient + [Error(id, false)] && t.worker == s.worker
  {
    hide Reachable, After, CanStep, Idle, WorkerLifecycle.Invariant;
    ReachableKeeps(s);
    RequestIs(s, id);
    IdleWorker(s);
    Reach(s, Scan);
    Reach(After(s, Scan), Resume(id));
    ReachTaken(Asked(s, id));
    var t, n := Asked(s, id), |s.toWorker|;
    assert t.toWorker[..n] == s.toWorker && t.toWorker[n..] == [ScanRequest(id)];
    StaleAborts(t, n);
    RequestReachesWorker(t.(toWorker := [ScanRequest(id)]), ScanRequest(id));
  }

  // When the scanner returns, the call resolves, and both ends are ready for the next scan.
  lemma ScanResolves(s: System, id: string, fatal: bool)
    requires Reachable(s) && Idle(s) && s.worker.available && id !in s.calls && id != WORKER
    ensures CanStep(s, Scan) && CanStep(After(s, Scan), Resume(id))
    ensures var t, done := Taken(Asked(s, id)), JobDone(|s.worker.jobs|, true, fatal);
      && CanStep(t, done)
      && var u := Delivered(After(t, done));
      Reachable(u) && Idle(u) && u.client.log == s.client.log + [Resolved(s.client.calls)]
  {
    hide Reachable, After, CanStep, Delivered, Taken, Asked;
    ScanReachesWorker(s, id);
    ReachableKeeps(s);
    RequestIs(s, id);
    NoneOfOthers(s.toClient, s.calls.Keys, id);
    var t, k := Taken(Asked(s, id)), |s.worker.jobs|;
    ReachableKeeps(t);
    CanFinish(t, k, fatal);
    OutcomeReachesItsCall(t, k, true, fatal);
    assert s.client.log + [] == s.client.log;
    var done := JobDone(k, true, fatal);
    Reach(t, done);
    ReachDelivered(After(t, done));
    StillIdle(t, Delivered(After(t, done)));
  }

  lemma StillIdle(s: System, t: System)
    requires s.started && s.client.ready.Reached? && s.client.waiting == []
    requires StaysReady(s, t) && !t.client.disposed && t.client.active.None?
    ensures Idle(t)
  {}

  lemma CanFinish(t: System, k: nat, fatal: bool)
    requires WorkerLifecycle.Invariant(t) && k in t.worker.running
    ensures CanStep(t, JobDone(k, true, fatal))
  {}

  // Without a scanner the call is rejected, and both ends are as ready as before.
  lemma ScanWithoutScannerIsRejected(s: System, id: string)
    requires Reachable(s) && Idle(s) && !s.worker.available && id !in s.calls && id != WORKER
    ensures CanStep(s, Scan) && CanStep(After(s, Scan), Resume(id))
    ensures var t := Delivered(Taken(Asked(s, id)));
      Idle(t) && t.client.log == s.client.log + [Rejected(s.client.calls)]
  {
    hide Reachable, After, CanStep, Delivered, Taken, Asked;
    ScanReachesWorker(s, id);
    ReachableKeeps(s);
    RequestIs(s, id);
    NoneOfOthers(s.toClient, s.calls.Keys, id);
    var t, n := Taken(Asked(s, id)), |s.toClient|;
    ReachableKeeps(t);
    ActiveIsBusy(t);
    assert t.toClient[..n] == s.toClient && t.toClient[n..] == [Error(id, false)];
    NoAnswerYet(s);
    HeardBeforeAnswer(t, n);
    assert s.client.log + [] == s.client.log;
    AnswerHeard(Heard(t, n), Error(id, false));
    StillIdle(t, Delivered(t));
  }

  lemma NoAnswerYet(s: System)
    requires WorkerLifecycle.Invariant(s) && Sound(s) && Idle(s)
    ensures NoAnswers(s.toClient)
  {
    NothingUnderway(s);
  }

  // Once the worker has started and its message has arrived, both ends are ready.
  lemma StartedIsIdle(available: bool)
    ensures CanStep(Start(available), RuntimeStarts)
    ensures var t := Delivered(After(Start(available), RuntimeStarts));
      Reachable(t) && Idle(t) && t.worker.available == available && t.client.log == []
  {
    var s := Start(available);
    assert WorkerLifecycle.Run(available, []) == s;
    Reach(s, RuntimeStarts);
    var t := After(s, RuntimeStarts);
    assert t.toClient == [Ready];
    ReachDelivered(t);
    assert Delivered(t) == After(t, ToClient);
  }

  // A scan that is called while a request is active, or on a client that has given up, is rejected at once.
  lemma BusyScanIsRejected(s: System)
    requires CanStep(s, Scan) && (s.client.active.Some? || s.client.disposed)
    ensures After(s, Scan).client.log == s.client.log + [Rejected(s.client.calls)]
    ensures After(s, Scan).client.active == s.client.active && After(s, Scan).client.waiting == []
  {}

  // A scan that was waiting when the client gave up is rejected as soon as it goes on.
  lemma WaitingScanIsRejected(s: System, id: string)
    requires Reachable(s) && CanStep(s, Resume(id)) && s.client.disposed
    ensures After(s, Resume(id)).client.log == s.client.log + [Rejected(s.client.waiting[0])]
    ensures After(s, Resume(id)).client.active == s.client.active && After(s, Resume(id)).calls == s.calls
  {
    ReachableKeeps(s);
  }

  // An error before the worker is ready, an error of the worker itself or a malformed message ends the client.
  lemma FailureEndsTheClient(c: State, m: FromWorker)
    requires !c.disposed && (m.Malformed? || (m.Error? && (m.id == WORKER || !c.workerReady)))
    ensures var t := Next(c, Received(m));
      && t.disposed && t.active.None? && !t.ready.Unsettled? && (c.ready.Reached? ==> t.ready.Reached?)
      && t.log == c.log + (if c.active.Some? then [Rejected(c.active.value.call)] else [])
  {}
}
