// The client and the runtime of the browser worker, joined by two first-in first-out channels.

module WorkerLifecycle {
  import opened Results
  import opened WorkerClient
  import R = WorkerRuntime

  // calls tells which call of scan a request id was made for; scanned are the ids whose scanner has returned
  // without being aborted. Both are history only.
  datatype System = System(
    client: State,
    worker: R.Runtime,
    started: bool,
    toWorker: seq<ToWorker>,
    toClient: seq<FromWorker>,
    calls: map<string, nat>,
    scanned: set<string>)

  function Start(available: bool): System {
    System(INITIAL, R.NewRuntime(available), false, [], [], map[], {})
  }

  datatype Step =
    | Scan
    | Resume(id: string)
    | CallAbort(id: string)
    | Dispose
    | ClientTimer(timer: Timer)
    | WorkerFails
    | ToClient
    | RuntimeStarts
    | DeliverToWorker
    | JobProgress(k: nat)
    | JobDone(k: nat, ok: bool, fatal: bool)
    | StageTimer(k: nat)
    | GlobalTimer(k: nat)

  // The client's part of a step.
  function ClientEvent(s: System, e: Step): Option<Event> {
    match e
    case Scan => Some(ScanCalled)
    case Resume(id) => Some(Resumed(id))
    case CallAbort(id) => Some(AbortCalled(id))
    case Dispose => Some(Disposed)
    case ClientTimer(timer) => Some(Fired(timer))
    case WorkerFails => Some(WorkerFailed)
    case ToClient => if s.toClient == [] then None else Some(Received(s.toClient[0]))
    case _ => None
  }

  // Request ids are fresh and differ from the name that the worker uses for itself, and no scan is called
  // while another one waits.
  predicate CanStep(s: System, e: Step) {
    match e
    case Scan => s.client.waiting == []
    case ToClient => s.toClient != []
    case RuntimeStarts => !s.started
    case DeliverToWorker => s.started && s.toWorker != [] && R.Valid(s.worker)
    case JobProgress(k) => k in s.worker.running && k < |s.worker.jobs|
    case JobDone(k, _, _) => k in s.worker.running && R.Valid(s.worker)
    case StageTimer(k) => k < |s.worker.jobs| && s.worker.jobs[k].stageArmed
    case GlobalTimer(k) => k < |s.worker.jobs| && s.worker.jobs[k].globalArmed
    case Resume(id) => id !in s.calls && id != WORKER && Enabled(s.client, Resumed(id))
    case _ => Enabled(s.client, ClientEvent(s, e).value)
  }

  // What the client posts goes into the channel to the worker, and the other way round.
  function ClientMoves(s: System, c: State): System {
    s.(client := c.(posts := []), toWorker := s.toWorker + c.posts)
  }

  function WorkerMoves(s: System, w: R.Runtime): System {
    s.(worker := w.(posts := []), toClient := s.toClient + w.posts)
  }

  function After(s: System, e: Step): System
    requires CanStep(s, e)
  {
    match e
    case Resume(id) =>
      var t := ClientMoves(s, ResumeStep(s.client, id));
      if t.client.active.Some? then t.(calls := s.calls[id := t.client.active.value.call]) else t
    case ToClient => ClientMoves(s.(toClient := s.toClient[1..]), ReceiveStep(s.client, s.toClient[0]))
    case RuntimeStarts => WorkerMoves(s, R.Post(s.worker, Ready)).(started := true)
    case DeliverToWorker => WorkerMoves(s.(toWorker := s.toWorker[1..]), R.HandleStep(s.worker, s.toWorker[0]))
    case JobProgress(k) => WorkerMoves(s, R.ProgressStep(s.worker, k))
    case JobDone(k, ok, fatal) =>
      var t := WorkerMoves(s, R.DoneStep(s.worker, k, ok, fatal));
      if ok && !s.worker.jobs[k].aborted then t.(scanned := s.scanned + {s.worker.jobs[k].id}) else t
    case StageTimer(k) => WorkerMoves(s, R.StageStep(s.worker, k))
    case GlobalTimer(k) => WorkerMoves(s, R.GlobalStep(s.worker, k))
    case _ => ClientMoves(s, Next(s.client, ClientEvent(s, e).value))
  }

  // The state after a whole run; a step that cannot be taken changes nothing.
  function Run(available: bool, steps: seq<Step>): System {
    if steps == [] then Start(available)
    else
      var s, e := Run(available, steps[..|steps| - 1]), steps[|steps| - 1];
      if CanStep(s, e) then After(s, e) else s
  }

  // ---- Where a request is ----

  function Requests(q: seq<ToWorker>): nat {
    if q == [] then 0 else (if q[0].ScanRequest? then 1 else 0) + Requests(q[1..])
  }

  function Aborts(q: seq<ToWorker>, id: string): nat {
    if q == [] then 0 else (if q[0] == Abort(id) then 1 else 0) + Aborts(q[1..], id)
  }

  predicate IsAnswer(m: FromWorker) {
    m.Result? || m.Error?
  }

  function Answers(q: seq<FromWorker>): nat {
    if q == [] then 0 else (if IsAnswer(q[0]) then 1 else 0) + Answers(q[1..])
  }

  function Count(b: bool): nat {
    if b then 1 else 0
  }

  function ActiveJob(w: R.Runtime): Option<R.Job> {
    if w.active.Some? && w.active.value < |w.jobs| then Some(w.jobs[w.active.value]) else None
  }

  // While the client lives, its active request is in exactly one place: on its way, with the worker, or on
  // its way back; and without one there is nothing in any of these places.
  ghost predicate InOnePlace(s: System) {
    Requests(s.toWorker) + Count(s.worker.active.Some?) + Answers(s.toClient) == Count(s.client.active.Some?)
  }

  ghost predicate OfActive(s: System, id: string) {
    s.client.active.Some? && id == s.client.active.value.id
  }

  ghost predicate SameRequest(s: System) {
    && (forall m <- s.toWorker :: m.ScanRequest? ==> OfActive(s, m.id))
    && (ActiveJob(s.worker).Some? ==> OfActive(s, ActiveJob(s.worker).value.id))
    && (forall m <- s.toClient :: IsAnswer(m) ==> OfActive(s, m.id))
  }

  // Ids in the channels and in the worker are ids of requests that were made.
  ghost predicate Known(s: System) {
    && (forall m <- s.toWorker :: m.ScanRequest? || m.Abort? ==> m.id in s.calls)
    && (forall j <- s.worker.jobs :: j.id in s.calls)
    && (s.client.active.Some? ==>
         var a := s.client.active.value; a.id in s.calls && s.calls[a.id] == a.call && a.id != WORKER)
  }

  // The request is aborted at most once.
  ghost predicate OneAbort(s: System) {
    s.client.active.Some? ==>
      var a := s.client.active.value;
      && Aborts(s.toWorker, a.id) <= Count(a.abortSent)
      && (ActiveJob(s.worker).Some? ==>
           Aborts(s.toWorker, a.id) + ActiveJob(s.worker).value.abortCount <= Count(a.abortSent))
  }

  ghost predicate Alive(s: System) {
    && InOnePlace(s) && SameRequest(s) && OneAbort(s)
    && !s.worker.closed && Shutdown !in s.toWorker
    && (forall k <- s.worker.running :: s.worker.active == Some(k))
  }

  // A scan that resolves was carried out for that very call.
  ghost predicate Honest(s: System) {
    && (forall m <- s.toClient :: m.Result? ==> m.id in s.scanned)
    && (forall o <- s.client.log :: o.Resolved? ==> exists id <- s.scanned :: id in s.calls && s.calls[id] == o.call)
  }

  ghost predicate Invariant(s: System) {
    && Orderly(s.client) && R.Invariant(s.worker)
    && s.client.posts == [] && s.worker.posts == []
    && Known(s) && Honest(s)
    && (!s.client.disposed ==> Alive(s))
  }

  // ---- Counting in queues ----

  lemma {:induction false} CountsOfJoin(p: seq<ToWorker>, q: seq<ToWorker>, id: string)
    ensures Requests(p + q) == Requests(p) + Requests(q)
    ensures Aborts(p + q, id) == Aborts(p, id) + Aborts(q, id)
  {
    if p == [] {
      assert p + q == q;
    } else {
      CountsOfJoin(p[1..], q, id);
      assert (p + q)[1..] == p[1..] + q;
    }
  }

  lemma {:induction false} AnswersOfJoin(p: seq<FromWorker>, q: seq<FromWorker>)
    ensures Answers(p + q) == Answers(p) + Answers(q)
  {
    if p == [] {
      assert p + q == q;
    } else {
      AnswersOfJoin(p[1..], q);
      assert (p + q)[1..] == p[1..] + q;
    }
  }

  lemma {:induction false} NoAbortsOfUnknown(q: seq<ToWorker>, id: string)
    requires forall m <- q :: m.Abort? ==> m.id != id
    ensures Aborts(q, id) == 0
  {
    if q != [] {
      NoAbortsOfUnknown(q[1..], id);
    }
  }

  // ---- Steps of the client ----

  lemma HonestWithoutResults(s: System, t: System)
    requires Honest(s) && t.toClient == s.toClient && t.scanned == s.scanned
    requires forall id <- s.calls :: id in t.calls && t.calls[id] == s.calls[id]
    requires forall o <- t.client.log :: o.Resolved? ==> o in s.client.log
    ensures Honest(t)
  {
    forall o <- t.client.log | o.Resolved?
      ensures exists id <- t.scanned :: id in t.calls && t.calls[id] == o.call
    {
      var id :| id in s.scanned && id in s.calls && s.calls[id] == o.call;
    }
  }

  // The client gives up: from then on only its own invariant matters.
  lemma GivesUp(s: System, c: State)
    requires Invariant(s) && Orderly(c) && c.disposed
    requires forall o <- c.log :: o.Resolved? ==> o in s.client.log
    requires forall m <- c.posts :: m == Shutdown || (m.Abort? && m.id in s.calls)
    ensures Invariant(ClientMoves(s, c))
  {
    hide Orderly, R.Invariant, Alive, Honest;
    OrderlyPosts(c, []);
    DisposedIsIdle(c);
    HonestWithoutResults(s, ClientMoves(s, c));
  }

  lemma AbortSent(s: System, c: State)
    requires Invariant(s) && Orderly(c) && !c.disposed && !s.client.disposed
    requires s.client.active.Some? && !s.client.active.value.abortSent
    requires c.active.Some? && c.active.value.id == s.client.active.value.id
    requires c.active.value.call == s.client.active.value.call
    requires c.active.value.abortSent && c.log == s.client.log
    requires c.posts == [Abort(s.client.active.value.id)]
    ensures Invariant(ClientMoves(s, c))
  {
    hide Orderly, R.Invariant, Honest;
    var id := s.client.active.value.id;
    OrderlyPosts(c, []);
    HonestWithoutResults(s, ClientMoves(s, c));
    CountsOfJoin(s.toWorker, c.posts, id);
    assert Aborts([Abort(id)], id) == 1 && Requests([Abort(id)]) == 0 by { SinglePost(Abort(id), id); }
  }

  lemma SinglePost(m: ToWorker, id: string)
    ensures Requests([m]) == Count(m.ScanRequest?) && Aborts([m], id) == Count(m == Abort(id))
  {
    assert [m][1..] == [];
  }

  lemma SingleAnswer(m: FromWorker)
    ensures Answers([m]) == Count(IsAnswer(m))
  {
    assert [m][1..] == [];
  }

  // Nothing that concerns the worker changes.
  lemma NothingSent(s: System, c: State)
    requires Invariant(s) && Orderly(c) && c.posts == []
    requires c.active == s.client.active && c.disposed == s.client.disposed
    requires forall o <- c.log :: o.Resolved? ==> o in s.client.log
    ensures Invariant(ClientMoves(s, c))
  {
    hide Orderly, R.Invariant, Honest;
    HonestWithoutResults(s, ClientMoves(s, c));
    assert s.toWorker + [] == s.toWorker;
  }

  lemma AbortKeepsAll(s: System, c: State, id: string)
    requires Invariant(s) && Orderly(c) && Orderly(AbortStep(c, id))
    requires c.active == s.client.active && c.disposed == s.client.disposed && c.log == s.client.log && c.posts == []
    ensures Invariant(ClientMoves(s, AbortStep(c, id)))
  {
    hide Orderly, R.Invariant, Honest, Alive, Known;
    var t := AbortStep(c, id);
    if t.disposed && !c.disposed {
      GivesUp(s, t);
    } else if t.active == c.active {
      NothingSent(s, t);
    } else {
      ActiveMeansAlive(c);
      AbortSent(s, t);
    }
  }

  lemma ActiveMeansAlive(c: State)
    requires Orderly(c) && c.active.Some?
    ensures !c.disposed
  {}

  lemma TerminateKeepsAll(s: System, c: State)
    requires Invariant(s) && Orderly(c)
    requires c.active == s.client.active && c.disposed == s.client.disposed && c.log == s.client.log
    requires c.posts == [] || (c.posts == [Shutdown] && !c.disposed)
    ensures Invariant(ClientMoves(s, TerminateStep(c)))
  {
    hide Orderly, R.Invariant, Honest, Alive, Known;
    OrderlyTerminates(c);
    if c.disposed {
      NothingSent(s, c);
    } else {
      GivesUp(s, TerminateStep(c));
    }
  }

  lemma RequestSent(s: System, c: State, id: string)
    requires Invariant(s) && Orderly(c) && s.client.active.None? && !s.client.disposed && !c.disposed
    requires c.active.Some? && c.active.value.id == id && !c.active.value.abortSent
    requires id !in s.calls && id != WORKER && c.log == s.client.log && c.posts == [ScanRequest(id)]
    ensures Invariant(ClientMoves(s, c).(calls := s.calls[id := c.active.value.call]))
  {
    hide Orderly, R.Invariant, Honest;
    var t := ClientMoves(s, c).(calls := s.calls[id := c.active.value.call]);
    OrderlyPosts(c, []);
    CountsOfJoin(s.toWorker, c.posts, id);
    SinglePost(ScanRequest(id), id);
    NoAbortsOfUnknown(s.toWorker, id);
    NothingUnderway(s);
    HonestWithoutResults(s, t);
  }

  lemma RequestMade(s: System, id: string)
    requires Invariant(s) && CanStep(s, Resume(id))
    ensures Invariant(After(s, Resume(id)))
  {
    hide Orderly, R.Invariant, Honest, Known, Alive;
    var c := ResumeStep(s.client, id);
    OrderlyResumes(s.client, id);
    WaitingIsIdle(s.client);
    if c.active.None? {
      NothingSent(s, c);
    } else {
      RequestSent(s, c, id);
    }
  }

  lemma WaitingIsIdle(c: State)
    requires Orderly(c) && c.waiting != []
    ensures c.active.None?
  {}

  lemma {:induction false} NoneCounted(q: seq<ToWorker>, p: seq<FromWorker>)
    ensures Requests(q) == 0 ==> forall m <- q :: !m.ScanRequest?
    ensures Answers(p) == 0 ==> forall m <- p :: !IsAnswer(m)
  {
    if q != [] {
      NoneCounted(q[1..], p);
    } else if p != [] {
      NoneCounted(q, p[1..]);
    }
  }

  lemma NothingUnderway(s: System)
    requires InOnePlace(s) && s.client.active.None?
    ensures s.worker.active.None?
    ensures (forall m <- s.toWorker :: !m.ScanRequest?) && (forall m <- s.toClient :: !IsAnswer(m))
  {
    NoneCounted(s.toWorker, s.toClient);
  }

  // ---- A message reaches the client ----

  lemma QueueWithoutHead(s: System)
    requires s.toClient != [] && Known(s) && Honest(s)
    ensures Known(s.(toClient := s.toClient[1..])) && Honest(s.(toClient := s.toClient[1..]))
  {}

  // A message that is no answer, or any message to a client that has given up.
  lemma Overheard(s: System, c: State)
    requires Invariant(s) && s.toClient != [] && (s.client.disposed || !IsAnswer(s.toClient[0]))
    requires Orderly(c) && c.posts == []
    requires c.active == s.client.active && c.disposed == s.client.disposed
    requires forall o <- c.log :: o.Resolved? ==> o in s.client.log
    ensures Invariant(ClientMoves(s.(toClient := s.toClient[1..]), c))
  {
    hide Orderly, R.Invariant, Honest, Known;
    var u := s.(toClient := s.toClient[1..]);
    QueueWithoutHead(s);
    NothingSent(u, c);
  }

  lemma GivesUpOn(s: System, c: State)
    requires Invariant(s) && s.toClient != [] && Orderly(c) && c.disposed && c.posts == []
    requires forall o <- c.log :: o.Resolved? ==> o in s.client.log
    ensures Invariant(ClientMoves(s.(toClient := s.toClient[1..]), c))
  {
    hide Orderly, R.Invariant, Alive;
    var u := s.(toClient := s.toClient[1..]);
    QueueWithoutHead(s);
    HonestWithoutResults(u, ClientMoves(u, c));
    assert s.toWorker + [] == s.toWorker;
    assert c.active.None? by { DisposedIsIdle(c); }
    OrderlyPosts(c, []);
  }

  lemma DisposedIsIdle(c: State)
    requires Orderly(c) && c.disposed
    ensures c.active.None?
  {}

  lemma AnswerTaken(s: System, answer: Observed)
    requires Invariant(s) && !s.client.disposed && s.toClient != [] && IsAnswer(s.toClient[0])
    requires s.client.active.Some? && answer.call == s.client.active.value.call
    requires s.toClient[0].id == s.client.active.value.id
    requires answer.Resolved? ==> s.toClient[0].Result?
    requires Orderly(Answered(s.client, answer))
    ensures Invariant(ClientMoves(s.(toClient := s.toClient[1..]), Answered(s.client, answer)))
  {
    hide Orderly, R.Invariant;
    var c := Answered(s.client, answer);
    var t := ClientMoves(s.(toClient := s.toClient[1..]), c);
    assert s.toWorker + [] == s.toWorker;
    QueueWithoutHead(s);
    NothingUnderway(t);
    AnsweredIsHonest(s, t, answer);
  }

  lemma AnsweredIsHonest(s: System, t: System, answer: Observed)
    requires Honest(s) && Known(s) && s.toClient != [] && s.client.active.Some?
    requires answer.Resolved? ==>
      && s.toClient[0].Result? && s.toClient[0].id == s.client.active.value.id
      && answer.call == s.client.active.value.call
    requires t.toClient == s.toClient[1..] && t.scanned == s.scanned && t.calls == s.calls
    requires t.client.log == s.client.log + [answer]
    ensures Honest(t)
  {
    forall o <- t.client.log | o.Resolved?
      ensures exists id <- t.scanned :: id in t.calls && t.calls[id] == o.call
    {
      if o in s.client.log {
        var id :| id in s.scanned && id in s.calls && s.calls[id] == o.call;
      } else {
        assert s.toClient[0] in s.toClient;
        assert s.client.active.value.id in t.scanned;
      }
    }
  }

  lemma MessageReceived(s: System)
    requires Invariant(s) && s.toClient != []
    ensures Invariant(After(s, ToClient))
  {
    hide Orderly, R.Invariant, Honest, Known, InOnePlace, OneAbort;
    var m, c := s.toClient[0], ReceiveStep(s.client, s.toClient[0]);
    OrderlyReceives(s.client, m);
    if s.client.disposed {
      Overheard(s, c);
    } else if c.disposed {
      GivesUpOn(s, c);
    } else if IsAnswer(m) {
      assert m in s.toClient;
      assert OfActive(s, m.id);
      AnswerTaken(s, if m.Result? then Resolved(s.client.active.value.call) else Rejected(s.client.active.value.call));
    } else {
      Overheard(s, c);
    }
  }

  // ---- Steps of the worker ----

  // Once the client has given up, the worker only has to keep to known ids.
  lemma Unheeded(s: System, w: R.Runtime, toWorker: seq<ToWorker>, scanned: set<string>)
    requires Invariant(s) && s.client.disposed && R.Invariant(w)
    requires forall m <- toWorker :: m in s.toWorker
    requires forall j <- w.jobs :: j.id in s.calls
    requires s.scanned <= scanned && forall m <- w.posts :: m.Result? ==> m.id in scanned
    ensures Invariant(WorkerMoves(s.(toWorker := toWorker), w).(scanned := scanned))
  {
    hide Orderly, R.Invariant, Alive;
    assert R.Invariant(w.(posts := [])) by { WorkerPostsIrrelevant(w); }
    MoreScanned(s, WorkerMoves(s.(toWorker := toWorker), w).(scanned := scanned), w.posts);
  }

  lemma WorkerPostsIrrelevant(w: R.Runtime)
    requires R.Invariant(w)
    ensures R.Invariant(w.(posts := []))
  {}

  lemma MoreScanned(s: System, t: System, posts: seq<FromWorker>)
    requires Honest(s) && t.client == s.client && t.calls == s.calls && s.scanned <= t.scanned
    requires t.toClient == s.toClient + posts && forall m <- posts :: m.Result? ==> m.id in t.scanned
    ensures Honest(t)
  {
    forall o <- t.client.log | o.Resolved?
      ensures exists id <- t.scanned :: id in t.calls && t.calls[id] == o.call
    {
      var id :| id in s.scanned && id in s.calls && s.calls[id] == o.call;
    }
  }

  lemma DeliveredWhileAlive(s: System)
    requires Invariant(s) && !s.client.disposed && s.toWorker != []
    ensures var m, w := s.toWorker[0], s.worker;
      && !w.closed && m != Shutdown
      && (m.ScanRequest? ==> w.active.None?)
      && (m.Abort? && w.active.Some? && w.jobs[w.active.value].id == m.id ==> w.jobs[w.active.value].abortCount == 0)
  {
    hide Orderly, Honest;
    assert s.toWorker[0] in s.toWorker;
    AtLeastHead(s.toWorker);
  }

  lemma AtLeastHead(q: seq<ToWorker>)
    requires q != []
    ensures q[0].ScanRequest? ==> Requests(q) >= 1
    ensures q[0].Abort? ==> Aborts(q, q[0].id) >= 1
  {}

  // What a message makes of a runtime that is open, idle for a request and not yet asked to abort.
  lemma HandleIs(w: R.Runtime, m: ToWorker)
    requires R.Invariant(w) && w.posts == [] && !w.closed && m != Shutdown
    requires m.ScanRequest? ==> w.active.None?
    requires m.Abort? && w.active.Some? && w.jobs[w.active.value].id == m.id ==> w.jobs[w.active.value].abortCount == 0
    ensures var t := R.HandleStep(w, m);
      && !t.closed
      && (m.ScanRequest? && w.available ==>
            (&& t.posts == [] && t.active == Some(|w.jobs|) && t.running == w.running + {|w.jobs|}
             && |t.jobs| == |w.jobs| + 1 && t.jobs[|w.jobs|].id == m.id && t.jobs[|w.jobs|].abortCount == 0))
      && (m.ScanRequest? && !w.available ==>
            t.posts == [Error(m.id, false)] && t.active.None? && t.running == w.running)
    ensures m.Abort? ==>
      var t := R.HandleStep(w, m);
      t.posts == [] && t.active == w.active && t.running == w.running
    ensures m.Abort? && w.active.Some? ==>
      var k := w.active.value;
      var before, t := w.jobs[k], R.HandleStep(w, m).jobs[k];
      t.id == before.id && t.abortCount == before.abortCount + Count(before.id == m.id)
  {}

  // The worker takes a message while the client lives: it starts the request ...
  lemma RequestTaken(s: System)
    requires Invariant(s) && !s.client.disposed && CanStep(s, DeliverToWorker) && s.toWorker[0].ScanRequest?
    ensures Alive(After(s, DeliverToWorker))
  {
    hide Orderly, Honest, Known, OneAbort, R.HandleStep;
    var m, w := s.toWorker[0], R.HandleStep(s.worker, s.toWorker[0]);
    DeliveredWhileAlive(s);
    HandleIs(s.worker, m);
    R.HandleKeeps(s.worker, m);
    assert m in s.toWorker;
    AnswersOfJoin(s.toClient, w.posts);
    SingleAnswer(Error(m.id, false));
    NothingElse(s);
    assert OneAbort(After(s, DeliverToWorker)) by { AbortsAfterRequest(s, w); }
  }

  lemma AbortsAfterRequest(s: System, w: R.Runtime)
    requires OneAbort(s) && s.toWorker != [] && s.toWorker[0].ScanRequest?
    requires ActiveJob(w).Some? ==> ActiveJob(w).value.abortCount == 0
    ensures OneAbort(WorkerMoves(s.(toWorker := s.toWorker[1..]), w))
  {}

  // ... or marks it aborted.
  lemma AbortTaken(s: System)
    requires Invariant(s) && !s.client.disposed && CanStep(s, DeliverToWorker) && s.toWorker[0].Abort?
    ensures Alive(After(s, DeliverToWorker))
  {
    hide Orderly, Honest, Known, R.HandleStep;
    var m, w := s.toWorker[0], R.HandleStep(s.worker, s.toWorker[0]);
    DeliveredWhileAlive(s);
    HandleIs(s.worker, m);
    assert m in s.toWorker;
    assert s.toClient + [] == s.toClient;
    R.HandleKeeps(s.worker, m);
  }

  lemma NothingElse(s: System)
    requires s.toWorker != [] && s.toWorker[0].ScanRequest? && InOnePlace(s)
    ensures forall m <- s.toWorker[1..] :: !m.ScanRequest?
    ensures forall m <- s.toClient :: !IsAnswer(m)
  {
    NoneCounted(s.toWorker[1..], s.toClient);
  }

  lemma MessageTaken(s: System)
    requires Invariant(s) && CanStep(s, DeliverToWorker)
    ensures Invariant(After(s, DeliverToWorker))
  {
    hide Orderly, R.Invariant, Alive, Honest;
    var m, w := s.toWorker[0], R.HandleStep(s.worker, s.toWorker[0]);
    assert m in s.toWorker;
    assert R.Invariant(w) by { R.HandleKeeps(s.worker, m); }
    if s.client.disposed {
      Unheeded(s, w, s.toWorker[1..], s.scanned);
    } else {
      DeliveredWhileAlive(s);
      if m.ScanRequest? {
        RequestTaken(s);
      } else {
        AbortTaken(s);
      }
      WorkerPostsIrrelevant(w);
      MoreScanned(s, After(s, DeliverToWorker), w.posts);
    }
  }

  // A step of the active job that posts no answer.
  lemma JobGoesOn(s: System, w: R.Runtime, k: nat)
    requires Invariant(s) && R.Invariant(w) && k < |s.worker.jobs|
    requires w.active == s.worker.active && w.running == s.worker.running && w.closed == s.worker.closed
    requires |w.jobs| == |s.worker.jobs| && w.jobs == s.worker.jobs[k := w.jobs[k]]
    requires w.jobs[k].id == s.worker.jobs[k].id && w.jobs[k].abortCount == s.worker.jobs[k].abortCount
    requires w.posts == [] || (|w.posts| == 1 && (w.posts[0].Progress? || w.posts[0].Ready?))
    ensures Invariant(WorkerMoves(s, w))
  {
    hide Orderly, R.Invariant, Honest;
    WorkerPostsIrrelevant(w);
    MoreScanned(s, WorkerMoves(s, w), w.posts);
    AnswersOfJoin(s.toClient, w.posts);
    if w.posts != [] {
      SingleAnswer(w.posts[0]);
      assert w.posts == [w.posts[0]];
    }
  }

  lemma ReadyPosted(s: System)
    requires Invariant(s) && !s.started
    ensures Invariant(After(s, RuntimeStarts))
  {
    hide Orderly, R.Invariant, Honest;
    var w := R.Post(s.worker, Ready);
    assert R.Invariant(w) && R.Invariant(w.(posts := [])) by { RuntimePosts(s.worker, Ready); }
    MoreScanned(s, After(s, RuntimeStarts), [Ready]);
    AnswersOfJoin(s.toClient, [Ready]);
    SingleAnswer(Ready);
  }

  lemma RuntimePosts(w: R.Runtime, m: FromWorker)
    requires R.Invariant(w)
    ensures R.Invariant(R.Post(w, m)) && R.Invariant(R.Post(w, m).(posts := []))
  {}

  // What the end of a job leaves behind.
  lemma DoneIs(w: R.Runtime, k: nat, ok: bool, fatal: bool)
    requires R.Invariant(w) && k in w.running && w.posts == []
    ensures var d := R.DoneStep(w, k, ok, fatal);
      && d.posts == [d.posts[0]] && IsAnswer(d.posts[0]) && d.posts[0].id == w.jobs[k].id
      && (d.posts[0].Result? ==> ok && !w.jobs[k].aborted)
      && d.running == w.running - {k} && d.closed == w.closed
      && (w.active == Some(k) ==> d.active.None?)
      && |d.jobs| == |w.jobs| && forall i :: 0 <= i < |d.jobs| ==> d.jobs[i].id == w.jobs[i].id
  {}

  lemma FinishedAlive(s: System, k: nat, ok: bool, fatal: bool)
    requires Invariant(s) && !s.client.disposed && CanStep(s, JobDone(k, ok, fatal))
    ensures Alive(After(s, JobDone(k, ok, fatal)))
  {
    hide Orderly, R.Invariant, Honest, Known, R.DoneStep;
    var w := R.DoneStep(s.worker, k, ok, fatal);
    DoneIs(s.worker, k, ok, fatal);
    assert s.worker.active == Some(k);
    AnswersOfJoin(s.toClient, w.posts);
    SingleAnswer(w.posts[0]);
  }

  lemma JobFinished(s: System, k: nat, ok: bool, fatal: bool)
    requires Invariant(s) && CanStep(s, JobDone(k, ok, fatal))
    ensures Invariant(After(s, JobDone(k, ok, fatal)))
  {
    hide Orderly, R.Invariant, Alive, Honest, R.DoneStep;
    var w := R.DoneStep(s.worker, k, ok, fatal);
    var t := After(s, JobDone(k, ok, fatal));
    DoneIs(s.worker, k, ok, fatal);
    assert R.Invariant(w) by { R.JobStepsKeep(s.worker, k, ok, fatal); }
    assert forall j <- w.jobs :: j.id in s.calls;
    if s.client.disposed {
      Unheeded(s, w, s.toWorker, t.scanned);
    } else {
      FinishedAlive(s, k, ok, fatal);
      WorkerPostsIrrelevant(w);
      MoreScanned(s, t, w.posts);
    }
  }

  lemma ArmedRuns(w: R.Runtime, k: nat)
    requires R.Invariant(w) && k < |w.jobs| && (w.jobs[k].stageArmed || w.jobs[k].globalArmed)
    ensures k in w.running
  {}

  lemma StepKeeps(s: System, e: Step)
    requires Invariant(s) && CanStep(s, e)
    ensures Invariant(After(s, e))
  {
    hide Orderly, R.Invariant, Alive, Honest, Known, TerminateStep, AbortStep, ReceiveStep, ResumeStep;
    match e {
      case Scan =>
        OrderlyScans(s.client);
        NothingSent(s, ScanStep(s.client));
      case Resume(id) => RequestMade(s, id);
      case CallAbort(id) =>
        OrderlyAborts(s.client, id);
        AbortKeepsAll(s, s.client, id);
      case Dispose =>
        var c := s.client.(posts := s.client.posts + [Shutdown]);
        OrderlyPosts(s.client, s.client.posts + [Shutdown]);
        assert s.client.posts + [Shutdown] == [Shutdown];
        TerminateKeepsAll(s, if s.client.disposed then s.client else c);
      case ClientTimer(timer) => TimerFires(s, timer);
      case WorkerFails => TerminateKeepsAll(s, s.client);
      case ToClient => MessageReceived(s);
      case RuntimeStarts => ReadyPosted(s);
      case DeliverToWorker => MessageTaken(s);
      case JobProgress(k) =>
        R.JobStepsKeep(s.worker, k, true, true);
        JobGoesOn(s, R.ProgressStep(s.worker, k), k);
      case JobDone(k, ok, fatal) => JobFinished(s, k, ok, fatal);
      case StageTimer(k) =>
        ArmedRuns(s.worker, k);
        R.JobStepsKeep(s.worker, k, true, true);
        JobGoesOn(s, R.StageStep(s.worker, k), k);
      case GlobalTimer(k) =>
        ArmedRuns(s.worker, k);
        R.JobStepsKeep(s.worker, k, true, true);
        JobGoesOn(s, R.GlobalStep(s.worker, k), k);
    }
  }

  lemma TimerFires(s: System, timer: Timer)
    requires Invariant(s) && CanStep(s, ClientTimer(timer))
    ensures Invariant(After(s, ClientTimer(timer)))
  {
    hide R.Invariant, Alive, Honest, Known, Quiet, Settled, CallsFit;
    OrderlyFires(s.client, timer);
    var c := FireStep(s.client, timer);
    ActiveMeansAlive(s.client);
    if c.disposed {
      GivesUp(s, c);
    } else {
      AbortSent(s, c);
    }
  }

  lemma {:induction false} RunKeeps(available: bool, steps: seq<Step>)
    ensures Invariant(Run(available, steps))
  {
    hide Invariant, CanStep, After;
    if steps == [] {
      StartKeeps(available);
    } else {
      var s, e := Run(available, steps[..|steps| - 1]), steps[|steps| - 1];
      RunKeeps(available, steps[..|steps| - 1]);
      if CanStep(s, e) {
        StepKeeps(s, e);
      }
    }
  }

  lemma StartKeeps(available: bool)
    ensures Invariant(Start(available))
  {}

  // ---- Properties of every run ----

  // A scan resolves only after the scanner has carried out, without an abort, the request that was made for
  // that call: no message of an older request settles a newer one.
  lemma ResolvedMeansScanned(available: bool, steps: seq<Step>, call: nat)
    ensures var s := Run(available, steps);
      Resolved(call) in s.client.log ==> exists id <- s.scanned :: id in s.calls && s.calls[id] == call
  {
    hide Run, Orderly, R.Invariant;
    RunKeeps(available, steps);
  }

  // An answer that reaches the living client is the answer to its active request, and settles the call that
  // this request was made for, and no other: an old message neither resolves nor rejects a newer scan.
  lemma AnswersSettleTheirOwnScan(available: bool, steps: seq<Step>)
    ensures var s := Run(available, steps);
      s.toClient != [] && IsAnswer(s.toClient[0]) && !s.client.disposed ==>
        var id, t := s.toClient[0].id, After(s, ToClient);
        && s.client.active.Some? && id == s.client.active.value.id
        && id in s.calls && s.calls[id] == s.client.active.value.call
        && t.client.log == s.client.log
          + [if s.toClient[0].Result? then Resolved(s.calls[id]) else Rejected(s.calls[id])]
  {
    hide Run, R.Invariant, Honest, OneAbort, InOnePlace;
    RunKeeps(available, steps);
    var s := Run(available, steps);
    if s.toClient != [] && IsAnswer(s.toClient[0]) && !s.client.disposed {
      var m := s.toClient[0];
      assert m in s.toClient && OfActive(s, m.id);
    }
  }

  // While the client lives, a request never finds the worker busy or closed, and an abort is the first one
  // of its request: the worker's answers for these cases are never needed.
  lemma WorkerNeverBusy(available: bool, steps: seq<Step>)
    ensures var s := Run(available, steps);
      CanStep(s, DeliverToWorker) && !s.client.disposed ==>
        var m, w := s.toWorker[0], s.worker;
        && !w.closed
        && (m.ScanRequest? ==> w.active.None?)
        && (m.Abort? && w.active.Some? && w.jobs[w.active.value].id == m.id ==> w.jobs[w.active.value].abortCount == 0)
  {
    hide Run, Orderly, R.Invariant, Alive, Honest, Known;
    RunKeeps(available, steps);
    var s := Run(available, steps);
    if CanStep(s, DeliverToWorker) && !s.client.disposed {
      DeliveredWhileAlive(s);
    }
  }

  // The worker's timers, too, are armed only for its active job, and while the client lives this job is the
  // client's active request.
  lemma WorkerTimersOnlyWhileActive(available: bool, steps: seq<Step>, k: nat)
    ensures var s := Run(available, steps);
      k < |s.worker.jobs| && (s.worker.jobs[k].stageArmed || s.worker.jobs[k].globalArmed) ==>
        && s.worker.active == Some(k)
        && (!s.client.disposed ==> OfActive(s, s.worker.jobs[k].id))
  {
    hide Run, Orderly, Honest, Known;
    RunKeeps(available, steps);
  }

  // ---- The client of the system is the client on its own ----

  lemma TerminatePostsAside(c: State, posts: seq<ToWorker>)
    ensures TerminateStep(c.(posts := posts)).(posts := []) == TerminateStep(c).(posts := [])
  {}

  lemma AbortPostsAside(c: State, id: string)
    ensures AbortStep(c.(posts := []), id).(posts := []) == AbortStep(c, id).(posts := [])
  {
    hide TerminateStep;
    TerminatePostsAside(c, []);
  }

  lemma ReceivePostsAside(c: State, m: FromWorker)
    ensures ReceiveStep(c.(posts := []), m).(posts := []) == ReceiveStep(c, m).(posts := [])
  {
    hide TerminateStep;
    var failed := c.(ready := if c.ready.Unsettled? then Failed else c.ready);
    TerminatePostsAside(c, []);
    TerminatePostsAside(failed, []);
    if c.active.Some? {
      TerminatePostsAside(Answered(c, Rejected(c.active.value.call)), []);
    }
  }

  lemma EnabledAside(c: State, e: Event)
    ensures Enabled(c.(posts := []), e) <==> Enabled(c, e)
  {}

  lemma PostsAside(c: State, e: Event)
    requires Enabled(c, e)
    ensures Enabled(c.(posts := []), e) && Next(c.(posts := []), e).(posts := []) == Next(c, e).(posts := [])
  {
    hide TerminateStep, AbortStep, ReceiveStep;
    match e {
      case Received(m) => ReceivePostsAside(c, m);
      case AbortCalled(id) => AbortPostsAside(c, id);
      case WorkerFailed => TerminatePostsAside(c, []);
      case Disposed =>
        TerminatePostsAside(c, []);
        TerminatePostsAside(c, c.posts + [Shutdown]);
        TerminatePostsAside(c, [] + [Shutdown]);
      case Fired(timer) =>
        var fired := c.(timers := c.timers - {timer});
        TerminatePostsAside(fired, []);
        if timer.Global? {
          AbortPostsAside(fired, timer.id);
        }
      case _ =>
    }
  }

  // In every run of the system the client goes through a run of its own, so that all that is proved of the
  // client for arbitrary messages holds here.
  lemma {:induction false} ClientRunsOnItsOwn(available: bool, steps: seq<Step>) returns (events: seq<Event>)
    ensures WorkerClient.Run(events).(posts := []) == Run(available, steps).client
    ensures Lost(events) == {}
  {
    hide CanStep, Enabled, Next, Overwritten;
    if steps == [] {
      return [];
    }
    var s, e := Run(available, steps[..|steps| - 1]), steps[|steps| - 1];
    events := ClientRunsOnItsOwn(available, steps[..|steps| - 1]);
    RunKeeps(available, steps[..|steps| - 1]);
    if CanStep(s, e) && ClientEvent(s, e).Some? {
      var event := ClientEvent(s, e).value;
      ClientStepIs(s, e, event);
      EnabledAside(WorkerClient.Run(events), event);
      PostsAside(WorkerClient.Run(events), event);
      var more := events + [event];
      assert more[..|more| - 1] == events && more[|more| - 1] == event;
      assert WorkerClient.Run(more) == Next(WorkerClient.Run(events), event);
      NoneReplaced(s.client, WorkerClient.Run(events), event);
      return more;
    } else {
      OtherStepsLeaveClient(s, e);
    }
  }

  lemma NoneReplaced(c: State, d: State, e: Event)
    requires Orderly(c) && d.(posts := []) == c
    ensures Overwritten(d, e) == {}
  {}

  lemma ClientStepIs(s: System, e: Step, event: Event)
    requires CanStep(s, e) && s.client.posts == [] && ClientEvent(s, e) == Some(event)
    ensures Enabled(s.client, event) && After(s, e).client == Next(s.client, event).(posts := [])
  {}

  lemma OtherStepsLeaveClient(s: System, e: Step)
    requires s.client.posts == []
    ensures CanStep(s, e) && ClientEvent(s, e).None? ==> After(s, e).client == s.client
  {}
}
