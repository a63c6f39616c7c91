// apps/web/v4/runtime/worker-client.js: createWorkerClient. The closure variables of the client are the
// fields of a class; what each handler does to them is a step function on their values, and the properties
// are proved for every run of steps, whatever messages arrive.
//
// Several calls of scan may wait for the worker to get ready; they go on in the order of the calls. Assumed:
// callbacks do not call back into the client; postMessage does not throw.

module WorkerClient {
  import opened Results

  datatype ToWorker = ScanRequest(id: string) | Abort(id: string) | Shutdown

  // What assertWorkerMessage makes of a message from the worker; Malformed is what it throws on. An error
  // is fatal when its code is one of FATAL_WORKER_CODES.
  datatype FromWorker = Ready | Progress(id: string) | Result(id: string) | Error(id: string, fatal: bool) | Malformed

  const WORKER := "worker"

  // A pending timeout: the global one of a request, or the one that bounds an abort.
  datatype Timer = Global(serial: nat, id: string) | Hard(serial: nat)

  // The request that runs. call numbers the calls of scan.
  datatype Active = Active(call: nat, id: string, abortSent: bool, timeout: Timer, hardTimeout: Option<Timer>)

  // What a caller of scan observes.
  datatype Observed = Progressed(call: nat) | Resolved(call: nat) | Rejected(call: nat)

  datatype Readiness = Unsettled | Reached | Failed

  datatype State = State(
    active: Option<Active>,
    waiting: seq<nat>,
    disposed: bool,
    ready: Readiness,
    workerReady: bool,
    timers: set<Timer>,
    serial: nat,
    calls: nat,
    log: seq<Observed>,
    posts: seq<ToWorker>)

  const INITIAL: State := State(None, [], false, Unsettled, false, {}, 0, 0, [], [])

  // ---- The handlers ----

  // The timers of the active request.
  function Own(active: Option<Active>): set<Timer> {
    if active.None? then {}
    else {active.value.timeout} + (if active.value.hardTimeout.Some? then {active.value.hardTimeout.value} else {})
  }

  function TerminateStep(s: State): State {
    if s.disposed then s
    else s.(disposed := true, ready := if s.ready.Unsettled? then Failed else s.ready,
            timers := s.timers - Own(s.active),
            log := if s.active.Some? then s.log + [Rejected(s.active.value.call)] else s.log,
            active := None)
  }

  function ReceiveStep(s: State, m: FromWorker): State {
    if s.disposed then s
    else if m.Malformed? then TerminateStep(s.(ready := if s.ready.Unsettled? then Failed else s.ready))
    else if m.Ready? then s.(workerReady := true, ready := if s.ready.Unsettled? then Reached else s.ready)
    else if m.Error? && (!s.workerReady || m.id == WORKER) then TerminateStep(s)
    else if s.active.None? || m.id != s.active.value.id then s
    else match m
      case Progress(_) => s.(log := s.log + [Progressed(s.active.value.call)])
      case Result(_) => Answered(s, Resolved(s.active.value.call))
      case Error(_, fatal) =>
        var answered := Answered(s, Rejected(s.active.value.call));
        if fatal then TerminateStep(answered) else answered
  }

  // The active request ends with an answer.
  function Answered(s: State, answer: Observed): State {
    s.(active := None, timers := s.timers - Own(s.active), log := s.log + [answer])
  }

  function AbortStep(s: State, id: string): State {
    if s.active.None? || s.active.value.id != id then s
    else if s.active.value.abortSent then TerminateStep(s)
    else
      var timer := Hard(s.serial);
      s.(active := Some(s.active.value.(abortSent := true, hardTimeout := Some(timer))),
         timers := s.timers + {timer}, serial := s.serial + 1, posts := s.posts + [Abort(id)])
  }

  // A timer fires: setTimeout's callback.
  function FireStep(s: State, timer: Timer): State {
    var fired := s.(timers := s.timers - {timer});
    match timer
    case Global(_, id) => AbortStep(fired, id)
    case Hard(_) => TerminateStep(fired)
  }

  // scan up to `await ready` ...
  function ScanStep(s: State): State {
    var called := s.(calls := s.calls + 1);
    if s.disposed || s.active.Some? then called.(log := s.log + [Rejected(s.calls)])
    else called.(waiting := s.waiting + [s.calls])
  }

  // ... and from there on, once ready is settled. Whether a request is active is not asked again.
  function ResumeStep(s: State, id: string): State
    requires s.waiting != []
  {
    var call, resumed := s.waiting[0], s.(waiting := s.waiting[1..]);
    if s.ready.Failed? || s.disposed then resumed.(log := s.log + [Rejected(call)])
    else
      var timer := Global(s.serial, id);
      resumed.(active := Some(Active(call, id, false, timer, None)),
               timers := s.timers + {timer}, serial := s.serial + 1, posts := s.posts + [ScanRequest(id)])
  }

  function DisposeStep(s: State): State {
    TerminateStep(if s.disposed then s else s.(posts := s.posts + [Shutdown]))
  }

  // ---- The client ----

  class Client {
    var active: Option<Active>
    var waiting: seq<nat>
    var disposed: bool
    var ready: Readiness
    var workerReady: bool
    var timers: set<Timer>
    var serial: nat
    var calls: nat
    var log: seq<Observed>
    var posts: seq<ToWorker>

    constructor ()
      ensures Value() == INITIAL
    {
      active, waiting, disposed, ready, workerReady := None, [], false, Unsettled, false;
      timers, serial, calls, log, posts := {}, 0, 0, [], [];
    }

    function Value(): State
      reads this
    {
      State(active, waiting, disposed, ready, workerReady, timers, serial, calls, log, posts)
    }

    method SettleReady(outcome: Readiness)
      modifies this
      ensures Value() == old(Value()).(ready := if old(ready).Unsettled? then outcome else old(ready))
    {
      if ready != Unsettled { return; }
      ready := outcome;
    }

    method Schedule(timer: Timer)
      modifies this
      ensures Value() == old(Value()).(timers := old(timers) + {timer}, serial := old(serial) + 1)
    {
      timers := timers + {timer};
      serial := serial + 1;
    }

    method ClearOwn()
      modifies this
      ensures Value() == old(Value()).(timers := old(timers) - Own(old(active)))
    {
      if active.Some? {
        timers := timers - {active.value.timeout};
        if active.value.hardTimeout.Some? {
          timers := timers - {active.value.hardTimeout.value};
        }
      }
    }

    method Terminate()
      modifies this
      ensures Value() == TerminateStep(old(Value()))
    {
      if disposed { return; }
      disposed := true;
      SettleReady(Failed);
      ClearOwn();
      if active.Some? {
        log := log + [Rejected(active.value.call)];
      }
      active := None;
    }

    method Receive(message: FromWorker)
      modifies this
      ensures Value() == ReceiveStep(old(Value()), message)
    {
      if disposed { return; }
      if message.Malformed? {
        SettleReady(Failed);
        Terminate();
        return;
      }
      if message.Ready? {
        workerReady := true;
        SettleReady(Reached);
        return;
      }
      if message.Error? && (!workerReady || message.id == WORKER) {
        Terminate();
        return;
      }
      if active.None? || message.id != active.value.id { return; }
      var current := active.value;
      match message {
        case Progress(_) =>
          log := log + [Progressed(current.call)];
        case Result(_) =>
          ClearOwn();
          active := None;
          log := log + [Resolved(current.call)];
        case Error(_, fatal) =>
          ClearOwn();
          active := None;
          log := log + [Rejected(current.call)];
          if fatal {
            Terminate();
          }
      }
    }

    method AbortRequest(id: string) returns (sent: bool)
      modifies this
      ensures Value() == AbortStep(old(Value()), id)
      ensures sent == (old(active).Some? && old(active).value.id == id)
    {
      if active.None? || id != active.value.id { return false; }
      if active.value.abortSent {
        Terminate();
        return true;
      }
      active := Some(active.value.(abortSent := true));
      posts := posts + [Abort(id)];
      var timer := Hard(serial);
      Schedule(timer);
      active := Some(active.value.(hardTimeout := Some(timer)));
      return true;
    }

    method Fire(timer: Timer)
      modifies this
      ensures Value() == FireStep(old(Value()), timer)
    {
      timers := timers - {timer};
      match timer {
        case Global(_, id) =>
          var _ := AbortRequest(id);
        case Hard(_) =>
          Terminate();
      }
    }

    method Scan()
      modifies this
      ensures Value() == ScanStep(old(Value()))
    {
      var call := calls;
      calls := calls + 1;
      if disposed || active.Some? {
        log := log + [Rejected(call)];
        return;
      }
      waiting := waiting + [call];
    }

    method Resume(id: string)
      requires waiting != [] && ready != Unsettled
      modifies this
      ensures Value() == ResumeStep(old(Value()), id)
    {
      var call := waiting[0];
      waiting := waiting[1..];
      if ready.Failed? || disposed {
        log := log + [Rejected(call)];
        return;
      }
      var timer := Global(serial, id);
      Schedule(timer);
      active := Some(Active(call, id, false, timer, None));
      posts := posts + [ScanRequest(id)];
    }

    method Dispose()
      modifies this
      ensures Value() == DisposeStep(old(Value()))
    {
      if !disposed {
        posts := posts + [Shutdown];
      }
      Terminate();
    }
  }

  // ---- Runs ----

  // A failure of the worker is onerror or onmessageerror.
  datatype Event =
    | ScanCalled
    | Resumed(id: string)
    | AbortCalled(id: string)
    | Disposed
    | Fired(timer: Timer)
    | Received(message: FromWorker)
    | WorkerFailed

  predicate Enabled(s: State, e: Event) {
    match e
    case Resumed(_) => s.waiting != [] && s.ready != Unsettled
    case Fired(timer) => timer in s.timers
    case _ => true
  }

  function Next(s: State, e: Event): State
    requires Enabled(s, e)
  {
    match e
    case ScanCalled => ScanStep(s)
    case Resumed(id) => ResumeStep(s, id)
    case AbortCalled(id) => AbortStep(s, id)
    case Disposed => DisposeStep(s)
    case Fired(timer) => FireStep(s, timer)
    case Received(m) => ReceiveStep(s, m)
    case WorkerFailed => TerminateStep(s)
  }

  // The state after a whole run; an event that cannot happen changes nothing.
  function Run(events: seq<Event>): State {
    if events == [] then INITIAL
    else
      var s, e := Run(events[..|events| - 1]), events[|events| - 1];
      if Enabled(s, e) then Next(s, e) else s
  }

  // The call whose request is replaced by that of a later call.
  function Overwritten(s: State, e: Event): set<nat> {
    var overtakes := e.Resumed? && Enabled(s, e) && s.active.Some? && !s.ready.Failed? && !s.disposed;
    if overtakes then {s.active.value.call} else {}
  }

  // The calls to which this has happened in a run.
  function Lost(events: seq<Event>): set<nat> {
    if events == [] then {}
    else
      var before := events[..|events| - 1];
      Lost(before) + Overwritten(Run(before), events[|events| - 1])
  }

  // ---- What every state of a run satisfies ----

  predicate Settles(o: Observed) {
    !o.Progressed?
  }

  ghost predicate Settled(log: seq<Observed>, call: nat) {
    exists o <- log :: Settles(o) && o.call == call
  }

  // After a call is settled, nothing more is observed of it.
  ghost predicate Quiet(log: seq<Observed>) {
    forall i, j :: 0 <= i < j < |log| && Settles(log[i]) ==> log[j].call != log[i].call
  }

  predicate IsActive(s: State, call: nat) {
    s.active.Some? && s.active.value.call == call
  }

  // One of the timers of the active request is always left, and if no call was lost there are no others.
  ghost predicate TimersFit(s: State, lost: set<nat>) {
    && (forall t <- s.timers :: t.serial < s.serial)
    && (lost == {} ==> s.timers <= Own(s.active))
    && (s.ready.Unsettled? ==> s.active.None? && s.timers == {})
    && (s.active.Some? ==>
         var a := s.active.value;
         && a.timeout.Global? && a.timeout.id == a.id && a.timeout.serial < s.serial
         && (a.abortSent <==> a.hardTimeout.Some?)
         && (a.abortSent ==> a.hardTimeout.value.Hard? && a.hardTimeout.value.serial < s.serial)
         && (if a.abortSent then a.hardTimeout.value else a.timeout) in s.timers)
  }

  // Every call waits, is active, is settled or is lost, and is only one of these.
  ghost predicate CallsFit(s: State, lost: set<nat>) {
    && (forall i, j :: 0 <= i < j < |s.waiting| ==> s.waiting[i] < s.waiting[j])
    && (forall c <- s.waiting :: c < s.calls && !IsActive(s, c) && !Settled(s.log, c) && c !in lost)
    && (s.active.Some? ==> var c := s.active.value.call; c < s.calls && !Settled(s.log, c) && c !in lost)
    && (forall o <- s.log :: o.call < s.calls)
    && (forall c <- lost :: c < s.calls && !Settled(s.log, c))
    && (forall c: nat :: c < s.calls ==> c in s.waiting || IsActive(s, c) || Settled(s.log, c) || c in lost)
  }

  ghost predicate Invariant(s: State, lost: set<nat>) {
    && Quiet(s.log) && TimersFit(s, lost) && CallsFit(s, lost)
    && (s.disposed ==> s.active.None? && !s.ready.Unsettled?)
  }

  // What holds in addition if no scan is called while another one waits.
  ghost predicate Orderly(s: State) {
    Invariant(s, {}) && |s.waiting| <= 1 && (s.waiting != [] ==> s.active.None?)
  }

  lemma QuietGrows(log: seq<Observed>, o: Observed)
    requires Quiet(log) && !Settled(log, o.call)
    ensures Quiet(log + [o])
    ensures forall c: nat :: Settled(log + [o], c) <==> Settled(log, c) || (Settles(o) && o.call == c)
  {
    forall i | 0 <= i < |log| && Settles(log[i])
      ensures o.call != log[i].call
    {
      assert log[i] in log;
    }
    forall c: nat
      ensures Settled(log + [o], c) <==> Settled(log, c) || (Settles(o) && o.call == c)
    {
      assert o in log + [o];
      assert forall p <- log :: p in log + [o];
    }
  }

  lemma TerminateKeeps(s: State, lost: set<nat>)
    requires Invariant(s, lost)
    ensures Invariant(TerminateStep(s), lost)
    ensures TerminateStep(s).waiting == s.waiting
  {
    hide Quiet, Settled;
    if s.active.Some? {
      QuietGrows(s.log, Rejected(s.active.value.call));
    }
  }

  lemma AnsweredKeeps(s: State, lost: set<nat>, answer: Observed)
    requires Invariant(s, lost) && s.active.Some? && answer.call == s.active.value.call && Settles(answer)
    ensures Invariant(Answered(s, answer), lost)
  {
    hide Quiet, Settled;
    QuietGrows(s.log, answer);
  }

  lemma ReceiveKeeps(s: State, lost: set<nat>, m: FromWorker)
    requires Invariant(s, lost)
    ensures Invariant(ReceiveStep(s, m), lost)
    ensures ReceiveStep(s, m).waiting == s.waiting
    ensures s.active.None? ==> ReceiveStep(s, m).active.None?
  {
    hide Invariant, TerminateStep, Answered;
    var failed := s.(ready := if s.ready.Unsettled? then Failed else s.ready);
    if !s.disposed && m.Malformed? {
      FailedReadyKeeps(s, lost);
      TerminateKeeps(failed, lost);
      TerminatedIsIdle(failed);
    } else if !s.disposed && m.Ready? {
      ReadyKeeps(s, lost);
    } else {
      TerminateKeeps(s, lost);
      TerminatedIsIdle(s);
      if s.active.Some? {
        var call := s.active.value.call;
        ProgressKeeps(s, lost);
        AnsweredKeeps(s, lost, Resolved(call));
        AnsweredKeeps(s, lost, Rejected(call));
        AnsweredWaits(s, Resolved(call));
        AnsweredWaits(s, Rejected(call));
        TerminateKeeps(Answered(s, Rejected(call)), lost);
      }
    }
  }

  // The worker's failure reaches ready before the client gives up.
  lemma FailedReadyKeeps(s: State, lost: set<nat>)
    requires Invariant(s, lost)
    ensures Invariant(s.(ready := if s.ready.Unsettled? then Failed else s.ready), lost)
  {}

  lemma ReadyKeeps(s: State, lost: set<nat>)
    requires Invariant(s, lost)
    ensures Invariant(s.(workerReady := true, ready := if s.ready.Unsettled? then Reached else s.ready), lost)
  {}

  lemma ProgressKeeps(s: State, lost: set<nat>)
    requires Invariant(s, lost) && s.active.Some?
    ensures Invariant(s.(log := s.log + [Progressed(s.active.value.call)]), lost)
  {
    hide Quiet, Settled;
    QuietGrows(s.log, Progressed(s.active.value.call));
  }

  lemma AnsweredWaits(s: State, answer: Observed)
    ensures Answered(s, answer).waiting == s.waiting
  {}

  lemma TerminatedIsIdle(s: State)
    ensures s.active.None? || !s.disposed ==> TerminateStep(s).active.None?
  {}

  lemma AbortKeeps(s: State, lost: set<nat>, id: string)
    requires Invariant(s, lost)
    ensures Invariant(AbortStep(s, id), lost)
    ensures AbortStep(s, id).waiting == s.waiting && (s.active.None? ==> AbortStep(s, id).active.None?)
  {
    hide Quiet, Settled, TerminateStep;
    TerminateKeeps(s, lost);
  }

  // A timer of the active request aborts it, or gives up; one that is left from a lost request may do the same.
  lemma FireKeeps(s: State, lost: set<nat>, timer: Timer)
    requires Invariant(s, lost) && timer in s.timers
    ensures Invariant(FireStep(s, timer), lost)
    ensures FireStep(s, timer).waiting == s.waiting && (s.active.None? ==> FireStep(s, timer).active.None?)
    ensures timer in Own(s.active) ==>
      var t := FireStep(s, timer);
      Settled(t.log, s.active.value.call)
      || (!s.active.value.abortSent && IsActive(t, s.active.value.call) && t.active.value.abortSent)
    ensures s.active.Some? ==>
      var t := FireStep(s, timer);
      Settled(t.log, s.active.value.call)
      || (IsActive(t, s.active.value.call) && (s.active.value.abortSent ==> t.active.value.abortSent))
  {
    hide Quiet;
    if s.active.Some? {
      QuietGrows(s.log, Rejected(s.active.value.call));
    }
  }

  lemma ScanKeeps(s: State, lost: set<nat>)
    requires Invariant(s, lost)
    ensures Invariant(ScanStep(s), lost)
    ensures Orderly(s) && s.waiting == [] ==> Orderly(ScanStep(s))
  {
    hide Quiet, Settled, CallsFit;
    NewCallIsNew(s, lost);
    QuietGrows(s.log, Rejected(s.calls));
    ScanKeepsCalls(s, lost);
    if Orderly(s) {
      ScanKeepsCalls(s, {});
    }
  }

  lemma ScanKeepsCalls(s: State, lost: set<nat>)
    requires CallsFit(s, lost) && Quiet(s.log)
    ensures CallsFit(ScanStep(s), lost)
  {
    hide Quiet, Settled;
    NewCallIsNew(s, lost);
    QuietGrows(s.log, Rejected(s.calls));
    assert forall c :: c in s.waiting + [s.calls] <==> c in s.waiting || c == s.calls;
    assert forall i :: 0 <= i < |s.waiting| ==> s.waiting[i] in s.waiting;
  }

  lemma NewCallIsNew(s: State, lost: set<nat>)
    requires CallsFit(s, lost)
    ensures !Settled(s.log, s.calls) && s.calls !in lost
  {}

  lemma ResumeKeeps(s: State, lost: set<nat>, id: string)
    requires Invariant(s, lost) && Enabled(s, Resumed(id))
    ensures Invariant(ResumeStep(s, id), lost + Overwritten(s, Resumed(id)))
    ensures Orderly(s) ==> Orderly(ResumeStep(s, id)) && Overwritten(s, Resumed(id)) == {}
  {
    hide Quiet, Settled, TimersFit, CallsFit;
    FirstInLine(s, lost);
    QuietGrows(s.log, Rejected(s.waiting[0]));
    ResumeKeepsTimers(s, lost, id);
    ResumeKeepsCalls(s, lost, id);
    if Orderly(s) {
      assert Overwritten(s, Resumed(id)) == {} && {} + Overwritten(s, Resumed(id)) == {};
      ResumeKeepsTimers(s, {}, id);
      ResumeKeepsCalls(s, {}, id);
    }
  }

  lemma FirstInLine(s: State, lost: set<nat>)
    requires CallsFit(s, lost) && s.waiting != []
    ensures !Settled(s.log, s.waiting[0])
  {
    assert s.waiting[0] in s.waiting;
  }

  lemma ResumeKeepsTimers(s: State, lost: set<nat>, id: string)
    requires TimersFit(s, lost) && Enabled(s, Resumed(id))
    ensures TimersFit(ResumeStep(s, id), lost + Overwritten(s, Resumed(id)))
  {
    assert s.active.Some? ==>
      s.active.value.call in lost + Overwritten(s, Resumed(id)) || s.ready.Failed? || s.disposed;
  }

  lemma ResumeKeepsCalls(s: State, lost: set<nat>, id: string)
    requires CallsFit(s, lost) && Enabled(s, Resumed(id)) && Quiet(s.log)
    ensures CallsFit(ResumeStep(s, id), lost + Overwritten(s, Resumed(id)))
  {
    hide CallsFit, ResumeStep;
    if s.ready.Failed? || s.disposed {
      TurnedAway(s, lost, id);
      assert lost + Overwritten(s, Resumed(id)) == lost;
    } else {
      LetIn(s, lost, id);
    }
  }

  lemma TurnedAway(s: State, lost: set<nat>, id: string)
    requires CallsFit(s, lost) && s.waiting != [] && Quiet(s.log) && (s.ready.Failed? || s.disposed)
    ensures CallsFit(ResumeStep(s, id), lost)
  {
    hide Quiet, Settled;
    FirstInLine(s, lost);
    RestOfLine(s.waiting);
    QuietGrows(s.log, Rejected(s.waiting[0]));
  }

  lemma LetIn(s: State, lost: set<nat>, id: string)
    requires CallsFit(s, lost) && s.waiting != [] && !s.ready.Failed? && !s.disposed
    ensures CallsFit(ResumeStep(s, id), lost + if s.active.Some? then {s.active.value.call} else {})
  {
    hide Settled;
    FirstInLine(s, lost);
    RestOfLine(s.waiting);
  }

  lemma RestOfLine(waiting: seq<nat>)
    requires waiting != [] && forall i, j :: 0 <= i < j < |waiting| ==> waiting[i] < waiting[j]
    ensures forall c <- waiting[1..] :: c in waiting && c > waiting[0]
    ensures forall c <- waiting :: c == waiting[0] || c in waiting[1..]
    ensures forall i, j :: 0 <= i < j < |waiting[1..]| ==> waiting[1..][i] < waiting[1..][j]
  {}

  lemma NextKeeps(s: State, lost: set<nat>, e: Event)
    requires Invariant(s, lost) && Enabled(s, e)
    ensures Invariant(Next(s, e), lost + Overwritten(s, e))
  {
    hide Invariant, TerminateStep, AbortStep, ReceiveStep, FireStep, ScanStep, ResumeStep;
    assert !e.Resumed? ==> lost + Overwritten(s, e) == lost;
    match e {
      case ScanCalled => ScanKeeps(s, lost);
      case Resumed(id) => ResumeKeeps(s, lost, id);
      case AbortCalled(id) => AbortKeeps(s, lost, id);
      case Disposed =>
        PostsDoNotMatter(s, lost, s.posts + [Shutdown]);
        TerminateKeeps(s.(posts := s.posts + [Shutdown]), lost);
        TerminateKeeps(s, lost);
      case Fired(timer) => FireKeeps(s, lost, timer);
      case Received(m) => ReceiveKeeps(s, lost, m);
      case WorkerFailed => TerminateKeeps(s, lost);
    }
  }

  lemma PostsDoNotMatter(s: State, lost: set<nat>, posts: seq<ToWorker>)
    requires Invariant(s, lost)
    ensures Invariant(s.(posts := posts), lost)
  {}

  lemma InitialKeeps()
    ensures Invariant(INITIAL, {})
  {}

  lemma {:induction false} RunKeeps(events: seq<Event>)
    ensures Invariant(Run(events), Lost(events))
  {
    hide Invariant, Enabled, Next, Overwritten;
    if events == [] {
      InitialKeeps();
    } else {
      var s, e := Run(events[..|events| - 1]), events[|events| - 1];
      RunKeeps(events[..|events| - 1]);
      if Enabled(s, e) {
        NextKeeps(s, Lost(events[..|events| - 1]), e);
      } else {
        NotOverwritten(s, e);
        assert Lost(events[..|events| - 1]) + {} == Lost(events[..|events| - 1]);
      }
    }
  }

  lemma NotOverwritten(s: State, e: Event)
    requires !Enabled(s, e)
    ensures Overwritten(s, e) == {}
  {}

  // ---- If no scan is called while another one waits ----

  lemma OrderlyTerminates(s: State)
    requires Orderly(s)
    ensures Orderly(TerminateStep(s))
  {
    hide Invariant;
    TerminateKeeps(s, {});
    TerminatedIsIdle(s);
  }

  lemma OrderlyPosts(s: State, posts: seq<ToWorker>)
    requires Orderly(s)
    ensures Orderly(s.(posts := posts))
  {
    PostsDoNotMatter(s, {}, posts);
  }

  lemma OrderlyScans(s: State)
    requires Orderly(s) && s.waiting == []
    ensures Orderly(ScanStep(s))
  {
    ScanKeeps(s, {});
  }

  lemma OrderlyResumes(s: State, id: string)
    requires Orderly(s) && Enabled(s, Resumed(id))
    ensures Orderly(ResumeStep(s, id))
  {
    ResumeKeeps(s, {}, id);
  }

  lemma OrderlyReceives(s: State, m: FromWorker)
    requires Orderly(s)
    ensures Orderly(ReceiveStep(s, m))
  {
    hide Invariant;
    ReceiveKeeps(s, {}, m);
  }

  lemma OrderlyAborts(s: State, id: string)
    requires Orderly(s)
    ensures Orderly(AbortStep(s, id))
  {
    hide Invariant;
    AbortKeeps(s, {}, id);
  }

  lemma OrderlyFires(s: State, timer: Timer)
    requires Orderly(s) && timer in s.timers
    ensures Orderly(FireStep(s, timer)) && timer in Own(s.active)
  {
    hide FireStep, Quiet, CallsFit;
    FireKeeps(s, {}, timer);
  }

  // ---- Safety ----

  // In every run each scan promise is settled at most once, and no progress is delivered after that.
  lemma SettledOnceThenQuiet(events: seq<Event>, i: nat, j: nat)
    requires i < j < |Run(events).log| && Settles(Run(events).log[i])
    ensures Run(events).log[j].call != Run(events).log[i].call
  {
    hide Run;
    RunKeeps(events);
  }

  // A call is settled, or waits for the worker, or is the active request, or is lost, and never two of these.
  lemma EveryCallIsAccountedFor(events: seq<Event>, call: nat)
    requires call < Run(events).calls
    ensures var s := Run(events);
      var waits, runs, settled, lost :=
        call in s.waiting, IsActive(s, call), Settled(s.log, call), call in Lost(events);
      && (waits || runs || settled || lost)
      && !(waits && runs) && !(waits && settled) && !(waits && lost)
      && !(runs && settled) && !(runs && lost) && !(settled && lost)
  {
    hide Run, Lost;
    RunKeeps(events);
  }

  // At event n the waiting call that is first in line resumes while the given call is active.
  predicate ReplacedAt(events: seq<Event>, n: nat, call: nat)
    requires n < |events|
  {
    var s := Run(events[..n]);
    && events[n].Resumed? && Enabled(s, events[n]) && !s.ready.Failed? && !s.disposed && IsActive(s, call)
  }

  // A call is lost exactly if a later call has resumed while it was active ...
  lemma {:induction false} LostExactlyWhenReplaced(events: seq<Event>, call: nat)
    ensures call in Lost(events) <==> exists n :: 0 <= n < |events| && ReplacedAt(events, n, call)
  {
    if events != [] {
      var last := |events| - 1;
      var before := events[..last];
      LostExactlyWhenReplaced(before, call);
      assert forall n :: 0 <= n < last ==> (ReplacedAt(before, n, call) <==> ReplacedAt(events, n, call)) by {
        forall n | 0 <= n < last
          ensures ReplacedAt(before, n, call) <==> ReplacedAt(events, n, call)
        {
          assert before[..n] == events[..n];
        }
      }
      assert call in Overwritten(Run(before), events[last]) <==> ReplacedAt(events, last, call);
    }
  }

  // ... and its promise is never settled, whatever follows.
  lemma {:induction false} LostForever(events: seq<Event>, n: nat, call: nat)
    requires n <= |events| && call in Lost(events[..n])
    ensures call in Lost(events) && !Settled(Run(events).log, call)
    decreases |events|
  {
    if n == |events| {
      assert events[..n] == events;
    } else {
      var before := events[..|events| - 1];
      assert before[..n] == events[..n];
      LostForever(before, n, call);
    }
    RunKeeps(events);
  }

  // The shortest run in which this happens: two scans are called before the worker gets ready.
  lemma OverlappingScansLoseTheFirst(id: string, other: string)
    ensures var events := [ScanCalled, ScanCalled, Received(Ready), Resumed(id), Resumed(other)];
      Lost(events) == {0} && IsActive(Run(events), 1)
  {
    var e3 := [ScanCalled, ScanCalled, Received(Ready)];
    var e4, e5 := e3 + [Resumed(id)], e3 + [Resumed(id)] + [Resumed(other)];
    TwoScansWait();
    assert e4[..3] == e3 && e5[..4] == e4;
    assert Lost(e4) == {};
    assert e5 == [ScanCalled, ScanCalled, Received(Ready), Resumed(id), Resumed(other)];
  }

  // What a step makes of the pending timers: those of a request that ends are cleared, and those of one that is
  // replaced are left over.
  lemma TimersAfter(s: State, lost: set<nat>, e: Event, t: Timer)
    requires Invariant(s, lost) && Enabled(s, e) && t in Next(s, e).timers
    ensures t in Own(Next(s, e).active) || (t in s.timers && (t !in Own(s.active) || Overwritten(s, e) != {}))
  {
    hide Quiet, CallsFit, Settled, ReceiveStep;
    match e
    case Received(m) => TimersAfterMessage(s, m, t);
    case _ =>
  }

  lemma TimersAfterMessage(s: State, m: FromWorker, t: Timer)
    requires t in ReceiveStep(s, m).timers
    ensures t in Own(ReceiveStep(s, m).active) || (t in s.timers && t !in Own(s.active))
         || (ReceiveStep(s, m).active == s.active && t in s.timers)
  {}

  // At event n the request of a call is replaced to which the timer belongs.
  predicate LeftOverAt(events: seq<Event>, n: nat, t: Timer)
    requires n < |events|
  {
    var s := Run(events[..n]);
    Overwritten(s, events[n]) != {} && t in Own(s.active)
  }

  // In every run, each timer that is pending belongs to the active request or to one that was replaced.
  lemma {:induction false} EveryTimerHasARequest(events: seq<Event>, t: Timer)
    requires t in Run(events).timers
    ensures t in Own(Run(events).active) || exists n :: 0 <= n < |events| && LeftOverAt(events, n, t)
  {
    hide Enabled, Next, Overwritten, Own;
    if events != [] {
      var last := |events| - 1;
      var before := events[..last];
      RunKeeps(before);
      if Enabled(Run(before), events[last]) {
        TimersAfter(Run(before), Lost(before), events[last], t);
      }
      if t in Run(before).timers {
        EveryTimerHasARequest(before, t);
        if n :| 0 <= n < last && LeftOverAt(before, n, t) {
          assert events[..n] == before[..n];
          assert LeftOverAt(events, n, t);
        }
      }
      assert Overwritten(Run(before), events[last]) != {} && t in Own(Run(before).active) ==>
        LeftOverAt(events, last, t);
    }
  }

  // The timer of the first of two overlapping scans is left over; had that scan been aborted, its abort timer
  // gives up on the worker, and the second scan, which nobody has aborted, is rejected.
  lemma LeftOverTimerRejectsTheSecond(id: string, other: string)
    ensures var events := [ScanCalled, ScanCalled, Received(Ready), Resumed(id), AbortCalled(id), Resumed(other)];
      var s := Run(events);
      && IsActive(s, 1) && !s.active.value.abortSent
      && Global(0, id) in s.timers && Global(0, id) !in Own(s.active)
      && Enabled(s, Fired(Hard(1))) && Hard(1) !in Own(s.active)
      && Next(s, Fired(Hard(1))).log == [Rejected(1)]
  {
    var e3 := [ScanCalled, ScanCalled, Received(Ready)];
    var e4, e5 := e3 + [Resumed(id)], e3 + [Resumed(id)] + [AbortCalled(id)];
    var e6 := e5 + [Resumed(other)];
    TwoScansWait();
    assert e4[..3] == e3 && e5[..4] == e4 && e6[..5] == e5;
    var first := Global(0, id);
    var a := Active(0, id, false, first, None);
    var waiting := INITIAL.(waiting := [1], calls := 2, workerReady := true, ready := Reached);
    assert [0, 1][1..] == [1] && [1][1..] == [];
    assert Run(e4) == waiting.(active := Some(a), timers := {first}, serial := 1, posts := [ScanRequest(id)]);
    assert Run(e5) == waiting.(active := Some(a.(abortSent := true, hardTimeout := Some(Hard(1)))),
                               timers := {first, Hard(1)}, serial := 2, posts := [ScanRequest(id), Abort(id)]);
    assert e6 == [ScanCalled, ScanCalled, Received(Ready), Resumed(id), AbortCalled(id), Resumed(other)];
  }

  lemma TwoScansWait()
    ensures Run([ScanCalled, ScanCalled, Received(Ready)])
         == INITIAL.(waiting := [0, 1], calls := 2, workerReady := true, ready := Reached)
    ensures Lost([ScanCalled, ScanCalled, Received(Ready)]) == {}
  {
    var e2, e3 := [ScanCalled, ScanCalled], [ScanCalled, ScanCalled, Received(Ready)];
    assert e2[..1] == [ScanCalled] && [ScanCalled][..0] == [] && e3[..2] == e2;
    assert Run([]) == INITIAL && Lost([]) == {};
    assert Run([ScanCalled]) == INITIAL.(waiting := [0], calls := 1);
    assert Run(e2) == INITIAL.(waiting := [0, 1], calls := 2);
  }

  // As long as no call is lost, a timer is pending exactly while a request is active.
  lemma TimersOnlyWhileActive(events: seq<Event>)
    requires Lost(events) == {}
    ensures Run(events).timers != {} <==> Run(events).active.Some?
    ensures Run(events).timers <= Own(Run(events).active)
  {
    hide Run;
    RunKeeps(events);
    var s := Run(events);
    if s.active.Some? {
      var a := s.active.value;
      assert a.timeout in s.timers || (a.hardTimeout.Some? && a.hardTimeout.value in s.timers);
    }
  }

  // An event by which the worker or the caller could end a wait.
  predicate EndsWait(e: Event) {
    e.Received? || e.WorkerFailed? || e.Disposed?
  }

  // However many other events there are, a scan whose worker stays silent waits for it.
  lemma {:induction false} SilentWorkerKeepsWaiting(events: seq<Event>)
    requires events != [] && events[0] == ScanCalled && forall e <- events :: !EndsWait(e)
    ensures var s := Run(events);
      s.waiting != [] && s.waiting[0] == 0 && s.ready == Unsettled && s.timers == {} && s.log == []
    decreases |events|
  {
    var before, e := events[..|events| - 1], events[|events| - 1];
    if before == [] {
      assert Run(before) == INITIAL;
    } else {
      assert before[0] == events[0] && e in events && forall f <- before :: f in events;
      SilentWorkerKeepsWaiting(before);
      RunKeeps(before);
    }
  }

  // Nothing but the worker or the caller ends the wait for a worker that never gets ready: no timer runs.
  lemma WaitingHasNoTimeout(events: seq<Event>, timer: Timer)
    ensures Run(events).ready.Unsettled? ==> !Enabled(Run(events), Fired(timer))
  {
    hide Run;
    RunKeeps(events);
  }

  // ---- Progress ----

  // A step neither forgets a settlement nor lets an active call slip away, unless it replaces it, and a timer
  // of the call that fires brings it closer to its end.
  lemma StepForActive(s: State, lost: set<nat>, e: Event, call: nat)
    requires Invariant(s, lost) && Enabled(s, e) && IsActive(s, call)
    ensures var t := Next(s, e);
      || Settled(t.log, call) || call in Overwritten(s, e)
      || (&& IsActive(t, call)
          && (s.active.value.abortSent ==> t.active.value.abortSent)
          && (e.Fired? && e.timer in Own(s.active) ==> !s.active.value.abortSent && t.active.value.abortSent))
  {
    hide Quiet;
    QuietGrows(s.log, Rejected(call));
    QuietGrows(s.log, Resolved(call));
    match e {
      case Fired(timer) =>
        hide FireStep, TerminateStep, AbortStep, Settled, TimersFit, CallsFit;
        FireKeeps(s, lost, timer);
      case Received(m) => ReceiveForActive(s, lost, m, call);
      case _ =>
    }
  }

  lemma ReceiveForActive(s: State, lost: set<nat>, m: FromWorker, call: nat)
    requires Invariant(s, lost) && IsActive(s, call)
    ensures var t := ReceiveStep(s, m);
      Settled(t.log, call) || t.active == s.active
  {
    QuietGrows(s.log, Rejected(call));
    QuietGrows(s.log, Resolved(call));
  }

  lemma SettledStays(s: State, e: Event, call: nat)
    requires Enabled(s, e) && Settled(s.log, call)
    ensures Settled(Next(s, e).log, call)
  {
    assert s.log <= Next(s, e).log;
    assert forall o <- s.log :: o in Next(s, e).log;
  }

  // How many timers of the request that is active fire in a run after its first n events.
  function Firings(events: seq<Event>, n: nat): nat {
    if |events| <= n then 0
    else
      var before, e := events[..|events| - 1], events[|events| - 1];
      Firings(before, n) + if e.Fired? && Enabled(Run(before), e) && e.timer in Own(Run(before).active) then 1 else 0
  }

  lemma {:induction false} FiringsSettle(events: seq<Event>, n: nat, call: nat)
    requires n <= |events| && IsActive(Run(events[..n]), call)
    ensures || Settled(Run(events).log, call) || call in Lost(events)
            || (&& IsActive(Run(events), call)
                && Firings(events, n) <= if Run(events).active.value.abortSent then 1 else 0)
  {
    hide Enabled, Next, Settled, Overwritten;
    if n == |events| {
      assert events[..n] == events;
    } else {
      var before, e := events[..|events| - 1], events[|events| - 1];
      assert before[..n] == events[..n];
      FiringsSettle(before, n, call);
      RunKeeps(before);
      if Enabled(Run(before), e) {
        if Settled(Run(before).log, call) {
          SettledStays(Run(before), e, call);
        } else if call !in Lost(before) {
          StepForActive(Run(before), Lost(before), e, call);
        }
      }
    }
  }

  // Whatever else happens, a scan that is active after n events of a run and is not replaced is settled by the
  // time two timers of the active request have fired: its timeout, which asks the worker to abort, and the
  // one that then gives up on the worker.
  lemma TwoTimersSettle(events: seq<Event>, n: nat, call: nat)
    requires n <= |events| && IsActive(Run(events[..n]), call) && Firings(events, n) >= 2
    ensures Settled(Run(events).log, call) <==> call !in Lost(events)
  {
    hide Run, Settled, Firings, Lost;
    FiringsSettle(events, n, call);
    RunKeeps(events);
  }
}
