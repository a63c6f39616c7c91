// How submissions end (apps/web/v4/proof-transaction-acceptance.js, lines 47-62 and 131-283): what the steps of an
// attempt leave in the attempt and in the shared record when nothing else comes in between. The runs are written
// out, step by step, on any system that a run has led to.

module SendOutcomes {
  import opened Results
  import opened Text
  import opened SendCoordinator
  import opened SendProtocol

  // What attempt id waits for happens again and again, at the given times.
  function Proceeded(c: Config, s: Sys, id: nat, times: seq<int>): Sys
    decreases |times|
  {
    if times == [] then s else Proceeded(c, Next(c, s, Proceed(id, times[0])), id, times[1..])
  }

  // The record is that of attempt id, in one of these states.
  predicate Owns(c: Config, s: Sys, id: nat, states: set<State>) {
    var r := Seen(s.cell, c.intentId);
    r.Some? && r.value.ownerId == c.owner(id) && r.value.state in states
  }

  // The attempt ends like this and leaves the other attempts alone.
  predicate Ends(s: Sys, t: Sys, id: nat, pc: Pc, status: Status, hash: Option<string>) {
    && id in t.attempts && t.attempts == s.attempts[id := t.attempts[id]]
    && t.attempts[id].pc == pc && t.attempts[id].status == status && t.attempts[id].transactionHash == hash
  }

  // The record was written at this time; a later operation reads it, unless the clock is no safe integer.
  predicate Holds(c: Config, t: Sys, r: Record, now: int) {
    && r.updatedAt == now && r.intentId == c.intentId && t.cell == Written(r)
    && (IsSafeInteger(now) ==> Seen(t.cell, c.intentId) == Some(r))
  }

  // ---- What an attempt looks like up to the answer ----

  const requested := claimed.(state := WalletRequestPending, status := RequestPending)

  predicate Placed(a: Attempt) {
    match a.pc
    case Checking => a == claimed
    case RecordingRequest => a == requested.(pc := RecordingRequest)
    case NotifyingRequest => a == requested.(pc := NotifyingRequest)
    case RecordingStart => a == requested.(pc := RecordingStart)
    case Calling => a == requested.(pc := Calling)
    case NotifyingStart => Asked(a)
    case Racing => Asked(a)
    case RecordingHash => Answers(a)
    case NotifyingHash => Answers(a)
    case Returned => Answers(a)
    case _ => true
  }

  predicate Asked(a: Attempt) {
    && a == called.(pc := a.pc, call := a.call, late := a.late) && !a.call.NotCalled?
    && a.late == if a.call.Outstanding? then Waiting else LateDone
  }

  predicate Answers(a: Attempt) {
    && a.state.TxHashKnown? && a.status.Pending? && a.providerInvoked
    && a.transactionHash.Some? && AnsweredWith(a, a.transactionHash.value)
  }

  lemma EvolvingKeepsPlaced(a: Attempt, b: Attempt, forged: bool)
    requires Placed(a) && Evolves(a, b, forged)
    ensures Placed(b)
  {
    hide Resume, CallbackFails;
    ResumingKeepsPlaced(a, true);
    ResumingKeepsPlaced(a, false);
    CallbacksKeepPlaced(a, true);
    CallbacksKeepPlaced(a, false);
  }

  lemma ResumingKeepsPlaced(a: Attempt, good: bool)
    requires Placed(a)
    ensures Placed(Resume(a, good))
  {}

  lemma CallbacksKeepPlaced(a: Attempt, rejectionCode: bool)
    requires Placed(a)
    ensures Placed(CallbackFails(a, rejectionCode))
  {}

  lemma {:induction false} RunsArePlaced(c: Config, stored: Cell, steps: seq<Step>, id: nat)
    requires id in Run(c, stored, steps).attempts
    ensures Placed(Run(c, stored, steps).attempts[id])
  {
    hide Placed, Evolves, Next;
    if steps != [] {
      var before, step := Run(c, stored, steps[..|steps| - 1]), steps[|steps| - 1];
      StepsEvolve(c, before, step, id);
      if id in before.attempts {
        RunsArePlaced(c, stored, steps[..|steps| - 1], id);
        EvolvingKeepsPlaced(before.attempts[id], Run(c, stored, steps).attempts[id], Forges(c, before, step));
      } else {
        assert Placed(claimed) by { ClaimedIsPlaced(); }
      }
    }
  }

  lemma ClaimedIsPlaced()
    ensures Placed(claimed)
  {}

  lemma ReachableIsPlaced(c: Config, stored: Cell, s: Sys, id: nat)
    requires Reachable(c, stored, s) && id in s.attempts
    ensures Placed(s.attempts[id])
  {
    var steps :| Run(c, stored, steps) == s;
    RunsArePlaced(c, stored, steps, id);
  }

  // ---- Single steps of an attempt, written as what it has done to the system s it found ----

  lemma Tails(times: seq<int>)
    ensures forall i | 0 < i < |times| :: times[i..][1..] == times[i + 1..]
  {}

  lemma Found(s: Sys, id: nat)
    requires id in s.attempts
    ensures s == Put(s, id, s.cell, s.attempts[id])
  {}

  // The last of the steps was taken, and r was written at the given time.
  lemma Stops(c: Config, s: Sys, id: nat, r: Record, a: Attempt, times: seq<int>, now: int)
    requires times == [] && r.updatedAt == now && r.intentId == c.intentId
    requires IsSafeInteger(now) ==> Seen(Written(r), c.intentId) == Some(r)
    ensures var t := Proceeded(c, Put(s, id, Written(r), a), id, times);
      Ends(s, t, id, a.pc, a.status, a.transactionHash) && Holds(c, t, r, now) && t.attempts[id] == a
  {}

  lemma StopsFree(c: Config, s: Sys, id: nat, a: Attempt, times: seq<int>)
    requires times == []
    ensures var t := Proceeded(c, Put(s, id, None, a), id, times);
      Ends(s, t, id, a.pc, a.status, a.transactionHash) && t.cell == None
  {}

  lemma SeenIs(cell: Cell, intentId: string)
    requires Seen(cell, intentId).Some?
    ensures Seen(cell, intentId).value.intentId == intentId && Readable(Seen(cell, intentId).value)
  {}

  lemma Resumes(c: Config, s: Sys, id: nat, cell: Cell, a: Attempt, times: seq<int>, b: Attempt)
    requires Wants(a).NoLock? && times != [] && b == Resume(a, true)
    ensures Proceeded(c, Put(s, id, cell, a), id, times) == Proceeded(c, Put(s, id, cell, b), id, times[1..])
  {
    assert s.attempts[id := a][id := b] == s.attempts[id := b];
  }

  function Moved(r: Record, to: State, hash: Option<string>, now: int): Record {
    r.(state := to, transactionHash := if hash.Some? then hash else r.transactionHash, updatedAt := now)
  }

  lemma MovedIsReadBack(cell: Cell, intentId: string, to: State, hash: Option<string>, now: int)
    requires Seen(cell, intentId).Some? && (hash.Some? ==> IsHash(hash.value)) && (to.TxHashKnown? ==> hash.Some?)
    requires IsSafeInteger(now)
    ensures var r := Moved(Seen(cell, intentId).value, to, hash, now); Seen(Written(r), intentId) == Some(r)
  {
    var r := Seen(cell, intentId).value;
    assert Readable(r) && r.intentId == intentId;
    WrittenIsReadBack(Moved(r, to, hash, now));
  }

  lemma Transitions(cell: Cell, intentId: string, owner: string, to: State, hash: Option<string>, now: int)
    requires IsHash(intentId) && !to.Prepared?
    requires (hash.Some? ==> IsHash(hash.value)) && (to.TxHashKnown? ==> hash.Some?)
    requires var r := Seen(cell, intentId); r.Some? && r.value.ownerId == owner && Allowed(r.value.state, to)
    ensures var r := Moved(Seen(cell, intentId).value, to, hash, now);
      TransitionStep(cell, intentId, owner, to, hash, now) == Locked(Written(r), Ok(r))
  {
    if hash.Some? {
      LowerKeepsHash(hash.value);
    }
  }

  // The owner of the record performs an allowed transition.
  lemma Records(c: Config, s: Sys, id: nat, cell: Cell, a: Attempt, to: State, hash: Option<string>, times: seq<int>,
                b: Attempt)
    requires IsHash(c.intentId) && Wants(a) == Transition(to, hash) && times != [] && b == Resume(a, true)
    requires !to.Prepared? && (hash.Some? ==> IsHash(hash.value)) && (to.TxHashKnown? ==> hash.Some?)
    requires var r := Seen(cell, c.intentId);
      r.Some? && r.value.ownerId == c.owner(id) && Allowed(r.value.state, to)
    ensures var r := Moved(Seen(cell, c.intentId).value, to, hash, times[0]);
      && Proceeded(c, Put(s, id, cell, a), id, times) == Proceeded(c, Put(s, id, Written(r), b), id, times[1..])
      && (IsSafeInteger(times[0]) ==> Seen(Written(r), c.intentId) == Some(r))
  {
    hide Lower, Resume, IsHash, Seen, TransitionStep, IsSafeInteger;
    Transitions(cell, c.intentId, c.owner(id), to, hash, times[0]);
    if IsSafeInteger(times[0]) {
      MovedIsReadBack(cell, c.intentId, to, hash, times[0]);
    }
    assert s.attempts[id := a][id := b] == s.attempts[id := b];
  }

  lemma Frees(c: Config, s: Sys, id: nat, cell: Cell, a: Attempt, walletRejected: bool, times: seq<int>, b: Attempt)
    requires IsHash(c.intentId) && Wants(a) == Release(walletRejected) && times != [] && b == Resume(a, true)
    requires var r := Seen(cell, c.intentId);
      && r.Some? && r.value.ownerId == c.owner(id)
      && ((BeforeProvider(r.value.state) && !a.providerInvoked) || (walletRejected && r.value.state.Rejected?))
    ensures Proceeded(c, Put(s, id, cell, a), id, times) == Proceeded(c, Put(s, id, None, b), id, times[1..])
  {
    assert s.attempts[id := a][id := b] == s.attempts[id := b];
  }

  // ---- Reaching the wallet ----

  // There is no record, or one that did not reach the wallet within its lease.
  ghost predicate Open(c: Config, s: Sys, now: int) {
    s.cell == None || Expired(Seen(s.cell, c.intentId), now, c.leaseMs)
  }

  // An open intent is claimed by the next submission.
  lemma OpenIntentIsClaimed(c: Config, s: Sys, id: nat, now: int)
    requires IsHash(c.intentId) && Open(c, s, now) && id !in s.attempts
    ensures var t := Next(c, s, Start(id, now));
      && Ends(s, t, id, Checking, Validating, None)
      && Holds(c, t, Record(c.intentId, c.owner(id), Prepared, None, now, now), now)
  {
    ClaimSucceedsExactly(s.cell, c.intentId, c.owner(id), c.leaseMs, now);
    WrittenIsReadBack(Record(c.intentId, c.owner(id), Prepared, None, now, now));
  }

  // With its validation behind it, the owner of a prepared record asks the wallet.
  lemma PreparedAsksWallet(c: Config, stored: Cell, s: Sys, id: nat, times: seq<int>)
    requires IsHash(c.intentId) && Reachable(c, stored, s) && id in s.attempts && s.attempts[id].pc.Checking?
    requires Owns(c, s, id, {Prepared}) && |times| == 6 && IsSafeInteger(times[1])
    ensures var t := Proceeded(c, s, id, times);
      && Ends(s, t, id, Racing, Reconciling, None) && t.attempts[id].call.Outstanding?
      && Holds(c, t, Seen(s.cell, c.intentId).value.(state := ProviderCallStarted, updatedAt := times[3]), times[3])
  {
    hide Reachable, Seen, Next, Proceeded, Put, Ends, Readable, IsHash, Written;
    ReachableIsPlaced(c, stored, s, id);
    Found(s, id);
    Tails(times);
    SeenIs(s.cell, c.intentId);
    var r := Seen(s.cell, c.intentId).value;
    var r1 := Moved(r, WalletRequestPending, None, times[1]);
    Resumes(c, s, id, s.cell, claimed, times, requested.(pc := RecordingRequest));
    Records(c, s, id, s.cell, requested.(pc := RecordingRequest), WalletRequestPending, None, times[1..],
            requested.(pc := NotifyingRequest));
    Resumes(c, s, id, Written(r1), requested.(pc := NotifyingRequest), times[2..], requested.(pc := RecordingStart));
    Records(c, s, id, Written(r1), requested.(pc := RecordingStart), ProviderCallStarted, None, times[3..],
            requested.(pc := Calling));
    var r2 := Moved(r1, ProviderCallStarted, None, times[3]);
    Resumes(c, s, id, Written(r2), requested.(pc := Calling), times[4..], called);
    Resumes(c, s, id, Written(r2), called, times[5..], called.(pc := Racing));
    Stops(c, s, id, r2, called.(pc := Racing), times[6..], times[3]);
  }

  // ---- The answer ----

  // A transaction hash in time is recorded, and the submission returns.
  lemma AnswerInTimeIsRecorded(c: Config, stored: Cell, s: Sys, id: nat, text: string, times: seq<int>)
    requires IsHash(c.intentId) && Reachable(c, stored, s) && id in s.attempts
    requires s.attempts[id].pc.Racing? && s.attempts[id].call.Outstanding?
    requires Owns(c, s, id, {ProviderCallStarted, ReconciliationRequired}) && IsHash(Lower(text)) && |times| == 3
    ensures var t := Proceeded(c, Next(c, s, WalletAnswers(id, Fulfilled(text))), id, times);
      && Ends(s, t, id, Returned, Pending, Some(Lower(text)))
      && Holds(c, t, Seen(s.cell, c.intentId).value.(state := TxHashKnown, transactionHash := Some(Lower(text)),
                                                     updatedAt := times[1]), times[1])
  {
    hide Reachable, Seen, Proceeded, Lower, IsHash, Ends, Readable, Written;
    ReachableIsPlaced(c, stored, s, id);
    Tails(times);
    SeenIs(s.cell, c.intentId);
    var answered := called.(pc := Racing, call := Answered(Fulfilled(text)), late := LateDone);
    var known := answered.(state := TxHashKnown, status := Pending, transactionHash := Some(Lower(text)),
                           pc := RecordingHash);
    assert Next(c, s, WalletAnswers(id, Fulfilled(text))) == Put(s, id, s.cell, answered);
    Resumes(c, s, id, s.cell, answered, times, known);
    Records(c, s, id, s.cell, known, TxHashKnown, Some(Lower(text)), times[1..], known.(pc := NotifyingHash));
    var r := Moved(Seen(s.cell, c.intentId).value, TxHashKnown, Some(Lower(text)), times[1]);
    Resumes(c, s, id, Written(r), known.(pc := NotifyingHash), times[2..], known.(pc := Returned));
    Stops(c, s, id, r, known.(pc := Returned), times[3..], times[1]);
  }

  // A submission returns with nothing else.
  lemma ReturnedMeansAnswered(c: Config, stored: Cell, s: Sys, id: nat)
    requires Reachable(c, stored, s) && id in s.attempts && s.attempts[id].pc.Returned?
    ensures var a := s.attempts[id];
      && a.transactionHash.Some? && IsHash(a.transactionHash.value) && a.status.Pending?
      && a.call.Answered? && a.call.answer.Fulfilled? && Lower(a.call.answer.text) == a.transactionHash.value
  {
    ReachableIsPlaced(c, stored, s, id);
  }

  // The rejection by the user frees the intent, and the submission throws.
  lemma RejectionFreesTheIntent(c: Config, stored: Cell, s: Sys, id: nat, times: seq<int>)
    requires IsHash(c.intentId) && Reachable(c, stored, s) && id in s.attempts
    requires s.attempts[id].pc.Racing? && s.attempts[id].call.Outstanding?
    requires Owns(c, s, id, {ProviderCallStarted, ReconciliationRequired}) && |times| == 5 && IsSafeInteger(times[1])
    ensures var t := Proceeded(c, Next(c, s, WalletAnswers(id, WalletRejection)), id, times);
      Ends(s, t, id, Threw, Released, None) && t.cell == None
  {
    hide Reachable, Seen, Proceeded, IsHash, Ends, Readable, Written;
    ReachableIsPlaced(c, stored, s, id);
    Tails(times);
    SeenIs(s.cell, c.intentId);
    var answered := called.(pc := Racing, call := Answered(WalletRejection), late := LateDone);
    var rejected := answered.(state := Rejected, status := UserRejected, pc := RecordingRejection);
    var released := rejected.(status := Released, pc := NotifyingRelease);
    assert Next(c, s, WalletAnswers(id, WalletRejection)) == Put(s, id, s.cell, answered);
    Resumes(c, s, id, s.cell, answered, times, rejected);
    Records(c, s, id, s.cell, rejected, Rejected, None, times[1..], rejected.(pc := NotifyingRejection));
    var r := Moved(Seen(s.cell, c.intentId).value, Rejected, None, times[1]);
    Resumes(c, s, id, Written(r), rejected.(pc := NotifyingRejection), times[2..],
            rejected.(pc := Releasing(true)));
    Frees(c, s, id, Written(r), rejected.(pc := Releasing(true)), true, times[3..], released);
    Resumes(c, s, id, None, released, times[4..], released.(pc := Threw));
    StopsFree(c, s, id, released.(pc := Threw), times[5..]);
  }

  // ---- Errors ----

  // Something throws before the wallet is called: the validation, a lock, or the first callback.
  predicate BreaksEarly(a: Attempt, step: Step, id: nat) {
    || (a.pc.Checking? && step.CheckFails? && step.id == id)
    || (a.pc.NotifyingRequest? && step == CallbackThrows(id, false))
    || ((a.pc.RecordingRequest? || a.pc.RecordingStart?) && step == LockFails(id))
  }

  // The intent is free again.
  lemma EarlyErrorFreesTheIntent(c: Config, stored: Cell, s: Sys, id: nat, step: Step, times: seq<int>)
    requires IsHash(c.intentId) && Reachable(c, stored, s) && id in s.attempts
    requires BreaksEarly(s.attempts[id], step, id) && Owns(c, s, id, {Prepared, WalletRequestPending}) && |times| == 2
    ensures var t := Proceeded(c, Next(c, s, step), id, times);
      Ends(s, t, id, Threw, Released, None) && t.cell == None
  {
    hide Reachable, Seen, Proceeded, IsHash, Ends;
    ReachableIsPlaced(c, stored, s, id);
    Tails(times);
    var a := s.attempts[id];
    var releasing := a.(pc := Releasing(step.CheckFails? && step.rejectionCode));
    var released := claimed.(state := Rejected, status := Released, pc := NotifyingRelease);
    assert Next(c, s, step) == Put(s, id, s.cell, releasing);
    Frees(c, s, id, s.cell, releasing, releasing.pc.walletRejected, times, released);
    Resumes(c, s, id, None, released, times[1..], released.(pc := Threw));
    StopsFree(c, s, id, released.(pc := Threw), times[2..]);
  }

  // Something goes wrong behind the call: the timeout, a lock, or a callback.
  predicate BreaksLate(a: Attempt, step: Step, id: nat) {
    || (a.pc.Racing? && step == TimesOut(id))
    || ((a.pc.NotifyingStart? || a.pc.NotifyingHash?) && step == CallbackThrows(id, false))
    || (a.pc.RecordingHash? && step == LockFails(id))
  }

  // The record asks for reconciliation, and neither it nor the attempt loses a hash.
  lemma LateErrorAsksForReconciliation(c: Config, stored: Cell, s: Sys, id: nat, step: Step, times: seq<int>)
    requires IsHash(c.intentId) && Reachable(c, stored, s) && id in s.attempts
    requires BreaksLate(s.attempts[id], step, id) && Owns(c, s, id, {ProviderCallStarted, TxHashKnown}) && |times| == 2
    ensures var t := Proceeded(c, Next(c, s, step), id, times);
      && Ends(s, t, id, Threw, Reconciling, s.attempts[id].transactionHash)
      && t.attempts[id].state.ReconciliationRequired? && t.attempts[id].call == s.attempts[id].call
      && Holds(c, t, Seen(s.cell, c.intentId).value.(state := ReconciliationRequired, updatedAt := times[0]), times[0])
  {
    hide Reachable, Seen, Proceeded, IsHash, Ends, Readable, Written;
    ReachableIsPlaced(c, stored, s, id);
    Tails(times);
    SeenIs(s.cell, c.intentId);
    var failed := s.attempts[id].(state := ReconciliationRequired, status := Reconciling,
                                  pc := RecordingReconciliation);
    assert Next(c, s, step) == Put(s, id, s.cell, failed);
    Reconciles(c, s, id, s.cell, failed, times);
  }

  lemma Reconciles(c: Config, s: Sys, id: nat, cell: Cell, a: Attempt, times: seq<int>)
    requires IsHash(c.intentId) && a.pc.RecordingReconciliation? && |times| == 2
    requires var r := Seen(cell, c.intentId);
      r.Some? && r.value.ownerId == c.owner(id) && r.value.state in {ProviderCallStarted, TxHashKnown}
    ensures var t := Proceeded(c, Put(s, id, cell, a), id, times);
      && Ends(s, t, id, Threw, a.status, a.transactionHash) && t.attempts[id] == a.(pc := Threw)
      && Holds(c, t, Seen(cell, c.intentId).value.(state := ReconciliationRequired, updatedAt := times[0]), times[0])
  {
    hide Seen, Proceeded, IsHash, Ends, Readable, Written;
    Tails(times);
    SeenIs(cell, c.intentId);
    Records(c, s, id, cell, a, ReconciliationRequired, None, times, a.(pc := NotifyingReconciliation));
    var r := Moved(Seen(cell, c.intentId).value, ReconciliationRequired, None, times[0]);
    Resumes(c, s, id, Written(r), a.(pc := NotifyingReconciliation), times[1..], a.(pc := Threw));
    Stops(c, s, id, r, a.(pc := Threw), times[2..], times[0]);
  }

  // So does an answer that is neither a rejection nor a transaction hash.
  lemma UnclearAnswerAsksForReconciliation(c: Config, stored: Cell, s: Sys, id: nat, answer: Answer, times: seq<int>)
    requires IsHash(c.intentId) && Reachable(c, stored, s) && id in s.attempts
    requires s.attempts[id].pc.Racing? && s.attempts[id].call.Outstanding?
    requires answer.OtherError? || (answer.Fulfilled? && !IsHash(Lower(answer.text)))
    requires Owns(c, s, id, {ProviderCallStarted}) && |times| == 3
    ensures var t := Proceeded(c, Next(c, s, WalletAnswers(id, answer)), id, times);
      && Ends(s, t, id, Threw, Reconciling, None)
      && Holds(c, t, Seen(s.cell, c.intentId).value.(state := ReconciliationRequired, updatedAt := times[1]), times[1])
  {
    hide Reachable, Seen, Proceeded, IsHash, Lower, Ends, Readable, Written;
    ReachableIsPlaced(c, stored, s, id);
    Tails(times);
    var answered := called.(pc := Racing, call := Answered(answer), late := LateDone);
    var failed := answered.(state := ReconciliationRequired, status := Reconciling, pc := RecordingReconciliation);
    assert Next(c, s, WalletAnswers(id, answer)) == Put(s, id, s.cell, answered);
    Resumes(c, s, id, s.cell, answered, times, failed);
    Reconciles(c, s, id, s.cell, failed, times[1..]);
  }

  // While a submission asks for reconciliation, a transaction hash that comes late is recorded.
  lemma LateAnswerIsRecorded(c: Config, s: Sys, id: nat, text: string, now: int, later: int)
    requires IsHash(c.intentId) && id in s.attempts && !s.attempts[id].pc.Crashed?
    requires s.attempts[id].state.ReconciliationRequired? && s.attempts[id].call.Outstanding?
    requires Owns(c, s, id, {ProviderCallStarted, ReconciliationRequired}) && IsHash(Lower(text))
    ensures var t := Next(c, Next(c, Next(c, s, WalletAnswers(id, Fulfilled(text))), LateProceed(id, now)),
                          LateProceed(id, later));
      && Ends(s, t, id, s.attempts[id].pc, Pending, Some(Lower(text))) && t.attempts[id].late.LateDone?
      && Holds(c, t, Seen(s.cell, c.intentId).value.(state := TxHashKnown, transactionHash := Some(Lower(text)),
                                                     updatedAt := now), now)
  {
    hide Seen, IsHash, Lower, Readable, Written, TransitionStep;
    SeenIs(s.cell, c.intentId);
    Transitions(s.cell, c.intentId, c.owner(id), TxHashKnown, Some(Lower(text)), now);
    if IsSafeInteger(now) {
      MovedIsReadBack(s.cell, c.intentId, TxHashKnown, Some(Lower(text)), now);
    }
  }

  // ---- From an open intent to a recorded hash ----

  lemma {:induction false} ReachProceeded(c: Config, stored: Cell, s: Sys, id: nat, times: seq<int>)
    requires Reachable(c, stored, s)
    ensures Reachable(c, stored, Proceeded(c, s, id, times))
    decreases |times|
  {
    hide Reachable;
    if times != [] {
      Reach(c, stored, s, Proceed(id, times[0]));
      ReachProceeded(c, stored, Next(c, s, Proceed(id, times[0])), id, times[1..]);
    }
  }

  lemma OpenIntentIsPublished(c: Config, stored: Cell, s: Sys, id: nat, text: string, now: int, before: seq<int>,
                              after: seq<int>)
    requires IsHash(c.intentId) && Reachable(c, stored, s) && Open(c, s, now) && id !in s.attempts
    requires IsHash(Lower(text)) && |before| == 6 && |after| == 3
    requires IsSafeInteger(now) && IsSafeInteger(before[1]) && IsSafeInteger(before[3])
    ensures var asking := Proceeded(c, Next(c, s, Start(id, now)), id, before);
      var t := Proceeded(c, Next(c, asking, WalletAnswers(id, Fulfilled(text))), id, after);
      && Ends(s, t, id, Returned, Pending, Some(Lower(text)))
      && Holds(c, t, Record(c.intentId, c.owner(id), TxHashKnown, Some(Lower(text)), now, after[1]), after[1])
  {
    hide Reachable, Next, Proceeded, IsHash, Lower, Seen;
    OpenIntentIsClaimed(c, s, id, now);
    Reach(c, stored, s, Start(id, now));
    var started := Next(c, s, Start(id, now));
    PreparedAsksWallet(c, stored, started, id, before);
    ReachProceeded(c, stored, started, id, before);
    AnswerInTimeIsRecorded(c, stored, Proceeded(c, started, id, before), id, text, after);
  }
}
