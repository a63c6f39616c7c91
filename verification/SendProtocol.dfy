// The submit path run by any number of attempts against one shared record
// (apps/web/v4/proof-transaction-acceptance.js, lines 47-62 and 131-283).
//
// An attempt is one call of submitUserApprovedProofTransaction. Its code between two awaits is one
// step, and each locked operation is one step, so other attempts, other tabs, the wallet and crashes
// come in between in any order. The clock is a fresh number in every step.

module SendProtocol {
  import opened Results
  import opened Text
  import opened SendCoordinator

  // What an answered wallet request says. A rejection is an error with code 4001, ACTION_REJECTED or
  // WEB_V4_USER_REJECTED.
  datatype Answer = Fulfilled(text: string) | WalletRejection | OtherError

  datatype Call = NotCalled | Outstanding | Answered(answer: Answer)

  datatype Status = Validating | RequestPending | Reconciling | Pending | UserRejected | Released

  // Where the code of an attempt waits.
  datatype Pc =
    | Checking                        // validation and revalidation, up to line 199
    | RecordingRequest                // the locked transition of line 203
    | NotifyingRequest                // the callback of line 204
    | RecordingStart                  // the locked transition of line 208
    | Calling                         // line 208 has resolved; lines 209-225 have not run
    | NotifyingStart                  // the callback of line 225
    | Racing                          // the race of line 226
    | RecordingHash                   // the locked transition of line 240
    | NotifyingHash                   // the callback of line 241
    | RecordingRejection              // the locked transition of line 268
    | NotifyingRejection              // the callback of line 269
    | Releasing(walletRejected: bool) // the locked release of line 271
    | NotifyingRelease                // the callback of line 272
    | RecordingReconciliation         // the locked transition of line 278
    | NotifyingReconciliation         // the callback of line 279
    | Returned
    | Threw
    | Crashed

  // The handler of line 213, which runs once when the wallet answers.
  datatype Late = Waiting | RecordingLate(hash: string) | NotifyingLate | LateDone

  datatype Attempt = Attempt(
    pc: Pc, state: State, status: Status, transactionHash: Option<string>, providerInvoked: bool,
    call: Call, late: Late)

  // Attempts are numbered; `owner` is the owner id of the coordinator each one is given.
  // callbackForges: the notification callback may throw an error that carries a rejection code.
  datatype Config = Config(intentId: string, leaseMs: int, owner: nat -> string, callbackForges: bool)

  datatype Sys = Sys(cell: Cell, attempts: map<nat, Attempt>)

  datatype Step =
    | Start(id: nat, now: int)                 // a click: claim the intent
    | CheckFails(id: nat, rejectionCode: bool) // validation throws, maybe a provider's WEB_V4_USER_REJECTED
    | Proceed(id: nat, now: int)               // what the attempt waits for happens
    | CallbackThrows(id: nat, rejectionCode: bool)
    | TimesOut(id: nat)
    | WalletAnswers(id: nat, answer: Answer)
    | LateProceed(id: nat, now: int)
    | LockFails(id: nat)                       // the lock or the storage throws, and nothing is written
    | LateLockFails(id: nat)
    | Crash(id: nat)
    | Reload(now: int)                         // recoverAfterReload in any tab
    | RecoverPre(now: int)                     // recoverPreProvider in any tab
    | ConfirmBy(hash: string, now: int)        // confirm in any tab

  // No attempt yet, and whatever an earlier visit, or an earlier version, has stored.
  function Initially(stored: Cell): Sys {
    Sys(stored, map[])
  }

  // What acquireSendAttempt returns when the claim succeeds.
  const claimed := Attempt(Checking, Prepared, Validating, None, false, NotCalled, Waiting)

  // The outer catch of lines 263-282 up to its first await.
  function Caught(a: Attempt, userRejected: bool): Attempt {
    if !a.providerInvoked then a.(pc := Releasing(userRejected))
    else if userRejected then a.(state := Rejected, status := UserRejected, pc := RecordingRejection)
    else a.(state := ReconciliationRequired, status := Reconciling, pc := RecordingReconciliation)
  }

  function HashKnown(a: Attempt, hash: string): Attempt {
    a.(transactionHash := Some(hash), state := TxHashKnown, status := Pending)
  }

  // Lines 231-239: what the awaited response does.
  function Received(a: Attempt, answer: Answer): Attempt {
    match answer
    case WalletRejection => Caught(a, true)
    case OtherError => Caught(a, false)
    case Fulfilled(text) =>
      if IsHash(Lower(text)) then HashKnown(a, Lower(text)).(pc := RecordingHash)
      else Caught(a, false)
  }

  // The handler of line 213, as far as its first await.
  function LateHandler(a: Attempt): Attempt
    requires a.call.Answered?
  {
    if a.pc.Crashed? then a
    else if a.state.ReconciliationRequired? && a.call.answer.Fulfilled? && IsHash(Lower(a.call.answer.text)) then
      HashKnown(a, Lower(a.call.answer.text)).(late := RecordingLate(Lower(a.call.answer.text)))
    else a.(late := LateDone)
  }

  function Put(s: Sys, id: nat, cell: Cell, a: Attempt): Sys {
    Sys(cell, s.attempts[id := a])
  }

  // The locked operation that an attempt waits for.
  datatype Wanted = NoLock | Transition(to: State, hash: Option<string>) | Release(walletRejected: bool)

  function Wants(a: Attempt): Wanted {
    match a.pc
    case RecordingRequest => Transition(WalletRequestPending, None)
    case RecordingStart => Transition(ProviderCallStarted, None)
    case RecordingHash => Transition(TxHashKnown, a.transactionHash)
    case RecordingRejection => Transition(Rejected, None)
    case RecordingReconciliation => Transition(ReconciliationRequired, None)
    case Releasing(walletRejected) => Release(walletRejected)
    case _ => NoLock
  }

  // The code that runs when the wait is over, up to the next await. `good`: the locked operation, if
  // there was one, did not throw.
  function Resume(a: Attempt, good: bool): Attempt {
    match a.pc
    case Checking => a.(state := WalletRequestPending, status := RequestPending, pc := RecordingRequest)
    case RecordingRequest => if good then a.(pc := NotifyingRequest) else Caught(a, false)
    case NotifyingRequest => a.(pc := RecordingStart)
    case RecordingStart => if good then a.(pc := Calling) else Caught(a, false)
    case Calling =>
      a.(state := ProviderCallStarted, status := Reconciling, providerInvoked := true, call := Outstanding,
         pc := NotifyingStart)
    case NotifyingStart => a.(pc := Racing)
    case Racing => if a.call.Answered? then Received(a, a.call.answer) else a
    case RecordingHash => if good then a.(pc := NotifyingHash) else Caught(a, false)
    case NotifyingHash => a.(pc := Returned)
    case RecordingRejection => if good then a.(pc := NotifyingRejection) else a.(pc := Threw)
    case NotifyingRejection => a.(pc := Releasing(true))
    case Releasing(_) =>
      if good then a.(state := Rejected, status := Released, transactionHash := None, pc := NotifyingRelease)
      else a.(pc := Threw)
    case NotifyingRelease => a.(pc := Threw)
    case RecordingReconciliation => if good then a.(pc := NotifyingReconciliation) else a.(pc := Threw)
    case NotifyingReconciliation => a.(pc := Threw)
    case Returned => a
    case Threw => a
    case Crashed => a
  }

  function ProceedStep(c: Config, s: Sys, id: nat, now: int): Sys
    requires id in s.attempts
  {
    var a := s.attempts[id];
    match Wants(a)
    case NoLock => Put(s, id, s.cell, Resume(a, true))
    case Transition(to, hash) =>
      var step := TransitionStep(s.cell, c.intentId, c.owner(id), to, hash, now);
      Put(s, id, step.cell, Resume(a, step.result.Ok?))
    case Release(walletRejected) =>
      var step := ReleaseStep(s.cell, c.intentId, c.owner(id), walletRejected, a.providerInvoked);
      Put(s, id, step.cell, Resume(a, step.result.Ok?))
  }

  // A callback throws; only the first three run outside a catch of their own.
  function CallbackFails(a: Attempt, rejectionCode: bool): Attempt {
    match a.pc
    case NotifyingRequest => Caught(a, rejectionCode)
    case NotifyingStart => Caught(a, rejectionCode)
    case NotifyingHash => Caught(a, rejectionCode)
    case NotifyingRejection => a.(pc := Releasing(true))
    case NotifyingRelease => a.(pc := Threw)
    case NotifyingReconciliation => a.(pc := Threw)
    case _ => a
  }

  // A step that is not enabled leaves the system as it is.
  function Next(c: Config, s: Sys, step: Step): Sys {
    match step
    case Start(id, now) =>
      if id in s.attempts then s
      else
        var claim := ClaimStep(s.cell, c.intentId, c.owner(id), c.leaseMs, now);
        if claim.result.Ok? && claim.result.value.acquired then
          Put(s, id, claim.cell, claimed)
        else Sys(claim.cell, s.attempts)
    case CheckFails(id, rejectionCode) =>
      if id in s.attempts && s.attempts[id].pc.Checking? then
        Put(s, id, s.cell, Caught(s.attempts[id], rejectionCode))
      else s
    case Proceed(id, now) => if id in s.attempts then ProceedStep(c, s, id, now) else s
    case CallbackThrows(id, rejectionCode) =>
      if id in s.attempts && (rejectionCode ==> c.callbackForges) then
        Put(s, id, s.cell, CallbackFails(s.attempts[id], rejectionCode))
      else s
    case TimesOut(id) =>
      if id in s.attempts && s.attempts[id].pc.Racing? then Put(s, id, s.cell, Caught(s.attempts[id], false)) else s
    case WalletAnswers(id, answer) =>
      if id in s.attempts && s.attempts[id].call.Outstanding? then
        Put(s, id, s.cell, LateHandler(s.attempts[id].(call := Answered(answer))))
      else s
    case LateProceed(id, now) =>
      if id !in s.attempts || s.attempts[id].pc.Crashed? then s
      else
        var a := s.attempts[id];
        if a.late.RecordingLate? then
          var record := TransitionStep(s.cell, c.intentId, c.owner(id), TxHashKnown, Some(a.late.hash), now);
          Put(s, id, record.cell, a.(late := if record.result.Ok? then NotifyingLate else LateDone))
        else if a.late.NotifyingLate? then Put(s, id, s.cell, a.(late := LateDone))
        else s
    case LockFails(id) =>
      if id in s.attempts && !Wants(s.attempts[id]).NoLock? then
        Put(s, id, s.cell, Resume(s.attempts[id], false))
      else s
    case LateLockFails(id) =>
      if id in s.attempts && !s.attempts[id].pc.Crashed? && s.attempts[id].late.RecordingLate? then
        Put(s, id, s.cell, s.attempts[id].(late := LateDone))
      else s
    case Crash(id) => if id in s.attempts then Put(s, id, s.cell, s.attempts[id].(pc := Crashed)) else s
    case Reload(now) => Sys(RecoverAfterReloadStep(s.cell, c.intentId, c.leaseMs, now).cell, s.attempts)
    case RecoverPre(now) => Sys(RecoverPreProviderStep(s.cell, c.intentId, c.leaseMs, now).cell, s.attempts)
    case ConfirmBy(hash, now) => Sys(ConfirmStep(s.cell, c.intentId, hash, now).cell, s.attempts)
  }

  // The state after a whole run from what is stored.
  function Run(c: Config, stored: Cell, steps: seq<Step>): Sys
    decreases |steps|
  {
    if steps == [] then Initially(stored)
    else Next(c, Run(c, stored, steps[..|steps| - 1]), steps[|steps| - 1])
  }

  // ---- What the protocol is for ----

  // A request that reached the wallet and was not explicitly rejected.
  predicate Live(a: Attempt) {
    a.call.Outstanding? || (a.call.Answered? && !a.call.answer.WalletRejection?)
  }

  ghost predicate AtMostOneLive(s: Sys) {
    forall i, j | i in s.attempts && j in s.attempts && Live(s.attempts[i]) && Live(s.attempts[j]) :: i == j
  }

  ghost predicate DistinctOwners(c: Config) {
    forall i: nat, j: nat | c.owner(i) == c.owner(j) :: i == j
  }

  // ---- The invariant ----

  // The wallet has been asked, or the very next step of the attempt asks it, and it has not refused.
  predicate Hot(a: Attempt) {
    (a.pc.Calling? && a.call.NotCalled?) || Live(a)
  }

  predicate BeforeCall(pc: Pc) {
    pc.Checking? || pc.RecordingRequest? || pc.NotifyingRequest? || pc.RecordingStart? || pc.Calling?
  }

  // What the code position of an attempt says about its own call.
  predicate Consistent(a: Attempt) {
    && (BeforeCall(a.pc) ==> !a.providerInvoked)
    && (a.providerInvoked <==> !a.call.NotCalled?)
    && ((a.pc.RecordingRejection? || a.pc.NotifyingRejection? || (a.pc.Releasing? && a.providerInvoked)) ==>
          a.call == Answered(WalletRejection))
    && (a.pc.NotifyingRelease? ==> !Live(a))
    && (a.pc.RecordingHash? ==> a.transactionHash.Some? && AnsweredWith(a, a.transactionHash.value))
    && (a.late.RecordingLate? ==> AnsweredWith(a, a.late.hash))
  }

  predicate AnsweredWith(a: Attempt, hash: string) {
    && a.call.Answered? && a.call.answer.Fulfilled?
    && Lower(a.call.answer.text) == hash && IsHash(hash)
  }

  // The stored record of a hot attempt is its own and is past the point where it could be taken over.
  ghost predicate Guarded(c: Config, cell: Cell, id: nat) {
    && cell.Some?
    && var parsed := Parse(cell, c.intentId);
    parsed.Ok? ==>
      && parsed.value.Some?
      && parsed.value.value.ownerId == c.owner(id)
      && !BeforeProvider(parsed.value.value.state)
      && !parsed.value.value.state.Rejected?
  }

  ghost predicate AllConsistent(s: Sys) {
    forall id | id in s.attempts :: Consistent(s.attempts[id])
  }

  ghost predicate HotAreGuarded(c: Config, s: Sys) {
    forall id | id in s.attempts && Hot(s.attempts[id]) :: Guarded(c, s.cell, id)
  }

  ghost predicate AtMostOneHot(s: Sys) {
    forall i, j | i in s.attempts && j in s.attempts && Hot(s.attempts[i]) && Hot(s.attempts[j]) :: i == j
  }

  ghost predicate Invariant(c: Config, s: Sys) {
    AllConsistent(s) && HotAreGuarded(c, s) && AtMostOneHot(s)
  }

  // The hypotheses under which one intent is sent at most once.
  ghost predicate Sound(c: Config) {
    DistinctOwners(c) && !c.callbackForges
  }

  // Locked operations other than transitions do not take the record of a hot attempt out of Guarded.
  lemma CellStepKeepsGuarded(c: Config, cell: Cell, id: nat, now: int, hash: string, owner: string,
                             walletRejected: bool, invoked: bool)
    requires Guarded(c, cell, id)
    ensures Guarded(c, ClaimStep(cell, c.intentId, owner, c.leaseMs, now).cell, id)
    ensures var claim := ClaimStep(cell, c.intentId, owner, c.leaseMs, now).result; claim.Ok? ==> !claim.value.acquired
    ensures Guarded(c, RecoverAfterReloadStep(cell, c.intentId, c.leaseMs, now).cell, id)
    ensures Guarded(c, RecoverPreProviderStep(cell, c.intentId, c.leaseMs, now).cell, id)
    ensures Guarded(c, ConfirmStep(cell, c.intentId, hash, now).cell, id)
    ensures owner != c.owner(id) || !walletRejected ==>
      Guarded(c, ReleaseStep(cell, c.intentId, owner, walletRejected, invoked).cell, id)
  {
    var parsed := Parse(cell, c.intentId);
    if parsed.Ok? {
      var r := parsed.value.value;
      WrittenIsReadBack(r.(state := ReconciliationRequired, updatedAt := now));
      WrittenIsReadBack(r.(state := Confirmed, transactionHash := Some(Lower(hash)), updatedAt := now));
    }
  }

  // Only the owner's own rejection can, and nobody can start a second call.
  lemma TransitionKeepsGuarded(c: Config, cell: Cell, id: nat, owner: string, to: State, hash: Option<string>, now: int)
    requires Guarded(c, cell, id)
    requires owner != c.owner(id) || !to.Rejected?
    ensures Guarded(c, TransitionStep(cell, c.intentId, owner, to, hash, now).cell, id)
    ensures to.ProviderCallStarted? || to.WalletRequestPending? ==>
      TransitionStep(cell, c.intentId, owner, to, hash, now).result.Fail?
  {
    var step := TransitionStep(cell, c.intentId, owner, to, hash, now);
    if step.result.Ok? {
      WrittenIsReadBack(step.result.value);
    }
  }

  lemma StartingGuards(c: Config, cell: Cell, id: nat, now: int)
    requires TransitionStep(cell, c.intentId, c.owner(id), ProviderCallStarted, None, now).result.Ok?
    ensures Guarded(c, TransitionStep(cell, c.intentId, c.owner(id), ProviderCallStarted, None, now).cell, id)
  {
    WrittenIsReadBack(TransitionStep(cell, c.intentId, c.owner(id), ProviderCallStarted, None, now).result.value);
  }

  // The one attempt a step changes.
  function Touched(step: Step): Option<nat> {
    match step
    case Start(id, _) => Some(id)
    case CheckFails(id, _) => Some(id)
    case Proceed(id, _) => Some(id)
    case CallbackThrows(id, _) => Some(id)
    case TimesOut(id) => Some(id)
    case WalletAnswers(id, _) => Some(id)
    case LateProceed(id, _) => Some(id)
    case LockFails(id) => Some(id)
    case LateLockFails(id) => Some(id)
    case Crash(id) => Some(id)
    case _ => None
  }

  lemma OthersUntouched(c: Config, s: Sys, step: Step, id: nat)
    requires Touched(step) != Some(id)
    ensures id in Next(c, s, step).attempts <==> id in s.attempts
    ensures id in s.attempts ==> Next(c, s, step).attempts[id] == s.attempts[id]
  {
  }

  // Where a callback that throws a rejection code makes the attempt give up a request.
  predicate Forgeable(pc: Pc) {
    pc.NotifyingStart? || pc.NotifyingHash?
  }

  predicate Forges(c: Config, s: Sys, step: Step) {
    && c.callbackForges && step.CallbackThrows? && step.rejectionCode
    && step.id in s.attempts && Forgeable(s.attempts[step.id].pc)
  }

  // How one step may change an attempt that exists.
  ghost predicate Evolves(a: Attempt, b: Attempt, forged: bool) {
    || b == a
    || b == Resume(a, true)
    || (!Wants(a).NoLock? && b == Resume(a, false))
    || (a.pc.Checking? && (b == Caught(a, true) || b == Caught(a, false)))
    || (a.pc.Racing? && b == Caught(a, false))
    || b == CallbackFails(a, false)
    || ((forged || !Forgeable(a.pc)) && b == CallbackFails(a, true))
    || (a.call.Outstanding? && b.call.Answered? && b == LateHandler(a.(call := b.call)))
    || (a.late.RecordingLate? && (b == a.(late := NotifyingLate) || b == a.(late := LateDone)))
    || (a.late.NotifyingLate? && b == a.(late := LateDone))
    || b == a.(pc := Crashed)
  }

  lemma StepsEvolve(c: Config, s: Sys, step: Step, id: nat)
    requires id in Next(c, s, step).attempts
    ensures if id in s.attempts then Evolves(s.attempts[id], Next(c, s, step).attempts[id], Forges(c, s, step))
            else Next(c, s, step).attempts[id] == claimed
  {
    if Touched(step) != Some(id) {
      OthersUntouched(c, s, step, id);
    }
  }

  lemma ResumingKeepsConsistent(a: Attempt, good: bool)
    requires Consistent(a)
    ensures Consistent(Resume(a, good))
  {
  }

  lemma EvolvingKeepsConsistent(a: Attempt, b: Attempt)
    requires Consistent(a) && Evolves(a, b, false)
    ensures Consistent(b)
  {
    ResumingKeepsConsistent(a, true);
    ResumingKeepsConsistent(a, false);
  }

  lemma StepKeepsConsistent(c: Config, s: Sys, step: Step)
    requires !Forges(c, s, step) && AllConsistent(s)
    ensures AllConsistent(Next(c, s, step))
  {
    var t := Next(c, s, step);
    forall id | id in t.attempts ensures Consistent(t.attempts[id]) {
      StepsEvolve(c, s, step, id);
      if id in s.attempts {
        EvolvingKeepsConsistent(s.attempts[id], t.attempts[id]);
      }
    }
  }

  // An attempt becomes hot only by the transition that starts the call.
  lemma BecomingHot(c: Config, s: Sys, step: Step, id: nat)
    requires AllConsistent(s)
    requires id in Next(c, s, step).attempts && Hot(Next(c, s, step).attempts[id])
    requires id !in s.attempts || !Hot(s.attempts[id])
    ensures step.Proceed? && step.id == id && id in s.attempts
    ensures TransitionStep(s.cell, c.intentId, c.owner(id), ProviderCallStarted, None, step.now).result.Ok?
    ensures Next(c, s, step).cell
      == TransitionStep(s.cell, c.intentId, c.owner(id), ProviderCallStarted, None, step.now).cell
  {
    if Touched(step) != Some(id) {
      OthersUntouched(c, s, step, id);
    }
  }

  // No step takes the record of an attempt that stays hot out of Guarded.
  lemma StayingHot(c: Config, s: Sys, step: Step, id: nat)
    requires Sound(c) && AllConsistent(s)
    requires id in s.attempts && Hot(s.attempts[id]) && Guarded(c, s.cell, id)
    ensures Guarded(c, Next(c, s, step).cell, id)
  {
    hide ClaimStep, ReleaseStep, TransitionStep, RecoverAfterReloadStep, RecoverPreProviderStep, ConfirmStep, Guarded;
    match step
    case Start(other, now) => CellStepKeepsGuarded(c, s.cell, id, now, "", c.owner(other), false, false);
    case Reload(now) => CellStepKeepsGuarded(c, s.cell, id, now, "", "", false, false);
    case RecoverPre(now) => CellStepKeepsGuarded(c, s.cell, id, now, "", "", false, false);
    case ConfirmBy(hash, now) => CellStepKeepsGuarded(c, s.cell, id, now, hash, "", false, false);
    case Proceed(other, now) => if other in s.attempts { ProceedingKeepsGuarded(c, s, other, now, id); }
    case LateProceed(other, now) =>
      if other in s.attempts && s.attempts[other].late.RecordingLate? {
        TransitionKeepsGuarded(c, s.cell, id, c.owner(other), TxHashKnown, Some(s.attempts[other].late.hash), now);
      }
    case _ =>
  }

  lemma ProceedingKeepsGuarded(c: Config, s: Sys, other: nat, now: int, id: nat)
    requires Sound(c) && AllConsistent(s) && other in s.attempts
    requires id in s.attempts && Hot(s.attempts[id]) && Guarded(c, s.cell, id)
    ensures Guarded(c, ProceedStep(c, s, other, now).cell, id)
  {
    hide ReleaseStep, TransitionStep, Guarded;
    var b := s.attempts[other];
    assert Consistent(b);
    match Wants(b)
    case NoLock =>
    case Transition(to, hash) => TransitionKeepsGuarded(c, s.cell, id, c.owner(other), to, hash, now);
    case Release(walletRejected) =>
      CellStepKeepsGuarded(c, s.cell, id, now, "", c.owner(other), walletRejected, b.providerInvoked);
  }

  lemma StepKeepsHot(c: Config, s: Sys, step: Step)
    requires Sound(c) && AllConsistent(s) && HotAreGuarded(c, s) && AtMostOneHot(s)
    ensures HotAreGuarded(c, Next(c, s, step)) && AtMostOneHot(Next(c, s, step))
  {
    var t := Next(c, s, step);
    forall id | id in t.attempts && Hot(t.attempts[id])
      ensures Guarded(c, t.cell, id)
      ensures forall j | j in t.attempts && Hot(t.attempts[j]) :: j == id
    {
      if id in s.attempts && Hot(s.attempts[id]) {
        StayingHot(c, s, step, id);
        forall j | j in t.attempts && Hot(t.attempts[j]) ensures j == id {
          if j !in s.attempts || !Hot(s.attempts[j]) {
            BecomingHot(c, s, step, j);
            TransitionKeepsGuarded(c, s.cell, id, c.owner(j), ProviderCallStarted, None, step.now);
          }
        }
      } else {
        BecomingHot(c, s, step, id);
        StartingGuards(c, s.cell, id, step.now);
        forall j | j in t.attempts && Hot(t.attempts[j]) ensures j == id {
          if j in s.attempts && Hot(s.attempts[j]) {
            TransitionKeepsGuarded(c, s.cell, j, c.owner(id), ProviderCallStarted, None, step.now);
          } else {
            BecomingHot(c, s, step, j);
          }
        }
      }
    }
  }

  lemma StepKeepsInvariant(c: Config, s: Sys, step: Step)
    requires Sound(c) && Invariant(c, s)
    ensures Invariant(c, Next(c, s, step))
  {
    StepKeepsConsistent(c, s, step);
    StepKeepsHot(c, s, step);
  }

  // Whatever is stored when the run starts.
  lemma {:induction false} EveryRunKeepsInvariant(c: Config, stored: Cell, steps: seq<Step>)
    requires Sound(c)
    ensures Invariant(c, Run(c, stored, steps))
    decreases |steps|
  {
    if steps != [] {
      var before, step := Run(c, stored, steps[..|steps| - 1]), steps[|steps| - 1];
      EveryRunKeepsInvariant(c, stored, steps[..|steps| - 1]);
      StepKeepsInvariant(c, before, step);
    }
  }

  // ---- Main results ----

  // The hash in the stored value, readable or not.
  function RecordedHash(cell: Cell): Option<string> {
    if cell.Some? && cell.value.Json? then cell.value.transactionHash else None
  }

  // However many attempts, tabs, crashes, takeovers and clock readings, and whatever was stored before: one
  // intent has at most one wallet request that was not explicitly rejected.
  lemma AtMostOneRequestPerIntent(c: Config, stored: Cell, steps: seq<Step>)
    requires Sound(c)
    ensures AtMostOneLive(Run(c, stored, steps))
  {
    EveryRunKeepsInvariant(c, stored, steps);
  }

  // A stored value that no claim takes over: it cannot be read, or the wallet may have been asked.
  predicate Blocked(cell: Cell, intentId: string) {
    var parsed := Parse(cell, intentId);
    parsed.Fail? || (parsed.value.Some? && !BeforeProvider(parsed.value.value.state)
      && !parsed.value.value.state.Rejected?)
  }

  lemma BlockedStep(c: Config, s: Sys, step: Step)
    requires s.attempts == map[] && Blocked(s.cell, c.intentId)
    ensures Next(c, s, step).attempts == map[] && Blocked(Next(c, s, step).cell, c.intentId)
    ensures RecordedHash(s.cell).Some? ==> RecordedHash(Next(c, s, step).cell) == RecordedHash(s.cell)
  {
    var parsed := Parse(s.cell, c.intentId);
    if parsed.Ok? {
      var r := parsed.value.value;
      match step
      case Start(_, now) => WrittenIsReadBack(r.(state := ReconciliationRequired, updatedAt := now));
      case Reload(now) => WrittenIsReadBack(r.(state := ReconciliationRequired, updatedAt := now));
      case ConfirmBy(hash, now) =>
        WrittenIsReadBack(r.(state := Confirmed, transactionHash := Some(Lower(hash)), updatedAt := now));
      case _ =>
    }
  }

  // If the stored record says that the wallet may have been asked, or cannot be read, no run from it ever
  // asks the wallet, and its hash stays. This needs no hypothesis about owner ids or callbacks, and holds
  // for records of version 1, too.
  lemma {:induction false} NeverSentAgain(c: Config, stored: Cell, steps: seq<Step>)
    requires Blocked(stored, c.intentId)
    ensures var s := Run(c, stored, steps);
      && s.attempts == map[] && Blocked(s.cell, c.intentId)
      && (RecordedHash(stored).Some? ==> RecordedHash(s.cell) == RecordedHash(stored))
    decreases |steps|
  {
    hide Blocked;
    if steps != [] {
      NeverSentAgain(c, stored, steps[..|steps| - 1]);
      BlockedStep(c, Run(c, stored, steps[..|steps| - 1]), steps[|steps| - 1]);
    }
  }

  // A record of version 1 is of this kind unless its status is "validating".
  lemma LegacyIsBlocked(s: Stored, intentId: string)
    requires s.Json? && s.version == Some(1) && s.status != Some("validating")
    ensures Blocked(Some(s), intentId)
  {}

  // A stored value that cannot be read is never changed.
  lemma UnreadableIsStuck(c: Config, s: Sys, step: Step)
    requires Parse(s.cell, c.intentId).Fail?
    ensures Next(c, s, step).cell == s.cell
  {
  }

  // CONFIRMED is absorbing: no operation changes the stored value again, whoever owns what.
  lemma ConfirmedIsAbsorbing(c: Config, s: Sys, step: Step)
    requires Seen(s.cell, c.intentId).Some? && Seen(s.cell, c.intentId).value.state.Confirmed?
    ensures Next(c, s, step).cell == s.cell
  {
  }

  // ---- Exactly when the guarantee holds ----

  ghost predicate Reachable(c: Config, stored: Cell, s: Sys) {
    exists steps :: Run(c, stored, steps) == s
  }

  lemma InitialIsReachable(c: Config, stored: Cell)
    ensures Reachable(c, stored, Initially(stored))
  {
    assert Run(c, stored, []) == Initially(stored);
  }

  lemma Reach(c: Config, stored: Cell, s: Sys, step: Step)
    requires Reachable(c, stored, s)
    ensures Reachable(c, stored, Next(c, s, step))
  {
    var steps :| Run(c, stored, steps) == s;
    assert (steps + [step])[..|steps|] == steps;
    assert Run(c, stored, steps + [step]) == Next(c, s, step);
  }

  // The runs below are written as what attempt id has done to the system s it found.

  lemma ReachFurther(c: Config, stored: Cell, s: Sys, id: nat, cell: Cell, a: Attempt, step: Step, cell': Cell,
                     b: Attempt)
    requires Reachable(c, stored, Put(s, id, cell, a))
    requires Next(c, Put(s, id, cell, a), step) == Put(Put(s, id, cell, a), id, cell', b)
    ensures Reachable(c, stored, Put(s, id, cell', b))
  {
    Reach(c, stored, Put(s, id, cell, a), step);
    assert s.attempts[id := a][id := b] == s.attempts[id := b];
  }

  lemma ReachResumed(c: Config, stored: Cell, s: Sys, id: nat, cell: Cell, a: Attempt, b: Attempt)
    requires Reachable(c, stored, Put(s, id, cell, a)) && Wants(a).NoLock? && b == Resume(a, true)
    ensures Reachable(c, stored, Put(s, id, cell, b))
  {
    ReachFurther(c, stored, s, id, cell, a, Proceed(id, 0), cell, b);
  }

  // The owner of the record performs an allowed transition that needs no hash.
  lemma ReachTransition(c: Config, stored: Cell, s: Sys, id: nat, at: int, from: State, a: Attempt, to: State,
                        b: Attempt)
    requires Reachable(c, stored, Put(s, id, CellOf(c, id, from, at), a))
    requires Wants(a) == Transition(to, None) && b == Resume(a, true)
    requires IsHash(c.intentId) && IsSafeInteger(at)
    requires Allowed(from, to) && !from.TxHashKnown? && !to.TxHashKnown? && !to.Prepared?
    ensures Reachable(c, stored, Put(s, id, CellOf(c, id, to, at), b))
  {
    WrittenIsReadBack(RecordOf(c, id, from, at));
    ReachFurther(c, stored, s, id, CellOf(c, id, from, at), a, Proceed(id, at), CellOf(c, id, to, at), b);
  }

  // The record of attempt id, with a clock that stands at one time.
  function RecordOf(c: Config, id: nat, state: State, at: int): Record {
    Record(c.intentId, c.owner(id), state, None, at, at)
  }

  function CellOf(c: Config, id: nat, state: State, at: int): Cell {
    Written(RecordOf(c, id, state, at))
  }

  const called :=
    claimed.(pc := NotifyingStart, state := ProviderCallStarted, status := Reconciling, providerInvoked := true,
             call := Outstanding)
  const refused :=
    called.(pc := Releasing(true), state := Rejected, status := UserRejected, call := Answered(WalletRejection),
            late := LateDone)
  const abandoned := called.(pc := Releasing(true), state := Rejected, status := UserRejected)

  // An attempt that has claimed the intent can reach the wallet.
  lemma LaunchClaimed(c: Config, stored: Cell, s: Sys, id: nat, at: int)
    requires IsHash(c.intentId) && IsSafeInteger(at)
    requires Reachable(c, stored, Put(s, id, CellOf(c, id, Prepared, at), claimed))
    ensures Reachable(c, stored, Put(s, id, CellOf(c, id, ProviderCallStarted, at), called))
  {
    hide Reachable;
    var requesting := claimed.(state := WalletRequestPending, status := RequestPending, pc := RecordingRequest);
    ReachResumed(c, stored, s, id, CellOf(c, id, Prepared, at), claimed, requesting);
    ReachTransition(c, stored, s, id, at, Prepared, requesting, WalletRequestPending,
                    requesting.(pc := NotifyingRequest));
    ReachResumed(c, stored, s, id, CellOf(c, id, WalletRequestPending, at), requesting.(pc := NotifyingRequest),
                 requesting.(pc := RecordingStart));
    ReachTransition(c, stored, s, id, at, WalletRequestPending, requesting.(pc := RecordingStart),
                    ProviderCallStarted, requesting.(pc := Calling));
    ReachResumed(c, stored, s, id, CellOf(c, id, ProviderCallStarted, at), requesting.(pc := Calling), called);
  }

  // From a free intent an attempt can reach the wallet.
  lemma Launch(c: Config, stored: Cell, s: Sys, id: nat)
    requires IsHash(c.intentId) && Reachable(c, stored, s) && s.cell == None && id !in s.attempts
    ensures Reachable(c, stored, Put(s, id, CellOf(c, id, ProviderCallStarted, 0), called))
  {
    hide Reachable;
    Reach(c, stored, s, Start(id, 0));
    LaunchClaimed(c, stored, s, id, 0);
  }

  // An attempt that the wallet has refused records REJECTED and waits to release the record.
  lemma Refuse(c: Config, stored: Cell, s: Sys, i: nat)
    requires IsHash(c.intentId) && Reachable(c, stored, Put(s, i, CellOf(c, i, ProviderCallStarted, 0), called))
    ensures Reachable(c, stored, Put(s, i, CellOf(c, i, Rejected, 0), refused))
  {
    hide Reachable;
    var racing := called.(pc := Racing);
    var answered := racing.(call := Answered(WalletRejection), late := LateDone);
    var started, rejected := CellOf(c, i, ProviderCallStarted, 0), CellOf(c, i, Rejected, 0);
    ReachResumed(c, stored, s, i, started, called, racing);
    ReachFurther(c, stored, s, i, started, racing, WalletAnswers(i, WalletRejection), started, answered);
    ReachResumed(c, stored, s, i, started, answered, refused.(pc := RecordingRejection));
    ReachTransition(c, stored, s, i, 0, ProviderCallStarted, refused.(pc := RecordingRejection), Rejected,
                    refused.(pc := NotifyingRejection));
    ReachResumed(c, stored, s, i, rejected, refused.(pc := NotifyingRejection), refused);
  }

  // A forged rejection does the same while the wallet request is open.
  lemma GiveUp(c: Config, stored: Cell, s: Sys, i: nat)
    requires IsHash(c.intentId) && Reachable(c, stored, Put(s, i, CellOf(c, i, ProviderCallStarted, 0), called))
    requires c.callbackForges
    ensures Reachable(c, stored, Put(s, i, CellOf(c, i, Rejected, 0), abandoned))
  {
    hide Reachable;
    var recording := abandoned.(pc := RecordingRejection);
    var started := CellOf(c, i, ProviderCallStarted, 0);
    ReachFurther(c, stored, s, i, started, called, CallbackThrows(i, true), started, recording);
    ReachTransition(c, stored, s, i, 0, ProviderCallStarted, recording, Rejected, abandoned.(pc := NotifyingRejection));
    ReachResumed(c, stored, s, i, CellOf(c, i, Rejected, 0), abandoned.(pc := NotifyingRejection), abandoned);
  }

  // The release of a refused attempt removes whatever record carries its owner id.
  lemma ReleaseRemoves(c: Config, stored: Cell, s: Sys, i: nat, r: Record, a: Attempt)
    requires Reachable(c, stored, Put(s, i, Written(r), a)) && a.pc == Releasing(true)
    requires IsHash(c.intentId) && r.intentId == c.intentId && r.ownerId == c.owner(i) && Readable(r)
    requires r.state.ProviderCallStarted? || r.state.Rejected?
    ensures Reachable(c, stored, Put(s, i, None, Resume(a, true)))
  {
    WrittenIsReadBack(r);
    assert ReleaseStep(Written(r), c.intentId, c.owner(i), true, a.providerInvoked) == Locked(None, Ok(true));
    ReachFurther(c, stored, s, i, Written(r), a, Proceed(i, 0), None, Resume(a, true));
  }

  lemma ReloadFreesRejected(c: Config, stored: Cell, s: Sys, r: Record)
    requires Reachable(c, stored, s) && IsHash(c.intentId)
    requires s.cell == Written(r) && r.intentId == c.intentId && r.state.Rejected? && Readable(r)
    ensures Reachable(c, stored, s.(cell := None))
  {
    WrittenIsReadBack(r);
    Reach(c, stored, s, Reload(0));
  }

  lemma TwoCallers(s: Sys, j: nat, k: nat)
    requires j in s.attempts && k in s.attempts && j != k && Live(s.attempts[j]) && Live(s.attempts[k])
    ensures !AtMostOneLive(s)
  {
  }

  // Two attempts with one owner id: i is refused; before it releases, another tab's reload removes the
  // REJECTED record and j calls the wallet; i's release then removes j's record, and k calls the wallet.
  lemma SharedOwnerSendsTwice(c: Config, i: nat, j: nat, k: nat) returns (s: Sys)
    requires IsHash(c.intentId) && i != j && j != k && i != k && c.owner(i) == c.owner(j)
    ensures Reachable(c, None, s) && !AtMostOneLive(s)
    ensures s == Sys(CellOf(c, k, ProviderCallStarted, 0), map[i := Resume(refused, true), j := called, k := called])
  {
    hide Reachable;
    InitialIsReachable(c, None);
    Launch(c, None, Initially(None), i);
    Refuse(c, None, Initially(None), i);
    var rejected := Put(Initially(None), i, CellOf(c, i, Rejected, 0), refused);
    ReloadFreesRejected(c, None, rejected, RecordOf(c, i, Rejected, 0));
    Launch(c, None, rejected.(cell := None), j);
    var record := RecordOf(c, j, ProviderCallStarted, 0);
    var replaced := Sys(Written(record), map[j := called]);
    assert Put(rejected.(cell := None), j, Written(record), called) == Put(replaced, i, Written(record), refused);
    ReleaseRemoves(c, None, replaced, i, record, refused);
    var removed := Put(replaced, i, None, Resume(refused, true));
    Launch(c, None, removed, k);
    s := Put(removed, k, CellOf(c, k, ProviderCallStarted, 0), called);
    TwoCallers(s, j, k);
  }

  // A callback that throws a rejection code makes the attempt give up a request that is still open.
  lemma ForgedRejectionSendsTwice(c: Config) returns (s: Sys)
    requires IsHash(c.intentId) && c.callbackForges
    ensures Reachable(c, None, s) && !AtMostOneLive(s)
  {
    hide Reachable;
    InitialIsReachable(c, None);
    Launch(c, None, Initially(None), 0);
    GiveUp(c, None, Initially(None), 0);
    ReleaseRemoves(c, None, Initially(None), 0, RecordOf(c, 0, Rejected, 0), abandoned);
    var removed := Put(Initially(None), 0, None, Resume(abandoned, true));
    Launch(c, None, removed, 1);
    s := Put(removed, 1, Written(RecordOf(c, 1, ProviderCallStarted, 0)), called);
    TwoCallers(s, 0, 1);
  }

  // The guarantee holds in every state reachable from any stored value exactly when no two attempts share an
  // owner id and the callback cannot throw a rejection code.
  lemma SentAtMostOnceExactlyWhenSound(c: Config)
    requires IsHash(c.intentId)
    ensures (forall stored, s | Reachable(c, stored, s) :: AtMostOneLive(s)) <==> Sound(c)
  {
    if Sound(c) {
      forall stored, s | Reachable(c, stored, s) ensures AtMostOneLive(s) {
        var steps :| Run(c, stored, steps) == s;
        AtMostOneRequestPerIntent(c, stored, steps);
      }
    } else if c.callbackForges {
      var s := ForgedRejectionSendsTwice(c);
    } else {
      var i: nat, j: nat :| c.owner(i) == c.owner(j) && i != j;
      var s := SharedOwnerSendsTwice(c, i, j, i + j + 1);
    }
  }
}
