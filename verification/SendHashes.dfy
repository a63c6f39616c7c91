// Recorded transaction hashes: exactly when they stay (apps/web/v4/proof-send-coordinator.js, lines 97-169, and
// apps/web/v4/proof-transaction-acceptance.js, lines 201-283). Callbacks may throw what they like.

module SendHashes {
  import opened Results
  import opened Text
  import opened SendCoordinator
  import opened SendProtocol
  import Runs = SendRuns

  ghost predicate NoThreeShare(c: Config) {
    forall i: nat, j: nat, k: nat | c.owner(i) == c.owner(j) == c.owner(k) :: i == j || j == k || i == k
  }

  // ---- What an attempt can still do to a record ----

  // The wallet was called and the outcome was taken for indeterminate; only there the late handler matters.
  predicate Reconciles(pc: Pc) {
    pc.RecordingReconciliation? || pc.NotifyingReconciliation? || pc.Threw? || pc.Crashed?
  }

  predicate Sane(a: Attempt) {
    && (BeforeCall(a.pc) ==> !a.providerInvoked)
    && (a.providerInvoked <==> !a.call.NotCalled?)
    && (a.pc.RecordingHash? ==> a.transactionHash.Some? && AnsweredWith(a, a.transactionHash.value))
    && (a.late.RecordingLate? ==> AnsweredWith(a, a.late.hash))
    && (a.state.ReconciliationRequired? || a.late.RecordingLate? ==> Reconciles(a.pc))
    && (a.pc.NotifyingHash? || a.pc.RecordingRejection? || a.pc.RecordingReconciliation? ==> a.providerInvoked)
  }

  predicate InCall(pc: Pc) {
    || pc.Calling? || pc.NotifyingStart? || pc.Racing? || pc.RecordingHash? || pc.NotifyingHash?
    || pc.RecordingRejection? || pc.RecordingReconciliation?
  }

  // Having called the wallet, the attempt may still ask for a transition.
  predicate Active(a: Attempt) {
    && !a.pc.Crashed?
    && (InCall(a.pc) || a.late.RecordingLate? || (a.state.ReconciliationRequired? && a.call.Outstanding?))
  }

  lemma ResumingKeepsSane(a: Attempt, good: bool)
    requires Sane(a)
    ensures Sane(Resume(a, good))
  {}

  lemma EvolvingKeepsSane(a: Attempt, b: Attempt, forged: bool)
    requires Sane(a) && Evolves(a, b, forged)
    ensures Sane(b)
  {
    ResumingKeepsSane(a, true);
    ResumingKeepsSane(a, false);
  }

  // ---- Whose record it is ----

  // The record is gone, and as the only other attempt with its owner id has started, there will be none again.
  ghost predicate Orphan(c: Config, s: Sys, id: nat) {
    && (Seen(s.cell, c.intentId).Some? ==> Seen(s.cell, c.intentId).value.ownerId != c.owner(id))
    && exists other | other in s.attempts :: other != id && c.owner(other) == c.owner(id)
  }

  ghost predicate AllSane(s: Sys) {
    forall id | id in s.attempts :: Sane(s.attempts[id])
  }

  ghost predicate ActiveHoldOrLost(c: Config, s: Sys) {
    forall id | id in s.attempts && Active(s.attempts[id]) ::
      Runs.Held(c, s.cell, c.owner(id), false) || Orphan(c, s, id)
  }

  ghost predicate OneActivePerOwner(c: Config, s: Sys) {
    forall i, j | i in s.attempts && j in s.attempts && Active(s.attempts[i]) && Active(s.attempts[j])
      && c.owner(i) == c.owner(j) :: i == j
  }

  ghost predicate Tidy(c: Config, s: Sys) {
    AllSane(s) && ActiveHoldOrLost(c, s) && OneActivePerOwner(c, s)
  }

  lemma StepKeepsSane(c: Config, s: Sys, step: Step)
    requires AllSane(s)
    ensures AllSane(Next(c, s, step))
  {
    hide Sane, Evolves, Next;
    var t := Next(c, s, step);
    forall id | id in t.attempts
      ensures Sane(t.attempts[id])
    {
      StepsEvolve(c, s, step, id);
      if id in s.attempts {
        EvolvingKeepsSane(s.attempts[id], t.attempts[id], Forges(c, s, step));
      } else {
        assert Sane(claimed) by { ClaimedIsSane(); }
      }
    }
  }

  lemma ClaimedIsSane()
    ensures Sane(claimed) && !Active(claimed)
  {}

  // An attempt becomes active only by the transition that starts the call.
  lemma BecomingActive(c: Config, s: Sys, step: Step, id: nat)
    requires AllSane(s)
    requires id in Next(c, s, step).attempts && Active(Next(c, s, step).attempts[id])
    requires id !in s.attempts || !Active(s.attempts[id])
    ensures step.Proceed? && step.id == id && id in s.attempts
    ensures TransitionStep(s.cell, c.intentId, c.owner(id), ProviderCallStarted, None, step.now).result.Ok?
    ensures Next(c, s, step).cell
         == TransitionStep(s.cell, c.intentId, c.owner(id), ProviderCallStarted, None, step.now).cell
  {
    hide TransitionStep, ReleaseStep, ClaimStep, ConfirmStep, RecoverAfterReloadStep, RecoverPreProviderStep, Lower;
    if Touched(step) != Some(id) {
      OthersUntouched(c, s, step, id);
    }
  }

  // A locked operation leaves a record with its owner, except that a new attempt claims it.
  lemma OwnersStay(c: Config, s: Sys, step: Step)
    requires Seen(Next(c, s, step).cell, c.intentId).Some?
    ensures var r := Seen(Next(c, s, step).cell, c.intentId).value;
      || (Seen(s.cell, c.intentId).Some? && Seen(s.cell, c.intentId).value.ownerId == r.ownerId)
      || (step.Start? && step.id !in s.attempts && step.id in Next(c, s, step).attempts
        && c.owner(step.id) == r.ownerId)
  {
    hide Lower, IsHash;
    var t := Next(c, s, step);
    if t.cell != s.cell {
      match step
      case Start(id, now) => ClaimWrites(s.cell, c.intentId, c.owner(id), c.leaseMs, now);
      case Reload(now) => OthersWrite(s.cell, c.intentId, c.leaseMs, now, "", "", false, false);
      case RecoverPre(now) => OthersWrite(s.cell, c.intentId, c.leaseMs, now, "", "", false, false);
      case ConfirmBy(hash, now) => OthersWrite(s.cell, c.intentId, c.leaseMs, now, hash, "", false, false);
      case Proceed(id, now) => ProceedWrites(c, s, id, now);
      case LateProceed(id, now) =>
        TransitionWrites(s.cell, c.intentId, c.owner(id), TxHashKnown, Some(s.attempts[id].late.hash), now);
      case _ =>
    }
  }

  lemma ProceedWrites(c: Config, s: Sys, id: nat, now: int)
    requires id in s.attempts && Seen(ProceedStep(c, s, id, now).cell, c.intentId).Some?
    ensures Seen(s.cell, c.intentId).Some?
    ensures Seen(ProceedStep(c, s, id, now).cell, c.intentId).value.ownerId == Seen(s.cell, c.intentId).value.ownerId
  {
    hide TransitionStep, ReleaseStep, Parse;
    match Wants(s.attempts[id])
    case NoLock =>
    case Transition(to, hash) => TransitionWrites(s.cell, c.intentId, c.owner(id), to, hash, now);
    case Release(walletRejected) =>
      OthersWrite(s.cell, c.intentId, 0, now, "", c.owner(id), walletRejected, s.attempts[id].providerInvoked);
  }

  lemma ClaimWrites(cell: Cell, intentId: string, owner: string, leaseMs: int, now: int)
    ensures var claim := ClaimStep(cell, intentId, owner, leaseMs, now);
      Seen(claim.cell, intentId).Some? ==>
        var r := Seen(claim.cell, intentId).value;
        if claim.result.Ok? && claim.result.value.acquired then r.ownerId == owner && r.transactionHash.None?
        else
          && Seen(cell, intentId).Some? && r.ownerId == Seen(cell, intentId).value.ownerId
          && r.transactionHash == Seen(cell, intentId).value.transactionHash
  {
    var parsed := Parse(cell, intentId);
    WrittenIsReadBack(Record(intentId, owner, Prepared, None, now, now));
    if parsed.Ok? && parsed.value.Some? {
      WrittenIsReadBack(parsed.value.value.(state := ReconciliationRequired, updatedAt := now));
    }
  }

  lemma TransitionWrites(cell: Cell, intentId: string, owner: string, to: State, hash: Option<string>, now: int)
    ensures var step := TransitionStep(cell, intentId, owner, to, hash, now);
      if step.result.Fail? then step.cell == cell
      else
        && Seen(cell, intentId).Some? && Seen(cell, intentId).value.ownerId == owner
        && Allowed(Seen(cell, intentId).value.state, to)
        && RecordedHash(step.cell)
           == (if hash.Some? && hash.value != "" then Some(Lower(hash.value))
             else Seen(cell, intentId).value.transactionHash)
        && (Seen(step.cell, intentId).Some? ==>
             var r := Seen(step.cell, intentId).value;
             r.ownerId == owner && r.state == to && r.transactionHash == RecordedHash(step.cell))
  {
    hide Lower, IsHash;
    var step := TransitionStep(cell, intentId, owner, to, hash, now);
    if step.result.Ok? {
      WrittenIsReadBack(step.result.value);
    }
  }

  // The other locked operations keep the owner, and keep the hash or confirm.
  predicate Keeps(before: Cell, after: Cell, intentId: string) {
    Seen(after, intentId).Some? ==>
      var r := Seen(after, intentId).value;
      && Seen(before, intentId).Some? && r.ownerId == Seen(before, intentId).value.ownerId
      && (r.transactionHash == Seen(before, intentId).value.transactionHash || r.state.Confirmed?)
  }

  lemma OthersWrite(cell: Cell, intentId: string, leaseMs: int, now: int, hash: string,
                    owner: string, walletRejected: bool, invoked: bool)
    ensures Keeps(cell, RecoverAfterReloadStep(cell, intentId, leaseMs, now).cell, intentId)
    ensures Keeps(cell, RecoverPreProviderStep(cell, intentId, leaseMs, now).cell, intentId)
    ensures Keeps(cell, ConfirmStep(cell, intentId, hash, now).cell, intentId)
    ensures Keeps(cell, ReleaseStep(cell, intentId, owner, walletRejected, invoked).cell, intentId)
  {
    hide Lower, IsHash;
    var parsed := Parse(cell, intentId);
    if parsed.Ok? && parsed.value.Some? {
      var r := parsed.value.value;
      WrittenIsReadBack(r.(state := ReconciliationRequired, updatedAt := now));
      WrittenIsReadBack(r.(state := Confirmed, transactionHash := Some(Lower(hash)), updatedAt := now));
    }
  }

  lemma AttemptsStay(c: Config, s: Sys, step: Step)
    ensures forall id <- s.attempts :: id in Next(c, s, step).attempts
  {}

  lemma OrphansStay(c: Config, s: Sys, step: Step, id: nat)
    requires NoThreeShare(c) && id in s.attempts && Orphan(c, s, id)
    ensures Orphan(c, Next(c, s, step), id)
  {
    hide Next, Seen;
    var other :| other in s.attempts && other != id && c.owner(other) == c.owner(id);
    AttemptsStay(c, s, step);
    if Seen(Next(c, s, step).cell, c.intentId).Some? {
      OwnersStay(c, s, step);
    }
  }

  // A transition asked for by somebody else does nothing to a held record.
  lemma ForeignTransition(c: Config, cell: Cell, owner: string, mover: string, to: State, hash: Option<string>,
                          now: int)
    requires Runs.Held(c, cell, owner, false) && mover != owner
    ensures TransitionStep(cell, c.intentId, mover, to, hash, now).cell == cell
  {}

  lemma ForeignRelease(c: Config, cell: Cell, owner: string, releaser: string, walletRejected: bool, invoked: bool)
    requires Runs.Held(c, cell, owner, false) && releaser != owner
    ensures ReleaseStep(cell, c.intentId, releaser, walletRejected, invoked).cell == cell
  {}

  lemma ReleaseKeepsOrRemoves(cell: Cell, intentId: string, owner: string, walletRejected: bool, invoked: bool)
    ensures var t := ReleaseStep(cell, intentId, owner, walletRejected, invoked).cell; t == cell || t == None
  {}

  lemma OtherProceeds(c: Config, s: Sys, id: nat, other: nat, now: int)
    requires Tidy(c, s) && id in s.attempts && Active(s.attempts[id]) && Runs.Held(c, s.cell, c.owner(id), false)
    requires other in s.attempts && other != id
    ensures var t := ProceedStep(c, s, other, now);
      Runs.Held(c, t.cell, c.owner(id), false) || Orphan(c, t, id)
  {
    hide TransitionStep, ReleaseStep, Runs.Held;
    var b := s.attempts[other];
    match Wants(b)
    case NoLock =>
    case Transition(to, hash) =>
      if c.owner(other) == c.owner(id) {
        assert !Active(b);
        Runs.TransitionKeepsHeld(c, s.cell, c.owner(id), false, c.owner(other), to, hash, now);
      } else {
        ForeignTransition(c, s.cell, c.owner(id), c.owner(other), to, hash, now);
      }
    case Release(walletRejected) =>
      if c.owner(other) == c.owner(id) {
        ReleaseKeepsOrRemoves(s.cell, c.intentId, c.owner(other), walletRejected, b.providerInvoked);
        assert other in ProceedStep(c, s, other, now).attempts;
      } else {
        ForeignRelease(c, s.cell, c.owner(id), c.owner(other), walletRejected, b.providerInvoked);
      }
  }

  lemma OwnProceeds(c: Config, s: Sys, id: nat, now: int)
    requires Tidy(c, s) && id in s.attempts && Active(s.attempts[id]) && Runs.Held(c, s.cell, c.owner(id), false)
    ensures var t := ProceedStep(c, s, id, now);
      Active(t.attempts[id]) ==> Runs.Held(c, t.cell, c.owner(id), false)
  {
    hide TransitionStep, ReleaseStep, Runs.Held;
    var a := s.attempts[id];
    assert Sane(a);
    match Wants(a)
    case NoLock =>
    case Transition(to, hash) =>
      Runs.TransitionKeepsHeld(c, s.cell, c.owner(id), false, c.owner(id), to, hash, now);
      TransitionWrites(s.cell, c.intentId, c.owner(id), to, hash, now);
    case Release(_) =>
  }

  lemma LateProceeds(c: Config, s: Sys, id: nat, other: nat, now: int)
    requires Tidy(c, s) && id in s.attempts && Active(s.attempts[id]) && Runs.Held(c, s.cell, c.owner(id), false)
    requires other in s.attempts
    ensures Runs.Held(c, Next(c, s, LateProceed(other, now)).cell, c.owner(id), false)
  {
    hide TransitionStep, Runs.Held;
    var b := s.attempts[other];
    if b.late.RecordingLate? {
      Runs.TransitionKeepsHeld(c, s.cell, c.owner(id), false, c.owner(other), TxHashKnown, Some(b.late.hash), now);
    }
  }

  lemma StayingActive(c: Config, s: Sys, step: Step, id: nat)
    requires NoThreeShare(c) && Tidy(c, s) && id in s.attempts && Active(s.attempts[id])
    ensures var t := Next(c, s, step);
      id in t.attempts && Active(t.attempts[id]) ==> Runs.Held(c, t.cell, c.owner(id), false) || Orphan(c, t, id)
  {
    hide ClaimStep, ReleaseStep, TransitionStep, RecoverAfterReloadStep, RecoverPreProviderStep, ConfirmStep, Orphan;
    if Orphan(c, s, id) {
      OrphansStay(c, s, step, id);
    } else {
      var owner := c.owner(id);
      match step {
        case Start(other, now) => Runs.OthersKeepHeld(c, s.cell, owner, false, now, "", c.owner(other));
        case Reload(now) => Runs.OthersKeepHeld(c, s.cell, owner, false, now, "", "");
        case RecoverPre(now) => Runs.OthersKeepHeld(c, s.cell, owner, false, now, "", "");
        case ConfirmBy(hash, now) => Runs.OthersKeepHeld(c, s.cell, owner, false, now, hash, "");
        case Proceed(other, now) =>
          if other == id {
            OwnProceeds(c, s, id, now);
          } else if other in s.attempts {
            OtherProceeds(c, s, id, other, now);
          }
        case LateProceed(other, now) =>
          if other in s.attempts {
            LateProceeds(c, s, id, other, now);
          }
        case _ =>
      }
    }
  }

  // While one attempt is active, no other with its owner id starts a call.
  lemma NoSecondStart(c: Config, s: Sys, i: nat, j: nat, now: int)
    requires Tidy(c, s) && j in s.attempts && Active(s.attempts[j]) && c.owner(i) == c.owner(j)
    ensures TransitionStep(s.cell, c.intentId, c.owner(i), ProviderCallStarted, None, now).result.Fail?
  {
    hide TransitionStep, Runs.Held;
    if Runs.Held(c, s.cell, c.owner(j), false) {
      Runs.TransitionKeepsHeld(c, s.cell, c.owner(j), false, c.owner(i), ProviderCallStarted, None, now);
    } else {
      TransitionWrites(s.cell, c.intentId, c.owner(i), ProviderCallStarted, None, now);
    }
  }

  lemma OneOfTwo(c: Config, s: Sys, step: Step, i: nat, j: nat)
    requires Tidy(c, s) && c.owner(i) == c.owner(j)
    requires i in Next(c, s, step).attempts && Active(Next(c, s, step).attempts[i])
    requires j in Next(c, s, step).attempts && Active(Next(c, s, step).attempts[j])
    ensures i == j
  {
    hide Next, TransitionStep, Active, Sane, Orphan;
    var ai, aj := i in s.attempts && Active(s.attempts[i]), j in s.attempts && Active(s.attempts[j]);
    if !ai {
      BecomingActive(c, s, step, i);
      if aj {
        NoSecondStart(c, s, i, j, step.now);
      }
    }
    if !aj {
      BecomingActive(c, s, step, j);
      if ai {
        NoSecondStart(c, s, j, i, step.now);
      }
    }
  }

  lemma StepKeepsTidy(c: Config, s: Sys, step: Step)
    requires NoThreeShare(c) && Tidy(c, s)
    ensures Tidy(c, Next(c, s, step))
  {
    hide Next, TransitionStep, Runs.Held, Active, Sane, Orphan;
    StepKeepsSane(c, s, step);
    var t := Next(c, s, step);
    forall id | id in t.attempts && Active(t.attempts[id])
      ensures Runs.Held(c, t.cell, c.owner(id), false) || Orphan(c, t, id)
    {
      if id in s.attempts && Active(s.attempts[id]) {
        StayingActive(c, s, step, id);
      } else {
        BecomingActive(c, s, step, id);
        Runs.StartingHolds(c, s.cell, c.owner(id), step.now);
      }
    }
    forall i, j | i in t.attempts && j in t.attempts && Active(t.attempts[i]) && Active(t.attempts[j])
      && c.owner(i) == c.owner(j)
      ensures i == j
    {
      OneOfTwo(c, s, step, i, j);
    }
  }

  // ---- The recorded hash ----

  // Where the attempt may stand whose answer is recorded, and the state of the record there.
  predicate Stands(pc: Pc, state: State) {
    || pc.Returned? || Reconciles(pc)
    || ((pc.NotifyingHash? || pc.RecordingRejection?) && state.TxHashKnown?)
  }

  // The recorded hash is the wallet's answer to this attempt, and no other with its owner id is active.
  ghost predicate Wrote(c: Config, s: Sys, r: Record, id: nat) {
    && id in s.attempts && c.owner(id) == r.ownerId
    && r.transactionHash.Some? && AnsweredWith(s.attempts[id], r.transactionHash.value)
    && Stands(s.attempts[id].pc, r.state)
    && forall x | x in s.attempts && x != id && c.owner(x) == r.ownerId :: !Active(s.attempts[x])
  }

  predicate Submitted(state: State) {
    state.TxHashKnown? || state.ReconciliationRequired?
  }

  ghost predicate HashExplained(c: Config, s: Sys) {
    var r := Seen(s.cell, c.intentId);
    r.Some? && r.value.transactionHash.Some? && !r.value.state.Confirmed? ==>
      Submitted(r.value.state) && exists id :: Wrote(c, s, r.value, id)
  }

  // The locked operations that an attempt does not perform leave such a record or confirm it.
  lemma OthersKeepSubmitted(cell: Cell, intentId: string, claimer: string, leaseMs: int, now: int, hash: string)
    requires Seen(cell, intentId).Some? && Submitted(Seen(cell, intentId).value.state)
    ensures var claim := ClaimStep(cell, intentId, claimer, leaseMs, now);
      claim.cell == cell && (claim.result.Ok? ==> !claim.result.value.acquired)
    ensures RecoverAfterReloadStep(cell, intentId, leaseMs, now).cell == cell
    ensures RecoverPreProviderStep(cell, intentId, leaseMs, now).cell == cell
    ensures var t := ConfirmStep(cell, intentId, hash, now).cell;
      t == cell
      || ((Seen(t, intentId).Some? ==> Seen(t, intentId).value.state.Confirmed?)
          && (RecordedHash(cell).Some? ==> RecordedHash(t) == RecordedHash(cell)))
  {
    var r := Seen(cell, intentId).value;
    WrittenIsReadBack(r.(state := Confirmed, transactionHash := Some(Lower(hash)), updatedAt := now));
  }

  lemma ReleaseKeepsSubmitted(cell: Cell, intentId: string, owner: string, walletRejected: bool, invoked: bool)
    requires Seen(cell, intentId).Some? && Submitted(Seen(cell, intentId).value.state)
    ensures ReleaseStep(cell, intentId, owner, walletRejected, invoked).cell == cell
  {}

  // The record after a step, if it is not confirmed: as before, or moved by its own attempt.
  ghost predicate Stays(c: Config, r: Record, t: Sys) {
    && RecordedHash(t.cell) == r.transactionHash
    && (Seen(t.cell, c.intentId).Some? ==>
         var q := Seen(t.cell, c.intentId).value;
         q.ownerId == r.ownerId && q.transactionHash == r.transactionHash && (Submitted(q.state) || q.state.Confirmed?))
  }

  lemma UnchangedStays(c: Config, s: Sys, t: Sys)
    requires Seen(s.cell, c.intentId).Some? && Submitted(Seen(s.cell, c.intentId).value.state) && t.cell == s.cell
    ensures Stays(c, Seen(s.cell, c.intentId).value, t)
  {}

  lemma OtherAttemptHarmless(c: Config, s: Sys, r: Record, id: nat, step: Step)
    requires AllSane(s) && Seen(s.cell, c.intentId) == Some(r) && Submitted(r.state) && Wrote(c, s, r, id)
    requires (step.Proceed? || step.LateProceed?) && step.id != id && step.id in s.attempts
    ensures Next(c, s, step).cell == s.cell
  {
    hide TransitionStep, ReleaseStep;
    var b := s.attempts[step.id];
    assert Sane(b);
    if step.Proceed? {
      match Wants(b)
      case NoLock =>
      case Transition(to, hash) => TransitionWrites(s.cell, c.intentId, c.owner(step.id), to, hash, step.now);
      case Release(walletRejected) =>
        ReleaseKeepsSubmitted(s.cell, c.intentId, c.owner(step.id), walletRejected, b.providerInvoked);
    } else if b.late.RecordingLate? {
      TransitionWrites(s.cell, c.intentId, c.owner(step.id), TxHashKnown, Some(b.late.hash), step.now);
    }
  }

  lemma OwnAttemptKeeps(c: Config, s: Sys, r: Record, id: nat, step: Step)
    requires AllSane(s) && Seen(s.cell, c.intentId) == Some(r) && Submitted(r.state) && Wrote(c, s, r, id)
    requires (step.Proceed? || step.LateProceed?) && step.id == id
    ensures var t := Next(c, s, step);
      && Stays(c, r, t)
      && (Seen(t.cell, c.intentId).Some? ==> Stands(t.attempts[id].pc, Seen(t.cell, c.intentId).value.state))
  {
    hide TransitionStep, ReleaseStep;
    var a, hash := s.attempts[id], r.transactionHash.value;
    assert Sane(a);
    LowerKeepsHash(hash);
    UnchangedStays(c, s, s);
    if step.Proceed? {
      match Wants(a)
      case NoLock =>
      case Transition(to, given) => TransitionWrites(s.cell, c.intentId, c.owner(id), to, given, step.now);
      case Release(_) =>
    } else if a.late.RecordingLate? && !a.pc.Crashed? {
      TransitionWrites(s.cell, c.intentId, c.owner(id), TxHashKnown, Some(a.late.hash), step.now);
    }
  }

  lemma StillStands(c: Config, s: Sys, r: Record, id: nat, step: Step)
    requires AllSane(s) && Wrote(c, s, r, id) && Submitted(r.state)
    requires !((step.Proceed? || step.LateProceed?) && step.id == id)
    ensures id in Next(c, s, step).attempts && Stands(Next(c, s, step).attempts[id].pc, r.state)
  {
    hide TransitionStep, ReleaseStep, ClaimStep, ConfirmStep, RecoverAfterReloadStep, RecoverPreProviderStep, Lower;
    assert Sane(s.attempts[id]);
    if Touched(step) != Some(id) {
      OthersUntouched(c, s, step, id);
    }
  }

  lemma StillAnswered(c: Config, s: Sys, id: nat, hash: string, step: Step)
    requires AllSane(s) && id in s.attempts && AnsweredWith(s.attempts[id], hash)
    ensures id in Next(c, s, step).attempts && AnsweredWith(Next(c, s, step).attempts[id], hash)
  {
    hide TransitionStep, ReleaseStep, ClaimStep, ConfirmStep, RecoverAfterReloadStep, RecoverPreProviderStep;
    assert Sane(s.attempts[id]);
    if Touched(step) != Some(id) {
      OthersUntouched(c, s, step, id);
    }
  }

  lemma NobodyStarts(cell: Cell, intentId: string, owner: string, now: int)
    requires Seen(cell, intentId).Some? && Submitted(Seen(cell, intentId).value.state)
    ensures TransitionStep(cell, intentId, owner, ProviderCallStarted, None, now).result.Fail?
  {}

  lemma OthersStayInactive(c: Config, s: Sys, r: Record, id: nat, step: Step, x: nat)
    requires AllSane(s) && Seen(s.cell, c.intentId) == Some(r) && Submitted(r.state) && Wrote(c, s, r, id)
    requires x in Next(c, s, step).attempts && x != id && c.owner(x) == r.ownerId
    ensures !Active(Next(c, s, step).attempts[x])
  {
    hide Next, TransitionStep, Active, Sane;
    if Active(Next(c, s, step).attempts[x]) {
      BecomingActive(c, s, step, x);
      NobodyStarts(s.cell, c.intentId, c.owner(x), step.now);
    }
  }

  // An unconfirmed recorded hash survives every step, with the attempt that it came from.
  lemma HashSurvives(c: Config, s: Sys, r: Record, id: nat, step: Step)
    requires AllSane(s) && Seen(s.cell, c.intentId) == Some(r) && Submitted(r.state) && Wrote(c, s, r, id)
    ensures var t := Next(c, s, step);
      && RecordedHash(t.cell) == r.transactionHash
      && (Seen(t.cell, c.intentId).Some? && !Seen(t.cell, c.intentId).value.state.Confirmed? ==>
           var q := Seen(t.cell, c.intentId).value;
           q.transactionHash == r.transactionHash && Submitted(q.state) && Wrote(c, t, q, id))
  {
    hide ClaimStep, ReleaseStep, TransitionStep, RecoverAfterReloadStep, RecoverPreProviderStep, ConfirmStep;
    hide ProceedStep, AnsweredWith, Active, Sane, Stands, Lower;
    var t := Next(c, s, step);
    StillAnswered(c, s, id, r.transactionHash.value, step);
    forall x | x in t.attempts && x != id && c.owner(x) == r.ownerId
      ensures !Active(t.attempts[x])
    {
      OthersStayInactive(c, s, r, id, step, x);
    }
    UnchangedStays(c, s, s);
    if (step.Proceed? || step.LateProceed?) && step.id == id {
      OwnAttemptKeeps(c, s, r, id, step);
    } else {
      StillStands(c, s, r, id, step);
      match step
      case Start(x, now) => OthersKeepSubmitted(s.cell, c.intentId, c.owner(x), c.leaseMs, now, "");
      case Reload(now) => OthersKeepSubmitted(s.cell, c.intentId, "", c.leaseMs, now, "");
      case RecoverPre(now) => OthersKeepSubmitted(s.cell, c.intentId, "", c.leaseMs, now, "");
      case ConfirmBy(hash, now) => OthersKeepSubmitted(s.cell, c.intentId, "", c.leaseMs, now, hash);
      case Proceed(x, _) => if x in s.attempts { OtherAttemptHarmless(c, s, r, id, step); }
      case LateProceed(x, _) => if x in s.attempts { OtherAttemptHarmless(c, s, r, id, step); }
      case _ =>
    }
  }

  // A hash is recorded only by an attempt, as the wallet's answer to it.
  lemma HashAppears(c: Config, s: Sys, step: Step)
    requires Tidy(c, s)
    requires Seen(s.cell, c.intentId).Some? ==> Seen(s.cell, c.intentId).value.transactionHash.None?
    requires Seen(Next(c, s, step).cell, c.intentId).Some?
    requires Seen(Next(c, s, step).cell, c.intentId).value.transactionHash.Some?
    requires !Seen(Next(c, s, step).cell, c.intentId).value.state.Confirmed?
    ensures HashExplained(c, Next(c, s, step))
  {
    hide ClaimStep, ReleaseStep, TransitionStep, RecoverAfterReloadStep, RecoverPreProviderStep, ConfirmStep;
    hide Parse, Lower;
    var t := Next(c, s, step);
    var r := Seen(t.cell, c.intentId).value;
    match step {
      case Start(id, now) => ClaimWrites(s.cell, c.intentId, c.owner(id), c.leaseMs, now);
      case Reload(now) => OthersWrite(s.cell, c.intentId, c.leaseMs, now, "", "", false, false);
      case RecoverPre(now) => OthersWrite(s.cell, c.intentId, c.leaseMs, now, "", "", false, false);
      case ConfirmBy(hash, now) => OthersWrite(s.cell, c.intentId, c.leaseMs, now, hash, "", false, false);
      case Proceed(id, now) =>
        if id in s.attempts {
          HashAppearsByProceeding(c, s, id, now);
        }
      case LateProceed(id, now) =>
        if id in s.attempts {
          HashAppearsLate(c, s, id, now);
        }
      case _ =>
    }
  }

  lemma HashAppearsByProceeding(c: Config, s: Sys, id: nat, now: int)
    requires Tidy(c, s) && id in s.attempts
    requires Seen(s.cell, c.intentId).Some? ==> Seen(s.cell, c.intentId).value.transactionHash.None?
    requires Seen(ProceedStep(c, s, id, now).cell, c.intentId).Some?
    requires Seen(ProceedStep(c, s, id, now).cell, c.intentId).value.transactionHash.Some?
    ensures HashExplained(c, ProceedStep(c, s, id, now))
  {
    hide ReleaseStep, TransitionStep, Parse, Lower;
    var a, t := s.attempts[id], ProceedStep(c, s, id, now);
    var r := Seen(t.cell, c.intentId).value;
    assert Sane(a);
    match Wants(a)
    case NoLock =>
    case Transition(to, hash) =>
      TransitionWrites(s.cell, c.intentId, c.owner(id), to, hash, now);
      LowerKeepsHash(hash.value);
      assert Active(a);
      assert Wrote(c, t, r, id);
    case Release(walletRejected) =>
      OthersWrite(s.cell, c.intentId, 0, now, "", c.owner(id), walletRejected, a.providerInvoked);
  }

  lemma HashAppearsLate(c: Config, s: Sys, id: nat, now: int)
    requires Tidy(c, s) && id in s.attempts
    requires Seen(s.cell, c.intentId).Some? ==> Seen(s.cell, c.intentId).value.transactionHash.None?
    requires Seen(Next(c, s, LateProceed(id, now)).cell, c.intentId).Some?
    requires Seen(Next(c, s, LateProceed(id, now)).cell, c.intentId).value.transactionHash.Some?
    ensures HashExplained(c, Next(c, s, LateProceed(id, now)))
  {
    hide TransitionStep, Parse, Lower;
    var a, t := s.attempts[id], Next(c, s, LateProceed(id, now));
    var r := Seen(t.cell, c.intentId).value;
    assert Sane(a);
    if a.late.RecordingLate? && !a.pc.Crashed? {
      TransitionWrites(s.cell, c.intentId, c.owner(id), TxHashKnown, Some(a.late.hash), now);
      LowerKeepsHash(a.late.hash);
      assert Active(a);
      assert Wrote(c, t, r, id);
    }
  }

  lemma StepKeepsExplained(c: Config, s: Sys, step: Step)
    requires Tidy(c, s) && HashExplained(c, s)
    ensures HashExplained(c, Next(c, s, step))
  {
    hide Next, Wrote, Tidy, Parse;
    assert AllSane(s) by { TidyIsSane(c, s); }
    var before, after := Seen(s.cell, c.intentId), Seen(Next(c, s, step).cell, c.intentId);
    if after.Some? && after.value.transactionHash.Some? && !after.value.state.Confirmed? {
      if before.None? || before.value.transactionHash.None? {
        HashAppears(c, s, step);
      } else if before.value.state.Confirmed? {
        ConfirmedIsAbsorbing(c, s, step);
      } else {
        var id :| Wrote(c, s, before.value, id);
        HashSurvives(c, s, before.value, id, step);
      }
    }
  }

  lemma TidyIsSane(c: Config, s: Sys)
    requires Tidy(c, s)
    ensures AllSane(s)
  {}

  lemma {:induction false} RunsAreTidy(c: Config, stored: Cell, steps: seq<Step>)
    requires NoThreeShare(c)
    ensures Tidy(c, Run(c, stored, steps))
    ensures HashExplained(c, Initially(stored)) ==> HashExplained(c, Run(c, stored, steps))
    decreases |steps|
  {
    hide Tidy, HashExplained;
    if steps == [] {
      NothingActive(c, stored);
    } else {
      var before, step := Run(c, stored, steps[..|steps| - 1]), steps[|steps| - 1];
      RunsAreTidy(c, stored, steps[..|steps| - 1]);
      StepKeepsTidy(c, before, step);
      if HashExplained(c, before) {
        StepKeepsExplained(c, before, step);
      }
    }
  }

  lemma NothingActive(c: Config, stored: Cell)
    ensures Tidy(c, Initially(stored))
  {}

  // ---- Main results ----

  // A record with a hash is past the wallet request. Nothing else is stored if no three attempts share an owner
  // id.
  predicate Orderly(cell: Cell, intentId: string) {
    var r := Seen(cell, intentId);
    r.Some? && r.value.transactionHash.Some? ==> Blocked(cell, intentId)
  }

  lemma RunsEndOrderly(c: Config, stored: Cell, steps: seq<Step>)
    requires NoThreeShare(c) && Orderly(stored, c.intentId)
    ensures Orderly(Run(c, stored, steps).cell, c.intentId)
  {
    if Blocked(stored, c.intentId) {
      NeverSentAgain(c, stored, steps);
    } else {
      RunsAreTidy(c, stored, steps);
    }
  }

  // A hash that is recorded in a run is the answer of the wallet to the attempt that owns the record.
  lemma RecordedHashIsAnAnswer(c: Config, stored: Cell, steps: seq<Step>)
    requires NoThreeShare(c) && Orderly(stored, c.intentId) && !Blocked(stored, c.intentId)
    ensures var s := Run(c, stored, steps);
      var r := Seen(s.cell, c.intentId);
      r.Some? && r.value.transactionHash.Some? && !r.value.state.Confirmed? ==>
        exists id | id in s.attempts ::
          c.owner(id) == r.value.ownerId && AnsweredWith(s.attempts[id], r.value.transactionHash.value)
  {
    RunsAreTidy(c, stored, steps);
    var s := Run(c, stored, steps);
    var r := Seen(s.cell, c.intentId);
    if r.Some? && r.value.transactionHash.Some? && !r.value.state.Confirmed? {
      var id :| Wrote(c, s, r.value, id);
    }
  }

  // No step of a run changes or removes a hash that is recorded.
  ghost predicate HashStays(c: Config, stored: Cell, steps: seq<Step>, step: Step) {
    var s := Run(c, stored, steps);
    RecordedHash(s.cell).Some? ==> RecordedHash(Next(c, s, step).cell) == RecordedHash(s.cell)
  }

  lemma NextHashStays(c: Config, stored: Cell, steps: seq<Step>, step: Step)
    requires NoThreeShare(c) && Orderly(stored, c.intentId)
    ensures HashStays(c, stored, steps, step)
  {
    hide Next, Run, Tidy, Wrote;
    var s := Run(c, stored, steps);
    var r := Seen(s.cell, c.intentId);
    if RecordedHash(s.cell).Some? {
      if Blocked(stored, c.intentId) {
        NeverSentAgain(c, stored, steps);
        BlockedStep(c, s, step);
      } else if r.None? {
        UnreadableIsStuck(c, s, step);
      } else if r.value.state.Confirmed? {
        ConfirmedIsAbsorbing(c, s, step);
      } else {
        RunsAreTidy(c, stored, steps);
        TidyIsSane(c, s);
        var id :| Wrote(c, s, r.value, id);
        HashSurvives(c, s, r.value, id, step);
      }
    }
  }

  // A hash, once recorded, stays for the rest of the run: the record is neither removed nor given another
  // hash, whatever the clock, callbacks, late answers, forced reconciliations and confirmations do.
  lemma {:induction false} RecordedHashIsPermanent(c: Config, stored: Cell, steps: seq<Step>, k: nat)
    requires NoThreeShare(c) && Orderly(stored, c.intentId)
    requires k <= |steps| && RecordedHash(Run(c, stored, steps[..k]).cell).Some?
    ensures RecordedHash(Run(c, stored, steps).cell) == RecordedHash(Run(c, stored, steps[..k]).cell)
    decreases |steps|
  {
    hide Orderly, NoThreeShare;
    if k == |steps| {
      assert steps[..k] == steps;
    } else {
      var before := steps[..|steps| - 1];
      assert before[..k] == steps[..k];
      RecordedHashIsPermanent(c, stored, before, k);
      NextHashStays(c, stored, before, steps[|steps| - 1]);
    }
  }

  // ---- Three attempts with one owner id ----

  // An attempt that has timed out and whose late answer is about to be recorded.
  function Belated(hash: string): Attempt {
    called.(pc := NotifyingReconciliation, state := TxHashKnown, status := Pending, transactionHash := Some(hash),
            call := Answered(Fulfilled(hash)), late := RecordingLate(hash))
  }

  const timedOut :=
    called.(pc := RecordingReconciliation, state := ReconciliationRequired)

  lemma ReachTimedOut(c: Config, stored: Cell, s: Sys, id: nat, cell: Cell)
    requires Reachable(c, stored, Put(s, id, cell, called))
    ensures Reachable(c, stored, Put(s, id, cell, timedOut))
  {
    hide Reachable;
    ReachResumed(c, stored, s, id, cell, called, called.(pc := Racing));
    ReachFurther(c, stored, s, id, cell, called.(pc := Racing), TimesOut(id), cell, timedOut);
  }

  function Moved(r: Record): Record {
    r.(state := ReconciliationRequired, updatedAt := 0)
  }

  lemma ReachMoved(c: Config, stored: Cell, s: Sys, id: nat, r: Record)
    requires IsHash(c.intentId) && Reachable(c, stored, Put(s, id, Written(r), timedOut))
    requires r.intentId == c.intentId && r.ownerId == c.owner(id) && Readable(r)
    requires r.state.ProviderCallStarted? || r.state.TxHashKnown?
    ensures Reachable(c, stored, Put(s, id, Written(Moved(r)), timedOut.(pc := NotifyingReconciliation)))
  {
    hide Reachable;
    WrittenIsReadBack(r);
    ReachFurther(c, stored, s, id, Written(r), timedOut, Proceed(id, 0),
                 Written(Moved(r)), timedOut.(pc := NotifyingReconciliation));
  }

  // It times out, moves whatever record carries its owner id to RECONCILIATION_REQUIRED, and is answered.
  lemma ReachBelated(c: Config, stored: Cell, s: Sys, id: nat, r: Record, hash: string)
    requires IsHash(c.intentId) && IsHash(hash) && Reachable(c, stored, Put(s, id, Written(r), called))
    requires r.intentId == c.intentId && r.ownerId == c.owner(id) && Readable(r)
    requires r.state.ProviderCallStarted? || r.state.TxHashKnown?
    ensures Reachable(c, stored, Put(s, id, Written(Moved(r)), Belated(hash)))
  {
    hide Reachable, Moved;
    LowerKeepsHash(hash);
    ReachTimedOut(c, stored, s, id, Written(r));
    ReachMoved(c, stored, s, id, r);
    ReachFurther(c, stored, s, id, Written(Moved(r)), timedOut.(pc := NotifyingReconciliation),
                 WalletAnswers(id, Fulfilled(hash)), Written(Moved(r)), Belated(hash));
  }

  // The late answer is recorded, over another one if there is one.
  lemma LateAnswerIsRecorded(c: Config, s: Sys, id: nat, r: Record, hash: string)
    requires IsHash(c.intentId) && IsHash(hash) && s.cell == Written(r)
    requires id in s.attempts && s.attempts[id] == Belated(hash)
    requires r.intentId == c.intentId && r.ownerId == c.owner(id) && Readable(r) && r.state.ReconciliationRequired?
    ensures Next(c, s, LateProceed(id, 0))
         == Put(s, id, Written(r.(state := TxHashKnown, transactionHash := Some(hash), updatedAt := 0)),
                Belated(hash).(late := NotifyingLate))
  {
    WrittenIsReadBack(r);
    LowerKeepsHash(hash);
  }

  // Two attempts with one owner id that have both called the wallet: j times out, and its late answer is recorded
  // in the record they share; k times out, and its late answer replaces that of j.
  lemma LaterAnswerReplaces(c: Config, stored: Cell, rest: Sys, j: nat, k: nat, r: Record, first: string,
                            second: string)
      returns (s: Sys)
    requires IsHash(c.intentId) && IsHash(first) && IsHash(second) && j != k && c.owner(j) == c.owner(k)
    requires r.intentId == c.intentId && r.ownerId == c.owner(k) && Readable(r) && r.state.ProviderCallStarted?
    requires Reachable(c, stored, Put(Put(rest, k, Written(r), called), j, Written(r), called))
    ensures Reachable(c, stored, s)
    ensures RecordedHash(s.cell) == Some(first) && RecordedHash(Next(c, s, LateProceed(k, 0)).cell) == Some(second)
  {
    hide Reachable, Next, Put, Belated;
    var known := Moved(r).(state := TxHashKnown, transactionHash := Some(first));
    var done := Belated(first).(late := NotifyingLate);
    var both := Put(rest, k, Written(r), called);
    ReachBelated(c, stored, both, j, r, first);
    var s1 := Put(both, j, Written(Moved(r)), Belated(first));
    PutIs(both, j, Written(Moved(r)), Belated(first));
    LateAnswerIsRecorded(c, s1, j, Moved(r), first);
    Reach(c, stored, s1, LateProceed(j, 0));
    Reordered(rest, k, j, Written(r), Written(Moved(r)), Belated(first), Written(known), done);
    ReachBelated(c, stored, Put(rest, j, Written(known), done), k, known, second);
    s := Put(Put(rest, j, Written(known), done), k, Written(Moved(known)), Belated(second));
    PutIs(Put(rest, j, Written(known), done), k, Written(Moved(known)), Belated(second));
    LateAnswerIsRecorded(c, s, k, Moved(known), second);
    PutIs(s, k, Next(c, s, LateProceed(k, 0)).cell, Belated(second).(late := NotifyingLate));
    PutIs(s, k, Written(Moved(known).(state := TxHashKnown, transactionHash := Some(second), updatedAt := 0)),
          Belated(second).(late := NotifyingLate));
  }

  lemma PutIs(s: Sys, id: nat, cell: Cell, a: Attempt)
    ensures var t := Put(s, id, cell, a); t.cell == cell && id in t.attempts && t.attempts[id] == a
  {}

  lemma Reordered(s: Sys, k: nat, j: nat, cell: Cell, moved: Cell, belated: Attempt, known: Cell, done: Attempt)
    requires j != k
    ensures Put(Put(Put(s, k, cell, called), j, moved, belated), j, known, done)
      == Put(Put(s, j, known, done), k, known, called)
  {
    assert s.attempts[k := called][j := belated][j := done] == s.attempts[j := done][k := called];
  }

  // So three attempts with one owner id, of which two call the wallet as in SharedOwnerSendsTwice, replace a hash.
  lemma SharedOwnerReplacesHash(c: Config, i: nat, j: nat, k: nat, first: string, second: string)
    requires IsHash(c.intentId) && IsHash(first) && IsHash(second) && first != second
    requires i != j && j != k && i != k && c.owner(i) == c.owner(j) == c.owner(k)
    ensures exists s, step :: (Reachable(c, None, s)
      && RecordedHash(s.cell) == Some(first) && RecordedHash(Next(c, s, step).cell) == Some(second))
  {
    hide Reachable, Next;
    var s0 := SharedOwnerSendsTwice(c, i, j, k);
    var r := RecordOf(c, k, ProviderCallStarted, 0);
    var rest := Sys(None, map[i := Resume(refused, true)]);
    assert s0 == Put(Put(rest, k, Written(r), called), j, Written(r), called);
    var s := LaterAnswerReplaces(c, None, rest, j, k, r, first, second);
  }

  // Recorded hashes stay in all runs exactly when no three attempts share an owner id.
  lemma HashesStayExactlyWithoutThree(c: Config)
    requires IsHash(c.intentId)
    ensures (forall stored, steps, step | Orderly(stored, c.intentId) :: HashStays(c, stored, steps, step))
        <==> NoThreeShare(c)
  {
    if NoThreeShare(c) {
      forall stored, steps, step | Orderly(stored, c.intentId)
        ensures HashStays(c, stored, steps, step)
      {
        NextHashStays(c, stored, steps, step);
      }
    } else {
      var i: nat, j: nat, k: nat :| c.owner(i) == c.owner(j) == c.owner(k) && i != j && j != k && i != k;
      var first, second := HashOf('0'), HashOf('1');
      assert first[2] != second[2];
      SharedOwnerReplacesHash(c, i, j, k, first, second);
      var s, step :| Reachable(c, None, s)
        && RecordedHash(s.cell) == Some(first) && RecordedHash(Next(c, s, step).cell) == Some(second);
      var steps :| Run(c, None, steps) == s;
      assert !HashStays(c, None, steps, step) && Orderly(None, c.intentId);
    }
  }

  function HashOf(digit: char): (h: string)
    requires IsHexDigit(digit)
    ensures IsHash(h) && h[2] == digit
  {
    "0x" + seq(64, i => digit)
  }
}
