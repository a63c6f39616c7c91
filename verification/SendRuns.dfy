// The guarantee of the submit path for single runs (apps/web/v4/proof-transaction-acceptance.js): attempts may
// share owner ids, and it is said which steps a run must not take.

module SendRuns {
  import opened Results
  import opened Text
  import opened SendCoordinator
  import opened SendProtocol

  // ---- The steps that spoil a run ----

  // The attempt has recorded the wallet's rejection and will release the record.
  predicate WillRelease(a: Attempt) {
    a.providerInvoked && (a.pc.NotifyingRejection? || a.pc == Releasing(true))
  }

  // A reload removes a REJECTED record while an attempt with its owner id has yet to release it.
  ghost predicate FreesAwaited(c: Config, s: Sys, step: Step) {
    var r := Seen(s.cell, c.intentId);
    && step.Reload? && r.Some? && r.value.state.Rejected?
    && exists id | id in s.attempts :: WillRelease(s.attempts[id]) && c.owner(id) == r.value.ownerId
  }

  // A record that its owner may release after a rejection.
  predicate Releasable(cell: Cell, intentId: string, owner: string) {
    var r := Seen(cell, intentId);
    r.Some? && r.value.ownerId == owner && (r.value.state.ProviderCallStarted? || r.value.state.Rejected?)
  }

  // An attempt that never called the wallet, but whose validation failed with a rejection code, releases a
  // record under which the wallet was called.
  predicate ReleasesUncalled(c: Config, s: Sys, step: Step) {
    && step.Proceed? && step.id in s.attempts
    && s.attempts[step.id].pc == Releasing(true) && !s.attempts[step.id].providerInvoked
    && Releasable(s.cell, c.intentId, c.owner(step.id))
  }

  // One of these, or a callback that throws a rejection code after the wallet was called.
  ghost predicate Spoils(c: Config, s: Sys, step: Step) {
    FreesAwaited(c, s, step) || ReleasesUncalled(c, s, step) || Forges(c, s, step)
  }

  ghost predicate Undisturbed(c: Config, stored: Cell, steps: seq<Step>) {
    forall n | 0 <= n < |steps| :: !Spoils(c, Run(c, stored, steps[..n]), steps[n])
  }

  // ---- The invariant ----

  // The wallet has refused, and the attempt is on its way to record and release that.
  predicate Refused(a: Attempt) {
    a.call == Answered(WalletRejection)
    && (a.pc.NotifyingStart? || a.pc.Racing? || a.pc.RecordingRejection? || a.pc.NotifyingRejection?
      || a.pc == Releasing(true))
  }

  predicate Warm(a: Attempt) {
    Hot(a) || Refused(a)
  }

  // The stored record is the one under which a warm attempt called the wallet; REJECTED it is only if that
  // attempt itself has said so.
  predicate Held(c: Config, cell: Cell, owner: string, mayBeRejected: bool) {
    && cell.Some?
    && var parsed := Parse(cell, c.intentId);
    parsed.Ok? ==>
      && parsed.value.Some?
      && parsed.value.value.ownerId == owner
      && !BeforeProvider(parsed.value.value.state)
      && (parsed.value.value.state.Rejected? ==> mayBeRejected)
  }

  ghost predicate WarmAreHeld(c: Config, s: Sys) {
    forall id | id in s.attempts && Warm(s.attempts[id]) :: Held(c, s.cell, c.owner(id), WillRelease(s.attempts[id]))
  }

  ghost predicate AtMostOneWarm(s: Sys) {
    forall i, j | i in s.attempts && j in s.attempts && Warm(s.attempts[i]) && Warm(s.attempts[j]) :: i == j
  }

  ghost predicate Orderly(c: Config, s: Sys) {
    AllConsistent(s) && WarmAreHeld(c, s) && AtMostOneWarm(s)
  }

  // ---- What a locked operation does to a held record ----

  lemma OthersKeepHeld(c: Config, cell: Cell, owner: string, rejected: bool, now: int, hash: string, claimer: string)
    requires Held(c, cell, owner, rejected)
    ensures var claim := ClaimStep(cell, c.intentId, claimer, c.leaseMs, now);
      Held(c, claim.cell, owner, rejected) && (claim.result.Ok? ==> !claim.result.value.acquired)
    ensures Held(c, RecoverPreProviderStep(cell, c.intentId, c.leaseMs, now).cell, owner, rejected)
    ensures Held(c, ConfirmStep(cell, c.intentId, hash, now).cell, owner, rejected)
    ensures !(Seen(cell, c.intentId).Some? && Seen(cell, c.intentId).value.state.Rejected?) ==>
      Held(c, RecoverAfterReloadStep(cell, c.intentId, c.leaseMs, now).cell, owner, rejected)
  {
    var parsed := Parse(cell, c.intentId);
    if parsed.Ok? {
      var r := parsed.value.value;
      WrittenIsReadBack(r.(state := ReconciliationRequired, updatedAt := now));
      WrittenIsReadBack(r.(state := Confirmed, transactionHash := Some(Lower(hash)), updatedAt := now));
    }
  }

  lemma TransitionKeepsHeld(c: Config, cell: Cell, owner: string, rejected: bool, mover: string, to: State,
                            hash: Option<string>, now: int)
    requires Held(c, cell, owner, rejected)
    ensures to.ProviderCallStarted? || to.WalletRequestPending? ==>
      TransitionStep(cell, c.intentId, mover, to, hash, now).result.Fail?
    ensures Held(c, TransitionStep(cell, c.intentId, mover, to, hash, now).cell, owner, rejected || to.Rejected?)
  {
    var step := TransitionStep(cell, c.intentId, mover, to, hash, now);
    if step.result.Ok? {
      WrittenIsReadBack(step.result.value);
    }
  }

  lemma ReleaseKeepsHeld(c: Config, cell: Cell, owner: string, rejected: bool, releaser: string,
                         walletRejected: bool, invoked: bool)
    requires Held(c, cell, owner, rejected)
    requires walletRejected ==> !Releasable(cell, c.intentId, releaser)
    ensures Held(c, ReleaseStep(cell, c.intentId, releaser, walletRejected, invoked).cell, owner, rejected)
  {}

  lemma StartingHolds(c: Config, cell: Cell, owner: string, now: int)
    requires TransitionStep(cell, c.intentId, owner, ProviderCallStarted, None, now).result.Ok?
    ensures Held(c, TransitionStep(cell, c.intentId, owner, ProviderCallStarted, None, now).cell, owner, false)
  {
    WrittenIsReadBack(TransitionStep(cell, c.intentId, owner, ProviderCallStarted, None, now).result.value);
  }

  // ---- What a step does to attempts ----

  // An attempt becomes warm only by the transition that starts the call.
  lemma BecomingWarm(c: Config, s: Sys, step: Step, id: nat)
    requires !Forges(c, s, step) && AllConsistent(s)
    requires id in Next(c, s, step).attempts && Warm(Next(c, s, step).attempts[id])
    requires id !in s.attempts || !Warm(s.attempts[id])
    ensures step.Proceed? && step.id == id && id in s.attempts
    ensures TransitionStep(s.cell, c.intentId, c.owner(id), ProviderCallStarted, None, step.now).result.Ok?
    ensures Next(c, s, step).cell
      == TransitionStep(s.cell, c.intentId, c.owner(id), ProviderCallStarted, None, step.now).cell
    ensures !WillRelease(Next(c, s, step).attempts[id])
  {
    hide TransitionStep, ReleaseStep, ClaimStep, ConfirmStep, RecoverAfterReloadStep, RecoverPreProviderStep, Lower;
    if Touched(step) != Some(id) {
      OthersUntouched(c, s, step, id);
    }
  }

  // Having recorded the rejection, an attempt remains on its way to the release as long as it is warm.
  lemma StillReleasing(a: Attempt, b: Attempt)
    requires Consistent(a) && Evolves(a, b, false) && Warm(a) && Warm(b) && WillRelease(a)
    ensures WillRelease(b)
  {}

  // The lock operation of an attempt other than the warm one does no harm.
  lemma OtherProceeds(c: Config, s: Sys, id: nat, other: nat, now: int)
    requires Orderly(c, s) && id in s.attempts && Warm(s.attempts[id]) && other in s.attempts && other != id
    requires !ReleasesUncalled(c, s, Proceed(other, now))
    ensures Held(c, ProceedStep(c, s, other, now).cell, c.owner(id), WillRelease(s.attempts[id]))
  {
    hide TransitionStep, ReleaseStep, Held;
    var b := s.attempts[other];
    assert Consistent(b) && !Warm(b);
    var rejected := WillRelease(s.attempts[id]);
    match Wants(b)
    case NoLock =>
    case Transition(to, hash) =>
      TransitionKeepsHeld(c, s.cell, c.owner(id), rejected, c.owner(other), to, hash, now);
    case Release(walletRejected) =>
      ReleaseKeepsHeld(c, s.cell, c.owner(id), rejected, c.owner(other), walletRejected, b.providerInvoked);
  }

  lemma OwnProceeds(c: Config, s: Sys, id: nat, now: int)
    requires Orderly(c, s) && id in s.attempts && Warm(s.attempts[id])
    requires !ReleasesUncalled(c, s, Proceed(id, now))
    ensures var t := ProceedStep(c, s, id, now);
      Warm(t.attempts[id]) ==> Held(c, t.cell, c.owner(id), WillRelease(t.attempts[id]))
  {
    hide TransitionStep, ReleaseStep, Held;
    var a := s.attempts[id];
    assert Consistent(a);
    match Wants(a)
    case NoLock =>
    case Transition(to, hash) =>
      TransitionKeepsHeld(c, s.cell, c.owner(id), WillRelease(a), c.owner(id), to, hash, now);
    case Release(walletRejected) =>
      if !ReleaseStep(s.cell, c.intentId, c.owner(id), walletRejected, a.providerInvoked).result.Ok? {
        FailedReleaseKeeps(s.cell, c.intentId, c.owner(id), walletRejected, a.providerInvoked);
      }
  }

  lemma FailedReleaseKeeps(cell: Cell, intentId: string, owner: string, walletRejected: bool, invoked: bool)
    requires ReleaseStep(cell, intentId, owner, walletRejected, invoked).result.Fail?
    ensures ReleaseStep(cell, intentId, owner, walletRejected, invoked).cell == cell
  {}

  lemma LateProceeds(c: Config, s: Sys, id: nat, other: nat, now: int)
    requires Orderly(c, s) && id in s.attempts && Warm(s.attempts[id]) && other in s.attempts
    ensures Held(c, Next(c, s, LateProceed(other, now)).cell, c.owner(id), WillRelease(s.attempts[id]))
  {
    hide TransitionStep, Held;
    var b := s.attempts[other];
    if b.late.RecordingLate? {
      TransitionKeepsHeld(c, s.cell, c.owner(id), WillRelease(s.attempts[id]), c.owner(other), TxHashKnown,
                          Some(b.late.hash), now);
    }
  }

  lemma StayingWarm(c: Config, s: Sys, step: Step, id: nat)
    requires !Spoils(c, s, step) && Orderly(c, s) && id in s.attempts && Warm(s.attempts[id])
    ensures var t := Next(c, s, step);
      id in t.attempts && Warm(t.attempts[id]) ==> Held(c, t.cell, c.owner(id), WillRelease(t.attempts[id]))
  {
    hide ClaimStep, ReleaseStep, TransitionStep, RecoverAfterReloadStep, RecoverPreProviderStep, ConfirmStep;
    var t := Next(c, s, step);
    var owner, rejected := c.owner(id), WillRelease(s.attempts[id]);
    if id in t.attempts && Warm(t.attempts[id]) {
      StepsEvolve(c, s, step, id);
      if rejected {
        StillReleasing(s.attempts[id], t.attempts[id]);
      }
      match step {
        case Start(other, now) => OthersKeepHeld(c, s.cell, owner, rejected, now, "", c.owner(other));
        case Reload(now) => OthersKeepHeld(c, s.cell, owner, rejected, now, "", "");
        case RecoverPre(now) => OthersKeepHeld(c, s.cell, owner, rejected, now, "", "");
        case ConfirmBy(hash, now) => OthersKeepHeld(c, s.cell, owner, rejected, now, hash, "");
        case Proceed(other, now) =>
          if other == id {
            OwnProceeds(c, s, id, now);
          } else if other in s.attempts {
            OtherProceeds(c, s, id, other, now);
          }
        case LateProceed(other, now) =>
          if other in s.attempts {
            LateProceeds(c, s, id, other, now);
          }
        case _ =>
      }
    }
  }

  lemma StepKeepsOrderly(c: Config, s: Sys, step: Step)
    requires !Spoils(c, s, step) && Orderly(c, s)
    ensures Orderly(c, Next(c, s, step))
  {
    hide Next, TransitionStep, Held;
    StepKeepsConsistent(c, s, step);
    var t := Next(c, s, step);
    forall id | id in t.attempts && Warm(t.attempts[id])
      ensures Held(c, t.cell, c.owner(id), WillRelease(t.attempts[id]))
      ensures forall j | j in t.attempts && Warm(t.attempts[j]) :: j == id
    {
      if id in s.attempts && Warm(s.attempts[id]) {
        StayingWarm(c, s, step, id);
      } else {
        BecomingWarm(c, s, step, id);
        StartingHolds(c, s.cell, c.owner(id), step.now);
        HeldWeakens(c, t.cell, c.owner(id), WillRelease(t.attempts[id]));
      }
      forall j | j in t.attempts && Warm(t.attempts[j])
        ensures j == id
      {
        OneOfTwo(c, s, step, id, j);
      }
    }
  }

  lemma HeldWeakens(c: Config, cell: Cell, owner: string, rejected: bool)
    requires Held(c, cell, owner, false)
    ensures Held(c, cell, owner, rejected)
  {}

  lemma OneOfTwo(c: Config, s: Sys, step: Step, i: nat, j: nat)
    requires !Forges(c, s, step) && Orderly(c, s)
    requires i in Next(c, s, step).attempts && Warm(Next(c, s, step).attempts[i])
    requires j in Next(c, s, step).attempts && Warm(Next(c, s, step).attempts[j])
    ensures i == j
  {
    hide Next, TransitionStep, Held;
    var wi, wj := i in s.attempts && Warm(s.attempts[i]), j in s.attempts && Warm(s.attempts[j]);
    if !wi {
      BecomingWarm(c, s, step, i);
      if wj {
        TransitionKeepsHeld(c, s.cell, c.owner(j), WillRelease(s.attempts[j]), c.owner(i), ProviderCallStarted, None,
                            step.now);
      }
    }
    if !wj {
      BecomingWarm(c, s, step, j);
      if wi {
        TransitionKeepsHeld(c, s.cell, c.owner(i), WillRelease(s.attempts[i]), c.owner(j), ProviderCallStarted, None,
                            step.now);
      }
    }
  }

  lemma {:induction false} UndisturbedRunsAreOrderly(c: Config, stored: Cell, steps: seq<Step>)
    requires Undisturbed(c, stored, steps)
    ensures Orderly(c, Run(c, stored, steps))
    decreases |steps|
  {
    hide Orderly, Spoils;
    if steps == [] {
      NothingStarted(c, stored);
    } else {
      var before := steps[..|steps| - 1];
      assert forall n | 0 <= n < |before| :: before[..n] == steps[..n] && before[n] == steps[n];
      UndisturbedRunsAreOrderly(c, stored, before);
      StepKeepsOrderly(c, Run(c, stored, before), steps[|steps| - 1]);
    }
  }

  lemma NothingStarted(c: Config, stored: Cell)
    ensures Orderly(c, Initially(stored))
  {}

  // ---- Main results ----

  // Whatever owner ids the attempts share and whatever callbacks may throw: as long as no reload removes a
  // REJECTED record that an attempt has yet to release, no attempt that has not called the wallet releases a
  // record under which it was called, and no callback throws a rejection code after the call, at most one
  // wallet request of an intent was not explicitly rejected.
  lemma AtMostOneRequestPerUndisturbedRun(c: Config, stored: Cell, steps: seq<Step>)
    requires Undisturbed(c, stored, steps)
    ensures AtMostOneLive(Run(c, stored, steps))
  {
    hide Run;
    UndisturbedRunsAreOrderly(c, stored, steps);
  }

  // Both kinds of steps are to blame. After a reload of the first kind, the awaited release takes away the
  // record of the next attempt with that owner id, and a third attempt calls the wallet again.
  lemma FreedAwaitedSendsTwice(c: Config, stored: Cell, s: Sys, step: Step, i: nat, j: nat, k: nat)
    requires IsHash(c.intentId) && Reachable(c, stored, s) && FreesAwaited(c, s, step)
    requires i in s.attempts && WillRelease(s.attempts[i])
    requires j !in s.attempts && k !in s.attempts && j != k && c.owner(j) == c.owner(i)
    ensures exists t :: Reachable(c, stored, t) && !AtMostOneLive(t)
  {
    hide Reachable;
    var a := s.attempts[i];
    var releasing := a.(pc := Releasing(true));
    Reach(c, stored, s, step);
    var free := Next(c, s, step);
    assert free == s.(cell := None);
    assert Put(free, i, None, a) == free by { assert free.attempts[i := a] == free.attempts; }
    if a.pc.NotifyingRejection? {
      ReachResumed(c, stored, free, i, None, a, releasing);
    }
    ReleaseFollows(c, stored, Put(free, i, None, releasing), i, j, k);
  }

  lemma ReleaseFollows(c: Config, stored: Cell, s: Sys, i: nat, j: nat, k: nat)
    requires IsHash(c.intentId) && Reachable(c, stored, s) && s.cell == None
    requires i in s.attempts && s.attempts[i].pc == Releasing(true)
    requires j !in s.attempts && k !in s.attempts && j != k && c.owner(j) == c.owner(i)
    ensures exists t :: Reachable(c, stored, t) && !AtMostOneLive(t)
  {
    hide Reachable;
    var a, record := s.attempts[i], RecordOf(c, j, ProviderCallStarted, 0);
    Launch(c, stored, s, j);
    var both := Put(s, j, Written(record), called);
    assert Put(both, i, Written(record), a) == both by { assert both.attempts[i := a] == both.attempts; }
    ReleaseRemoves(c, stored, both, i, record, a);
    LaunchBeside(c, stored, Put(both, i, None, Resume(a, true)), j, k);
  }

  // With a request open and the intent free, a further attempt calls the wallet a second time.
  lemma LaunchBeside(c: Config, stored: Cell, s: Sys, j: nat, k: nat)
    requires IsHash(c.intentId) && Reachable(c, stored, s) && s.cell == None
    requires j in s.attempts && Live(s.attempts[j]) && k !in s.attempts
    ensures exists t :: Reachable(c, stored, t) && !AtMostOneLive(t)
  {
    hide Reachable;
    Launch(c, stored, s, k);
    var t := Put(s, k, CellOf(c, k, ProviderCallStarted, 0), called);
    TwoCallers(t, j, k);
  }

  // A step of the second kind takes away the record of a request that is open.
  lemma UncalledReleaseSendsTwice(c: Config, stored: Cell, s: Sys, step: Step, j: nat, k: nat)
    requires IsHash(c.intentId) && Reachable(c, stored, s) && ReleasesUncalled(c, s, step)
    requires j in s.attempts && Live(s.attempts[j]) && step.id != j && k !in s.attempts
    ensures exists t :: Reachable(c, stored, t) && !AtMostOneLive(t)
  {
    hide Reachable;
    Reach(c, stored, s, step);
    LaunchBeside(c, stored, Next(c, s, step), j, k);
  }

  // Such runs exist for every two attempts with one owner id, without any reload: i claims the intent, j takes
  // its stale claim over and calls the wallet, and i, whose validation has failed with a rejection code,
  // releases the record.
  lemma SharedOwnerSendsTwiceWithoutReload(c: Config, i: nat, j: nat)
    requires IsHash(c.intentId) && 30_000 <= c.leaseMs <= 300_000 && i != j && c.owner(i) == c.owner(j)
    ensures exists s, step ::
      Reachable(c, None, s) && ReleasesUncalled(c, s, step) && step.id == i && j in s.attempts && Live(s.attempts[j])
    ensures exists t :: Reachable(c, None, t) && !AtMostOneLive(t)
  {
    hide Reachable;
    var later := c.leaseMs + 1;
    var failed := claimed.(pc := Releasing(true));
    InitialIsReachable(c, None);
    Reach(c, None, Initially(None), Start(i, 0));
    var first := Next(c, Initially(None), Start(i, 0));
    assert first == Put(Initially(None), i, CellOf(c, i, Prepared, 0), claimed);
    Reach(c, None, first, CheckFails(i, true));
    var waiting := Put(Initially(None), i, CellOf(c, i, Prepared, 0), failed);
    assert Next(c, first, CheckFails(i, true)) == waiting by { assert first.attempts[i := failed] == waiting.attempts; }
    TakenOver(c, None, i, j, later, waiting);
    LaunchClaimed(c, None, waiting, j, later);
    var s := Put(waiting, j, CellOf(c, j, ProviderCallStarted, later), called);
    WrittenIsReadBack(RecordOf(c, j, ProviderCallStarted, later));
    assert ReleasesUncalled(c, s, Proceed(i, 0));
    UncalledReleaseSendsTwice(c, None, s, Proceed(i, 0), j, i + j + 1);
  }

  lemma TakenOver(c: Config, stored: Cell, i: nat, j: nat, later: int, s: Sys)
    requires IsHash(c.intentId) && 0 <= c.leaseMs < later && IsSafeInteger(later)
    requires Reachable(c, stored, s) && s.cell == CellOf(c, i, Prepared, 0) && j !in s.attempts
    ensures Reachable(c, stored, Put(s, j, CellOf(c, j, Prepared, later), claimed))
  {
    WrittenIsReadBack(RecordOf(c, i, Prepared, 0));
    Reach(c, stored, s, Start(j, later));
  }
}
