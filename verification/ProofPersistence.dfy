// What the browser persists about a publication (apps/web/v4/proof-persistence.js) and why every
// attempt snapshot that the submit path emits passes its guards.

module ProofPersistence {
  import opened Results
  import opened Text
  import opened SendCoordinator
  import Protocol = SendProtocol

  const WEB_PROOF_STATES := {
    "unavailable", "report-unverified", "ready", "incomplete-warning", "wallet-not-connected",
    "wrong-network", "preflight-checking", "preflight-failed", "ready-to-publish", "reconciling",
    "user-rejected", "cancelled", "timeout", "wallet-request-pending", "reconciliation-required",
    "pending", "confirmed", "reverted", "receipt-invalid", "already-published"}

  datatype Source = WalletSubmission | ProviderVerified

  // The fields that the guards look at. hasReceipt: a receipt summary is given.
  datatype Save = Save(
    status: string, intentId: Option<string>, publicationState: Option<State>,
    transactionHash: Option<string>, source: Option<Source>, hasReceipt: bool)

  function InferredPublicationState(status: string): Option<State> {
    if status == "wallet-request-pending" then Some(WalletRequestPending)
    else if status == "pending" then Some(TxHashKnown)
    else if status == "reconciliation-required" then Some(ReconciliationRequired)
    else if status == "confirmed" || status == "already-published" then Some(Confirmed)
    else if status == "user-rejected" then Some(Rejected)
    else None
  }

  // An absent or empty string is falsy.
  predicate Truthy(s: Option<string>) {
    s.Some? && s.value != ""
  }

  // The guards of saveWebProofState. receiptMatches is the outcome of verifiedReceiptMatches.
  predicate Accepts(q: Save, receiptMatches: bool) {
    && q.status in WEB_PROOF_STATES
    && (q.transactionHash.Some? ==> IsHash(Lower(q.transactionHash.value)))
    && (q.intentId.Some? ==> IsHash(q.intentId.value))
    && (q.status == "pending" ==>
          && q.source == Some(WalletSubmission) && Truthy(q.intentId) && Truthy(q.transactionHash) && !q.hasReceipt
          && q.publicationState == Some(TxHashKnown))
    && (q.status == "wallet-request-pending" ==>
          && q.publicationState == Some(WalletRequestPending) && q.source == Some(WalletSubmission)
          && Truthy(q.intentId) && q.transactionHash.None? && !q.hasReceipt)
    && (q.status == "reconciliation-required" ==>
          && q.source == Some(WalletSubmission) && Truthy(q.intentId) && !q.hasReceipt
          && (q.publicationState == Some(ProviderCallStarted) || q.publicationState == Some(ReconciliationRequired)))
    && (q.status == "confirmed" || q.status == "already-published" ==>
          q.source == Some(ProviderVerified) && Truthy(q.transactionHash) && receiptMatches)
  }

  // The guards of loadWebProofState on what is stored.
  predicate LoadAccepts(q: Save, receiptMatches: bool) {
    && (q.status == "pending" || q.status == "wallet-request-pending" || q.status == "reconciliation-required" ==>
          q.source == Some(WalletSubmission) && q.intentId.Some? && IsHash(q.intentId.value))
    && (q.status == "confirmed" || q.status == "already-published" ==>
          q.source == Some(ProviderVerified) && receiptMatches)
  }

  // What is saved can be loaded.
  lemma SavedIsLoaded(q: Save, receiptMatches: bool)
    requires Accepts(q, receiptMatches)
    ensures LoadAccepts(q, receiptMatches)
  {}

  // A proof counts as published only with the receipt that a provider has verified, neither saved nor loaded
  // without it, and exactly then if the hashes are well formed.
  lemma PublishedExactlyWhenVerified(q: Save, receiptMatches: bool)
    requires q.status in {"confirmed", "already-published"}
    requires q.transactionHash.Some? ==> IsHash(Lower(q.transactionHash.value))
    requires q.intentId.Some? ==> IsHash(q.intentId.value)
    ensures Accepts(q, receiptMatches)
        <==> receiptMatches && q.source == Some(ProviderVerified) && q.transactionHash.Some?
    ensures LoadAccepts(q, receiptMatches) ==> receiptMatches && q.source == Some(ProviderVerified)
  {}

  // The wallet attempts that may be saved: the wallet was asked under this intent and no receipt exists, and the
  // state of the record fits the status. A hash belongs to a pending one and not to one that was not yet sent.
  lemma AttemptsSavedExactly(q: Save, receiptMatches: bool)
    requires q.status in {"pending", "wallet-request-pending", "reconciliation-required"}
    ensures Accepts(q, receiptMatches) <==>
      && q.source == Some(WalletSubmission) && !q.hasReceipt && q.intentId.Some? && IsHash(q.intentId.value)
      && q.publicationState.Some?
      && (q.status, q.publicationState.value) in {
           ("pending", TxHashKnown), ("wallet-request-pending", WalletRequestPending),
           ("reconciliation-required", ProviderCallStarted), ("reconciliation-required", ReconciliationRequired)}
      && (q.transactionHash.Some? ==> q.status != "wallet-request-pending" && IsHash(Lower(q.transactionHash.value)))
      && (q.status == "pending" ==> q.transactionHash.Some?)
  {}

  // The state that is inferred when none is given passes for every such attempt.
  lemma InferredStatePasses(q: Save, receiptMatches: bool)
    requires q.status in {"pending", "wallet-request-pending", "reconciliation-required"}
    requires q.publicationState == InferredPublicationState(q.status)
    ensures Accepts(q, receiptMatches) <==>
      && q.source == Some(WalletSubmission) && !q.hasReceipt && q.intentId.Some? && IsHash(q.intentId.value)
      && (q.transactionHash.Some? ==> q.status != "wallet-request-pending" && IsHash(Lower(q.transactionHash.value)))
      && (q.status == "pending" ==> q.transactionHash.Some?)
  {}

  // Nothing is saved under another status, or with a hash or an intent that is malformed.
  lemma MalformedIsRefused(q: Save, receiptMatches: bool)
    requires q.status !in WEB_PROOF_STATES || (q.transactionHash.Some? && !IsHash(Lower(q.transactionHash.value)))
      || (q.intentId.Some? && !IsHash(q.intentId.value))
    ensures !Accepts(q, receiptMatches)
  {}

  // What the callback of apps/web/v4/ui.js saves for a snapshot; None when it saves no wallet attempt.
  function Snapshot(c: Protocol.Config, a: Protocol.Attempt): Option<Save> {
    match a.status
    case Pending =>
      Some(Save("pending", Some(c.intentId), Some(a.state), a.transactionHash, Some(WalletSubmission), false))
    case RequestPending =>
      Some(Save("wallet-request-pending", Some(c.intentId), Some(a.state), None, Some(WalletSubmission), false))
    case Reconciling =>
      Some(Save("reconciliation-required", Some(c.intentId), Some(a.state), a.transactionHash,
                Some(WalletSubmission), false))
    case _ => None
  }

  // Status, coordinator state and hash of an attempt agree at every await.
  predicate Agrees(a: Protocol.Attempt) {
    && (a.transactionHash.Some? ==> IsHash(a.transactionHash.value))
    && (Protocol.BeforeCall(a.pc) ==> a.transactionHash.None? && a.call.NotCalled?)
    && (a.status.RequestPending? ==> a.state.WalletRequestPending? && a.transactionHash.None?)
    && (a.status.Pending? ==> a.state.TxHashKnown? && a.transactionHash.Some?)
    && (a.status.Reconciling? ==> a.state.ProviderCallStarted? || a.state.ReconciliationRequired?)
    && (a.pc.RecordingHash? || a.pc.NotifyingHash? || a.pc.Returned? ==> a.status.Pending?)
  }

  lemma StepKeepsAgreementOf(c: Protocol.Config, s: Protocol.Sys, step: Protocol.Step, id: nat)
    requires id in s.attempts ==> Agrees(s.attempts[id])
    requires id in Protocol.Next(c, s, step).attempts
    ensures Agrees(Protocol.Next(c, s, step).attempts[id])
  {
    Protocol.StepsEvolve(c, s, step, id);
    if id in s.attempts {
      EvolvingKeepsAgreement(s.attempts[id], Protocol.Next(c, s, step).attempts[id], Protocol.Forges(c, s, step));
    }
  }

  lemma ResumingKeepsAgreement(a: Protocol.Attempt, good: bool)
    requires Agrees(a)
    ensures Agrees(Protocol.Resume(a, good))
  {
  }

  lemma EvolvingKeepsAgreement(a: Protocol.Attempt, b: Protocol.Attempt, forged: bool)
    requires Agrees(a) && Protocol.Evolves(a, b, forged)
    ensures Agrees(b)
  {
    hide Protocol.Resume, Protocol.CallbackFails, Protocol.LateHandler;
    ResumingKeepsAgreement(a, true);
    ResumingKeepsAgreement(a, false);
    CallbacksKeepAgreement(a, true);
    CallbacksKeepAgreement(a, false);
    if a.call.Outstanding? && b.call.Answered? {
      AnswersKeepAgreement(a, b.call);
    }
  }

  lemma CallbacksKeepAgreement(a: Protocol.Attempt, rejectionCode: bool)
    requires Agrees(a)
    ensures Agrees(Protocol.CallbackFails(a, rejectionCode))
  {}

  lemma AnswersKeepAgreement(a: Protocol.Attempt, call: Protocol.Call)
    requires Agrees(a) && a.call.Outstanding? && call.Answered?
    ensures Agrees(Protocol.LateHandler(a.(call := call)))
  {}

  lemma {:induction false} EveryRunAgrees(c: Protocol.Config, stored: Cell, steps: seq<Protocol.Step>)
    ensures forall id | id in Protocol.Run(c, stored, steps).attempts ::
      Agrees(Protocol.Run(c, stored, steps).attempts[id])
  {
    if steps != [] {
      var before := Protocol.Run(c, stored, steps[..|steps| - 1]);
      EveryRunAgrees(c, stored, steps[..|steps| - 1]);
      forall id | id in Protocol.Run(c, stored, steps).attempts
        ensures Agrees(Protocol.Run(c, stored, steps).attempts[id])
      {
        StepKeepsAgreementOf(c, before, steps[|steps| - 1], id);
      }
    }
  }

  // In every run, whoever shares owner ids and however answers race with the catch blocks: a snapshot
  // taken at any moment is accepted by the save guards, and by the load guards after that.
  lemma SnapshotsArePersistable(c: Protocol.Config, stored: Cell, steps: seq<Protocol.Step>, id: nat)
    requires IsHash(c.intentId) && id in Protocol.Run(c, stored, steps).attempts
    ensures var q := Snapshot(c, Protocol.Run(c, stored, steps).attempts[id]);
      q.Some? ==> Accepts(q.value, false) && LoadAccepts(q.value, false)
  {
    EveryRunAgrees(c, stored, steps);
    var a := Protocol.Run(c, stored, steps).attempts[id];
    if a.transactionHash.Some? {
      LowerKeepsHash(a.transactionHash.value);
    }
  }

  // So is the save that follows a successful submit, whose publication state is inferred.
  lemma ReturnedAttemptsArePersistable(c: Protocol.Config, stored: Cell, steps: seq<Protocol.Step>, id: nat)
    requires IsHash(c.intentId) && id in Protocol.Run(c, stored, steps).attempts
    requires Protocol.Run(c, stored, steps).attempts[id].pc.Returned?
    ensures Accepts(Save("pending", Some(c.intentId), InferredPublicationState("pending"),
                         Protocol.Run(c, stored, steps).attempts[id].transactionHash, Some(WalletSubmission),
                         false), false)
  {
    EveryRunAgrees(c, stored, steps);
    LowerKeepsHash(Protocol.Run(c, stored, steps).attempts[id].transactionHash.value);
  }
}
