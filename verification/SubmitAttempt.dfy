// apps/web/v4/proof-transaction-acceptance.js: the attempt object that a submission updates in place, from
// one await to the next.

module SubmitAttempt {
  import opened Results
  import opened Text
  import opened SendCoordinator
  import opened SendProtocol

  class AttemptObject {
    var pc: Pc
    var state: State
    var status: Status
    var transactionHash: Option<string>
    var providerInvoked: bool
    var call: Call
    var late: Late

    // acquireSendAttempt
    constructor ()
      ensures Value() == claimed
    {
      pc, state, status, transactionHash := Checking, Prepared, Validating, None;
      providerInvoked, call, late := false, NotCalled, Waiting;
    }

    function Value(): Attempt
      reads this
    {
      Attempt(pc, state, status, transactionHash, providerInvoked, call, late)
    }

    // The outer catch up to its first await.
    method OnError(userRejected: bool)
      modifies this
      ensures Value() == Caught(old(Value()), userRejected)
    {
      if !providerInvoked || userRejected {
        if providerInvoked && userRejected {
          state := Rejected;
          status := UserRejected;
          pc := RecordingRejection;
          return;
        }
        pc := Releasing(userRejected);
        return;
      }
      state := ReconciliationRequired;
      status := Reconciling;
      pc := RecordingReconciliation;
    }

    method RecordHash(hash: string)
      modifies this
      ensures Value() == HashKnown(old(Value()), hash)
    {
      transactionHash := Some(hash);
      state := TxHashKnown;
      status := Pending;
    }

    // What follows the race with the timeout.
    method OnResponse(answer: Answer)
      modifies this
      ensures Value() == Received(old(Value()), answer)
    {
      match answer {
        case WalletRejection => OnError(true);
        case OtherError => OnError(false);
        case Fulfilled(text) =>
          var hash := Lower(text);
          if !IsHash(hash) {
            OnError(false);
            return;
          }
          RecordHash(hash);
          pc := RecordingHash;
      }
    }

    // The handler of a late response up to its first await.
    method OnLateResponse()
      requires call.Answered?
      modifies this
      ensures Value() == LateHandler(old(Value()))
    {
      if pc.Crashed? { return; }
      if state != ReconciliationRequired || !call.answer.Fulfilled? {
        late := LateDone;
        return;
      }
      var lateHash := Lower(call.answer.text);
      if !IsHash(lateHash) {
        late := LateDone;
        return;
      }
      RecordHash(lateHash);
      late := RecordingLate(lateHash);
    }

    // The code behind an await, up to the next one; good says that the locked operation did not throw.
    method Continue(good: bool)
      modifies this
      ensures Value() == Resume(old(Value()), good)
    {
      match pc {
        case Checking =>
          state := WalletRequestPending;
          status := RequestPending;
          pc := RecordingRequest;
        case RecordingRequest =>
          if good { pc := NotifyingRequest; } else { OnError(false); }
        case NotifyingRequest =>
          pc := RecordingStart;
        case RecordingStart =>
          if good { pc := Calling; } else { OnError(false); }
        case Calling =>
          state := ProviderCallStarted;
          status := Reconciling;
          providerInvoked := true;
          call := Outstanding;
          pc := NotifyingStart;
        case NotifyingStart =>
          pc := Racing;
        case Racing =>
          if call.Answered? { OnResponse(call.answer); }
        case RecordingHash =>
          if good { pc := NotifyingHash; } else { OnError(false); }
        case NotifyingHash =>
          pc := Returned;
        case RecordingRejection =>
          pc := if good then NotifyingRejection else Threw;
        case NotifyingRejection =>
          pc := Releasing(true);
        case Releasing(_) =>
          if !good {
            pc := Threw;
            return;
          }
          state := Rejected;
          status := Released;
          transactionHash := None;
          pc := NotifyingRelease;
        case NotifyingRelease =>
          pc := Threw;
        case RecordingReconciliation =>
          pc := if good then NotifyingReconciliation else Threw;
        case NotifyingReconciliation =>
          pc := Threw;
        case Returned =>
        case Threw =>
        case Crashed =>
      }
    }
  }
}
