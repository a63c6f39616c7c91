// The shared publication record of one intent and the locked operations on it
// (apps/web/v4/proof-send-coordinator.js). Every operation runs inside an exclusive lock, so it is
// one atomic change of the stored value. The functions say what each operation does to the stored
// value; the class performs it on shared storage.

module SendCoordinator {
  import opened Results
  import opened Text

  datatype State =
    | Prepared
    | WalletRequestPending
    | ProviderCallStarted
    | TxHashKnown
    | ReconciliationRequired
    | Confirmed
    | Rejected

  datatype Record = Record(
    intentId: string, ownerId: string, state: State, transactionHash: Option<string>,
    createdAt: int, updatedAt: int)

  // What the storage may hold: text that is not JSON, or an object of any version whose fields may be
  // missing (None) or hold anything. A null transactionHash is None; any other value is its text.
  datatype Stored =
    | Corrupt
    | Json(version: Option<int>, intentId: Option<string>, ownerId: Option<string>,
           state: Option<string>, status: Option<string>, transactionHash: Option<string>,
           createdAt: Option<int>, updatedAt: Option<int>)

  type Cell = Option<Stored>

  const MAX_SAFE_INTEGER := 9007199254740991

  predicate IsSafeInteger(n: int) {
    -MAX_SAFE_INTEGER <= n <= MAX_SAFE_INTEGER
  }

  function StateName(state: State): string {
    match state
    case Prepared => "PREPARED"
    case WalletRequestPending => "WALLET_REQUEST_PENDING"
    case ProviderCallStarted => "PROVIDER_CALL_STARTED"
    case TxHashKnown => "TX_HASH_KNOWN"
    case ReconciliationRequired => "RECONCILIATION_REQUIRED"
    case Confirmed => "CONFIRMED"
    case Rejected => "REJECTED"
  }

  function StateOf(name: string): Option<State> {
    if name == "PREPARED" then Some(Prepared)
    else if name == "WALLET_REQUEST_PENDING" then Some(WalletRequestPending)
    else if name == "PROVIDER_CALL_STARTED" then Some(ProviderCallStarted)
    else if name == "TX_HASH_KNOWN" then Some(TxHashKnown)
    else if name == "RECONCILIATION_REQUIRED" then Some(ReconciliationRequired)
    else if name == "CONFIRMED" then Some(Confirmed)
    else if name == "REJECTED" then Some(Rejected)
    else None
  }

  // The status names of version 1 records and the states they are read as.
  function LegacyState(status: string): Option<State> {
    if status == "validating" then Some(Prepared)
    else if status == "wallet-request-pending" then Some(ReconciliationRequired)
    else if status == "pending" then Some(TxHashKnown)
    else if status == "reconciliation-required" then Some(ReconciliationRequired)
    else None
  }

  function Serialize(r: Record): Stored {
    Json(Some(2), Some(r.intentId), Some(r.ownerId), Some(StateName(r.state)), None,
         r.transactionHash, Some(r.createdAt), Some(r.updatedAt))
  }

  // A record that reading accepts.
  predicate Readable(r: Record) {
    && IsSafeInteger(r.createdAt) && IsSafeInteger(r.updatedAt)
    && (r.transactionHash.Some? ==> IsHash(r.transactionHash.value))
    && (r.state == TxHashKnown ==> r.transactionHash.Some?)
  }

  // parseRecord. None is an absent record; Fail is a corrupt or invalid one.
  function Parse(cell: Cell, intentId: string): Outcome<Option<Record>> {
    if cell.None? then Ok(None)
    else if cell.value.Corrupt? then Fail
    else
      var s := cell.value;
      var state :=
        if s.version == Some(1) then (if s.status.Some? then LegacyState(s.status.value) else None)
        else if s.state.Some? then StateOf(s.state.value) else None;
      if s.version != Some(1) && s.version != Some(2) then Fail
      else if s.intentId != Some(intentId) || s.ownerId.None? || s.createdAt.None? || s.updatedAt.None?
        || state.None? then Fail
      else
        var r := Record(intentId, s.ownerId.value, state.value, s.transactionHash, s.createdAt.value,
                        s.updatedAt.value);
        if Readable(r) then Ok(Some(r)) else Fail
  }

  function Written(r: Record): Cell {
    Some(Serialize(r))
  }

  predicate IsStale(r: Record, now: int, leaseMs: int) {
    now - r.updatedAt > leaseMs
  }

  // The wallet cannot have been asked yet.
  predicate BeforeProvider(state: State) {
    state.Prepared? || state.WalletRequestPending?
  }

  predicate Allowed(from: State, to: State) {
    match from
    case Prepared => to.WalletRequestPending?
    case WalletRequestPending => to.ProviderCallStarted? || to.Rejected?
    case ProviderCallStarted => to.TxHashKnown? || to.ReconciliationRequired? || to.Rejected?
    case ReconciliationRequired => to.TxHashKnown? || to.Confirmed? || to.Rejected?
    case TxHashKnown => to.Confirmed? || to.ReconciliationRequired?
    case Confirmed => false
    case Rejected => false
  }

  // The stored value after an operation and what the caller gets.
  datatype Locked<+T> = Locked(cell: Cell, result: Outcome<T>)

  datatype ClaimResult = ClaimResult(acquired: bool, record: Record)

  datatype Recovery =
    | Nothing
    | Retryable
    | ReconcileKnown(known: Record)
    | Reconcile(unknown: Record)
    | AlreadyConfirmed(confirmed: Record)
    | InFlight(flying: Record)

  function ClaimStep(cell: Cell, intentId: string, owner: string, leaseMs: int, now: int): Locked<ClaimResult> {
    if !IsHash(intentId) then Locked(cell, Fail)
    else
      match Parse(cell, intentId)
      case Fail => Locked(cell, Fail)
      case Ok(None) =>
        var created := Record(intentId, owner, Prepared, None, now, now);
        Locked(Written(created), Ok(ClaimResult(true, created)))
      case Ok(Some(existing)) =>
        if existing.state.ProviderCallStarted? && IsStale(existing, now, leaseMs) then
          var record := existing.(state := ReconciliationRequired, updatedAt := now);
          Locked(Written(record), Ok(ClaimResult(false, record)))
        else if BeforeProvider(existing.state) && IsStale(existing, now, leaseMs) then
          var created := Record(intentId, owner, Prepared, None, now, now);
          Locked(Written(created), Ok(ClaimResult(true, created)))
        else Locked(cell, Ok(ClaimResult(false, existing)))
  }

  function TransitionStep(cell: Cell, intentId: string, owner: string, to: State, hash: Option<string>,
                          now: int): Locked<Record> {
    if to.Prepared? || !IsHash(intentId) then Locked(cell, Fail)
    else
      match Parse(cell, intentId)
      case Fail => Locked(cell, Fail)
      case Ok(None) => Locked(cell, Fail)
      case Ok(Some(existing)) =>
        // An empty hash argument is falsy and keeps the recorded hash.
        var normalized :=
          if hash.Some? && hash.value != "" then Some(Lower(hash.value)) else existing.transactionHash;
        if existing.ownerId != owner || !Allowed(existing.state, to) then Locked(cell, Fail)
        else if to.TxHashKnown? && (normalized.None? || !IsHash(normalized.value)) then Locked(cell, Fail)
        else
          var record := existing.(state := to, transactionHash := normalized, updatedAt := now);
          Locked(Written(record), Ok(record))
  }

  function ReleaseStep(cell: Cell, intentId: string, owner: string, walletRejected: bool,
                       providerInvoked: bool): Locked<bool> {
    if !IsHash(intentId) then Locked(cell, Fail)
    else
      match Parse(cell, intentId)
      case Fail => Locked(cell, Fail)
      case Ok(None) => Locked(cell, Ok(false))
      case Ok(Some(existing)) =>
        if existing.ownerId != owner then Locked(cell, Ok(false))
        else if (BeforeProvider(existing.state) && !providerInvoked)
             || (walletRejected && (existing.state.ProviderCallStarted? || existing.state.Rejected?))
        then Locked(None, Ok(true))
        else Locked(cell, Fail)
  }

  function RecoverPreProviderStep(cell: Cell, intentId: string, leaseMs: int, now: int): Locked<bool> {
    if !IsHash(intentId) then Locked(cell, Fail)
    else
      match Parse(cell, intentId)
      case Fail => Locked(cell, Fail)
      case Ok(None) => Locked(cell, Ok(false))
      case Ok(Some(existing)) =>
        if BeforeProvider(existing.state) && IsStale(existing, now, leaseMs) then Locked(None, Ok(true))
        else Locked(cell, Ok(false))
  }

  function RecoverAfterReloadStep(cell: Cell, intentId: string, leaseMs: int, now: int): Locked<Recovery> {
    if !IsHash(intentId) then Locked(cell, Fail)
    else
      match Parse(cell, intentId)
      case Fail => Locked(cell, Fail)
      case Ok(None) => Locked(cell, Ok(Nothing))
      case Ok(Some(existing)) =>
        if existing.state.Rejected? || (BeforeProvider(existing.state) && IsStale(existing, now, leaseMs)) then
          Locked(None, Ok(Retryable))
        else if existing.state.ProviderCallStarted? then
          var record := existing.(state := ReconciliationRequired, updatedAt := now);
          Locked(Written(record), Ok(Reconcile(record)))
        else if existing.state.TxHashKnown? then Locked(cell, Ok(ReconcileKnown(existing)))
        else if existing.state.ReconciliationRequired? then Locked(cell, Ok(Reconcile(existing)))
        else if existing.state.Confirmed? then Locked(cell, Ok(AlreadyConfirmed(existing)))
        else Locked(cell, Ok(InFlight(existing)))
  }

  function ConfirmStep(cell: Cell, intentId: string, transactionHash: string, now: int): Locked<Record> {
    var hash := Lower(transactionHash);
    if !IsHash(hash) || !IsHash(intentId) then Locked(cell, Fail)
    else
      match Parse(cell, intentId)
      case Fail => Locked(cell, Fail)
      case Ok(None) => Locked(cell, Fail)
      case Ok(Some(existing)) =>
        if !existing.state.TxHashKnown? && !existing.state.ReconciliationRequired? then Locked(cell, Fail)
        else if existing.transactionHash.Some? && existing.transactionHash.value != hash then Locked(cell, Fail)
        else
          var record := existing.(state := Confirmed, transactionHash := Some(hash), updatedAt := now);
          Locked(Written(record), Ok(record))
  }

  // The record a later operation will see, if it can read one.
  function Seen(cell: Cell, intentId: string): Option<Record> {
    var parsed := Parse(cell, intentId);
    if parsed.Ok? then parsed.value else None
  }

  // What is written is read back unchanged exactly when it is readable; otherwise every later
  // operation on the intent throws.
  lemma WrittenIsReadBack(r: Record)
    ensures Parse(Written(r), r.intentId) == if Readable(r) then Ok(Some(r)) else Fail
  {
    assert StateOf(StateName(r.state)) == Some(r.state) by {
      match r.state
      case Prepared =>
      case WalletRequestPending =>
      case ProviderCallStarted =>
      case TxHashKnown =>
      case ReconciliationRequired =>
      case Confirmed =>
      case Rejected =>
    }
  }

  // ---- Which operations succeed, by the record that they read ----

  // Nothing keeps another attempt from the intent any more.
  ghost predicate Expired(r: Option<Record>, now: int, leaseMs: int) {
    r.Some? && r.value.state in {Prepared, WalletRequestPending} && now > r.value.updatedAt + leaseMs
  }

  // A claim succeeds exactly on a free intent and over a record that did not reach the wallet within its lease.
  lemma ClaimSucceedsExactly(cell: Cell, intentId: string, owner: string, leaseMs: int, now: int)
    requires IsHash(intentId)
    ensures var claim := ClaimStep(cell, intentId, owner, leaseMs, now);
      if cell == None || Expired(Seen(cell, intentId), now, leaseMs) then
        var created := Record(intentId, owner, Prepared, None, now, now);
        claim == Locked(Written(created), Ok(ClaimResult(true, created)))
      else claim.result.Ok? ==> !claim.result.value.acquired
  {}

  // Otherwise it reports the record, which stays as it is within the lease; behind it, a started wallet call is
  // moved to reconciliation.
  lemma ClaimReportsRecord(cell: Cell, intentId: string, owner: string, leaseMs: int, now: int)
    requires IsHash(intentId) && Seen(cell, intentId).Some? && !Expired(Seen(cell, intentId), now, leaseMs)
    ensures var claim := ClaimStep(cell, intentId, owner, leaseMs, now);
      var r := Seen(cell, intentId).value;
      && (now <= r.updatedAt + leaseMs || r.state != ProviderCallStarted ==>
           claim == Locked(cell, Ok(ClaimResult(false, r))))
      && (now > r.updatedAt + leaseMs && r.state == ProviderCallStarted ==>
           var moved := r.(state := ReconciliationRequired, updatedAt := now);
           claim == Locked(Written(moved), Ok(ClaimResult(false, moved))))
  {}

  // Both recoveries free the intent of an expired record; the one after a reload frees it of a rejected one, too.
  lemma RecoveriesFreeExactly(cell: Cell, intentId: string, leaseMs: int, now: int)
    requires IsHash(intentId) && Seen(cell, intentId).Some?
    ensures var r := Seen(cell, intentId);
      && RecoverPreProviderStep(cell, intentId, leaseMs, now)
         == (if Expired(r, now, leaseMs) then Locked(None, Ok(true)) else Locked(cell, Ok(false)))
      && var reload := RecoverAfterReloadStep(cell, intentId, leaseMs, now);
      && (reload.cell == None <==> Expired(r, now, leaseMs) || r.value.state == Rejected)
      && (reload.result == Ok(Retryable) <==> reload.cell == None)
  {}

  // A reload that does not free the intent says what is to be done, and nothing that reached the wallet is lost.
  lemma ReloadKeepsRecord(cell: Cell, intentId: string, leaseMs: int, now: int)
    requires IsHash(intentId) && Seen(cell, intentId).Some?
    requires !Expired(Seen(cell, intentId), now, leaseMs) && Seen(cell, intentId).value.state != Rejected
    ensures var r := Seen(cell, intentId).value;
      var moved := if r.state == ProviderCallStarted then r.(state := ReconciliationRequired, updatedAt := now) else r;
      var reload := RecoverAfterReloadStep(cell, intentId, leaseMs, now);
      && reload.cell == (if moved == r then cell else Written(moved))
      && (r.state in {Prepared, WalletRequestPending} ==> reload.result == Ok(InFlight(r)))
      && (r.state in {ProviderCallStarted, ReconciliationRequired} ==> reload.result == Ok(Reconcile(moved)))
      && (r.state == TxHashKnown ==> reload.result == Ok(ReconcileKnown(r)))
      && (r.state == Confirmed ==> reload.result == Ok(AlreadyConfirmed(r)))
  {}

  const EDGES := {
    (Prepared, WalletRequestPending),
    (WalletRequestPending, ProviderCallStarted), (WalletRequestPending, Rejected),
    (ProviderCallStarted, TxHashKnown), (ProviderCallStarted, ReconciliationRequired), (ProviderCallStarted, Rejected),
    (ReconciliationRequired, TxHashKnown), (ReconciliationRequired, Confirmed), (ReconciliationRequired, Rejected),
    (TxHashKnown, Confirmed), (TxHashKnown, ReconciliationRequired)}

  // Only the owner moves a record, only along these edges, and to TX_HASH_KNOWN only with a hash.
  lemma TransitionsSucceedExactly(cell: Cell, intentId: string, owner: string, to: State, hash: Option<string>,
                                  now: int)
    requires IsHash(intentId)
    ensures var step := TransitionStep(cell, intentId, owner, to, hash, now);
      var r := Seen(cell, intentId);
      var given := if hash == None || hash == Some("") then None else Some(Lower(hash.value));
      && (step.result.Ok? <==>
           && r.Some? && r.value.ownerId == owner && (r.value.state, to) in EDGES
           && (to == TxHashKnown ==>
                (if given.Some? then IsHash(given.value) else r.value.transactionHash.Some?)))
      && (step.result.Fail? ==> step.cell == cell)
      && (step.result.Ok? ==>
           && step.cell == Written(step.result.value)
           && step.result.value == Record(intentId, owner, to, if given.Some? then given else r.value.transactionHash,
                                          r.value.createdAt, now))
  {
    assert forall from: State :: Allowed(from, to) <==> (from, to) in EDGES;
  }

  // The owner alone frees a record, and only if the wallet was not called or has refused.
  lemma ReleasesSucceedExactly(cell: Cell, intentId: string, owner: string, walletRejected: bool, invoked: bool)
    requires IsHash(intentId)
    ensures var step := ReleaseStep(cell, intentId, owner, walletRejected, invoked);
      var r := Seen(cell, intentId);
      && (step.result == Ok(true) <==>
           && r.Some? && r.value.ownerId == owner
           && ((!invoked && r.value.state in {Prepared, WalletRequestPending})
             || (walletRejected && r.value.state in {ProviderCallStarted, Rejected})))
      && (step.result == Ok(false) <==> cell == None || (r.Some? && r.value.ownerId != owner))
      && step.cell == if step.result == Ok(true) then None else cell
  {}

  // A confirmation needs a transaction hash and a record that waits for it, with this hash or with none.
  lemma ConfirmationsSucceedExactly(cell: Cell, intentId: string, text: string, now: int)
    requires IsHash(intentId)
    ensures var step := ConfirmStep(cell, intentId, text, now);
      var r := Seen(cell, intentId);
      && (step.result.Ok? <==>
           && IsHash(Lower(text)) && r.Some? && r.value.state in {TxHashKnown, ReconciliationRequired}
           && r.value.transactionHash in {None, Some(Lower(text))})
      && (step.result.Fail? ==> step.cell == cell)
      && (step.result.Ok? ==>
           && step.cell == Written(step.result.value)
           && step.result.value == r.value.(state := Confirmed, transactionHash := Some(Lower(text)),
                                            updatedAt := now))
  {}

  // A value of the present version is read exactly if it is what writing a readable record of the intent leaves; a
  // status beside it does not matter.
  lemma ReadsExactlyWhatIsWritten(s: Stored, intentId: string, r: Record)
    requires s.Json? && s.version == Some(2)
    ensures Parse(Some(s), intentId) == Ok(Some(r))
        <==> s.(status := None) == Serialize(r) && r.intentId == intentId && Readable(r)
    ensures !(exists q: Record :: q.intentId == intentId && Readable(q) && s.(status := None) == Serialize(q)) ==>
      Parse(Some(s), intentId).Fail?
  {
    WrittenIsReadBack(r);
    var read := Parse(Some(s), intentId);
    if read.Ok? {
      assert read.value.Some?;
      NamesAreRead(s.state.value);
      assert s.(status := None) == Serialize(read.value.value);
    }
  }

  lemma NamesAreRead(name: string)
    ensures StateOf(name).Some? ==> StateName(StateOf(name).value) == name
  {}

  // A value of version 1 is read as one of the present version with the corresponding state.
  lemma LegacyIsRead(s: Stored, intentId: string)
    requires s.Json? && s.version == Some(1) && s.status.Some?
    ensures var read := Parse(Some(s), intentId);
      && (s.status == Some("validating") ==> read == Parse(Some(Upgraded(s, "PREPARED")), intentId))
      && (s.status == Some("pending") ==> read == Parse(Some(Upgraded(s, "TX_HASH_KNOWN")), intentId))
      && (s.status.value in {"wallet-request-pending", "reconciliation-required"} ==>
           read == Parse(Some(Upgraded(s, "RECONCILIATION_REQUIRED")), intentId))
      && (s.status.value !in {"validating", "pending", "wallet-request-pending", "reconciliation-required"} ==>
           read.Fail?)
  {}

  // No other version is read.
  lemma OtherVersionsAreRefused(s: Stored, intentId: string)
    requires s.Corrupt? || s.version !in {Some(1), Some(2)}
    ensures Parse(Some(s), intentId).Fail?
  {}

  function Upgraded(s: Stored, state: string): Stored
    requires s.Json?
  {
    s.(version := Some(2), status := None, state := Some(state))
  }

  // ---- The operations on shared storage ----

  const PREFIX := "veilforge:v4:proof-send-intent:v1:"

  function Key(intentId: string): string {
    PREFIX + intentId
  }

  class Storage {
    var items: map<string, Stored>

    constructor ()
      ensures items == map[]
    {
      items := map[];
    }

    function Get(key: string): Cell
      reads this
    {
      if key in items then Some(items[key]) else None
    }

    method SetItem(key: string, value: Stored)
      modifies this
      ensures items == old(items)[key := value]
    {
      items := items[key := value];
    }

    method RemoveItem(key: string)
      modifies this
      ensures items == old(items) - {key}
    {
      items := items - {key};
    }
  }

  // The whole storage after a step on one key.
  function Replaced(items: map<string, Stored>, key: string, cell: Cell): map<string, Stored> {
    if cell.Some? then items[key := cell.value] else items - {key}
  }

  class Coordinator {
    const storage: Storage
    const ownerId: string
    const leaseMs: int

    constructor (storage: Storage, ownerId: string, leaseMs: int)
      requires 30_000 <= leaseMs <= 300_000
      ensures this.storage == storage && this.ownerId == ownerId && this.leaseMs == leaseMs
    {
      this.storage := storage;
      this.ownerId := ownerId;
      this.leaseMs := leaseMs;
    }

    method Claim(intentId: string, now: int) returns (r: Outcome<ClaimResult>)
      modifies storage
      ensures var step := ClaimStep(old(storage.Get(Key(intentId))), intentId, ownerId, leaseMs, now);
        r == step.result && storage.items == Replaced(old(storage.items), Key(intentId), step.cell)
    {
      if !IsHash(intentId) { return Fail; }
      var parsed := Parse(storage.Get(Key(intentId)), intentId);
      if parsed.Fail? { return Fail; }
      if parsed.value.Some? {
        var existing := parsed.value.value;
        if existing.state.ProviderCallStarted? && IsStale(existing, now, leaseMs) {
          var record := existing.(state := ReconciliationRequired, updatedAt := now);
          storage.SetItem(Key(intentId), Serialize(record));
          return Ok(ClaimResult(false, record));
        }
        var recoverable := BeforeProvider(existing.state) && IsStale(existing, now, leaseMs);
        if !recoverable { return Ok(ClaimResult(false, existing)); }
      }
      var record := Record(intentId, ownerId, Prepared, None, now, now);
      storage.SetItem(Key(intentId), Serialize(record));
      return Ok(ClaimResult(true, record));
    }

    method Transition(intentId: string, state: State, transactionHash: Option<string>, now: int)
        returns (r: Outcome<Record>)
      modifies storage
      ensures var step := TransitionStep(old(storage.Get(Key(intentId))), intentId, ownerId, state, transactionHash,
                                         now);
        r == step.result && storage.items == Replaced(old(storage.items), Key(intentId), step.cell)
    {
      if state.Prepared? || !IsHash(intentId) { return Fail; }
      var parsed := Parse(storage.Get(Key(intentId)), intentId);
      if parsed.Fail? || parsed.value.None? || parsed.value.value.ownerId != ownerId { return Fail; }
      var existing := parsed.value.value;
      if !Allowed(existing.state, state) { return Fail; }
      var normalized := existing.transactionHash;
      if transactionHash.Some? && transactionHash.value != "" {
        normalized := Some(Lower(transactionHash.value));
      }
      if state.TxHashKnown? && (normalized.None? || !IsHash(normalized.value)) { return Fail; }
      var record := existing.(state := state, transactionHash := normalized, updatedAt := now);
      storage.SetItem(Key(intentId), Serialize(record));
      return Ok(record);
    }

    method ReleaseBeforeRetry(intentId: string, walletRejected: bool, providerInvoked: bool) returns (r: Outcome<bool>)
      modifies storage
      ensures var step := ReleaseStep(old(storage.Get(Key(intentId))), intentId, ownerId, walletRejected,
                                      providerInvoked);
        r == step.result && storage.items == Replaced(old(storage.items), Key(intentId), step.cell)
    {
      if !IsHash(intentId) { return Fail; }
      var parsed := Parse(storage.Get(Key(intentId)), intentId);
      if parsed.Fail? { return Fail; }
      if parsed.value.None? || parsed.value.value.ownerId != ownerId { return Ok(false); }
      var existing := parsed.value.value;
      var safeBeforeProvider := BeforeProvider(existing.state) && !providerInvoked;
      var explicitRejection := walletRejected && (existing.state.ProviderCallStarted? || existing.state.Rejected?);
      if !safeBeforeProvider && !explicitRejection { return Fail; }
      storage.RemoveItem(Key(intentId));
      return Ok(true);
    }

    method RecoverPreProvider(intentId: string, now: int) returns (r: Outcome<bool>)
      modifies storage
      ensures var step := RecoverPreProviderStep(old(storage.Get(Key(intentId))), intentId, leaseMs, now);
        r == step.result && storage.items == Replaced(old(storage.items), Key(intentId), step.cell)
    {
      if !IsHash(intentId) { return Fail; }
      var parsed := Parse(storage.Get(Key(intentId)), intentId);
      if parsed.Fail? { return Fail; }
      if parsed.value.None? || !BeforeProvider(parsed.value.value.state) || !IsStale(parsed.value.value, now, leaseMs) {
        return Ok(false);
      }
      storage.RemoveItem(Key(intentId));
      return Ok(true);
    }

    method RecoverAfterReload(intentId: string, now: int) returns (r: Outcome<Recovery>)
      modifies storage
      ensures var step := RecoverAfterReloadStep(old(storage.Get(Key(intentId))), intentId, leaseMs, now);
        r == step.result && storage.items == Replaced(old(storage.items), Key(intentId), step.cell)
    {
      if !IsHash(intentId) { return Fail; }
      var parsed := Parse(storage.Get(Key(intentId)), intentId);
      if parsed.Fail? { return Fail; }
      if parsed.value.None? { return Ok(Nothing); }
      var existing := parsed.value.value;
      if existing.state.Rejected? || (BeforeProvider(existing.state) && IsStale(existing, now, leaseMs)) {
        storage.RemoveItem(Key(intentId));
        return Ok(Retryable);
      }
      if existing.state.ProviderCallStarted? {
        var record := existing.(state := ReconciliationRequired, updatedAt := now);
        storage.SetItem(Key(intentId), Serialize(record));
        return Ok(Reconcile(record));
      }
      match existing.state {
        case TxHashKnown => return Ok(ReconcileKnown(existing));
        case ReconciliationRequired => return Ok(Reconcile(existing));
        case Confirmed => return Ok(AlreadyConfirmed(existing));
        case _ => return Ok(InFlight(existing));
      }
    }

    method Confirm(intentId: string, transactionHash: string, now: int) returns (r: Outcome<Record>)
      modifies storage
      ensures var step := ConfirmStep(old(storage.Get(Key(intentId))), intentId, transactionHash, now);
        r == step.result && storage.items == Replaced(old(storage.items), Key(intentId), step.cell)
    {
      var hash := Lower(transactionHash);
      if !IsHash(hash) || !IsHash(intentId) { return Fail; }
      var parsed := Parse(storage.Get(Key(intentId)), intentId);
      if parsed.Fail? || parsed.value.None? { return Fail; }
      var existing := parsed.value.value;
      if !existing.state.TxHashKnown? && !existing.state.ReconciliationRequired? { return Fail; }
      if existing.transactionHash.Some? && existing.transactionHash.value != hash { return Fail; }
      var record := existing.(state := Confirmed, transactionHash := Some(hash), updatedAt := now);
      storage.SetItem(Key(intentId), Serialize(record));
      return Ok(record);
    }
  }
}
