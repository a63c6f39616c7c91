# VeilForge verification project

A Dafny 4.11 model of the parts of VeilForge on which its guarantees rest, with proofs of what they promise.
`dafny verify dfyconfig.toml` checks the whole project. Each part of the system is a module or a few:

- **Publishing a proof at most once.** Any number of browser tabs share one stored record per publication
  intent and change it only under a lock. `SendCoordinator` holds the locked operations (as step functions on
  the stored value, and as the methods of the coordinator that carry them out), `SubmitAttempt` the attempt
  object that a submission updates from one await to the next, `SendProtocol` all interleavings of attempts,
  wallet answers, timeouts, callbacks, failing locks and storage, crashes, reloads and confirmations with an
  arbitrary clock and from any stored value, `SendOutcomes` how submissions end, `SendRuns` what a single run
  must not do, `SendHashes` what becomes of recorded transaction hashes, and `ProofPersistence` the guards of the
  saved page state.
- **ABI codecs.** `AbiSpec` is the "Formal Specification of the Encoding" of the Solidity Contract ABI
  Specification for the types in use; `RegistryCalldata` and `RegistryRecord` are the encoder and the two
  decoders, over `Hex`, `Utf8`, `AbiString` and `Text`.
- **Canonical JSON.** `CanonicalJson` prints JSON values over UTF-16 code units, with strings escaped as in
  section 7 of RFC 8259; `SortedFields` sorts object members, and `JsonText` says which texts come out, character
  by character.
- **Digests.** `KeccakSpec` and `KeccakOffsets` state Keccak as FIPS 202 does (sections 3.2, 3.3, 4 and 5.1),
  `Keccak` and `KeccakSponge` are the implementation on BigInt lanes. `Sha256Constants` and `Sha256Spec` state
  SHA-256 as FIPS 180-4 does (sections 4.1.2, 4.2.2, 5.1.1, 5.3.3 and 6.2.2), `Sha256` is the implementation
  on JavaScript numbers.
- **Reading Solidity.** `CommentMask` is the comment masking and `CommentTokens` the grammar of comments and
  string literals, `Segments` the bracket matching and the segment scan, `ContractPattern` the regular expression
  for contract headers, `Contracts` the contract loop and its reading of string literals.
- **ZIP archives.** `Crc32`, `ZipFormat`, `ZipWriter` and `Unzip` are the program. `ZipLayout` says what stands at
  which byte of an archive, by sections 4.3.7, 4.3.12 and 4.3.16 of APPNOTE.TXT; `ZipRecords` shows that of the
  written archives, `ZipReading` what is read from any archive, `ZipPaths` what becomes of names, and
  `ZipRoundTrip` joins both.
- **Worker lifecycle.** `WorkerClient` and `WorkerRuntime` are the two ends, `WorkerLifecycle` joins them by
  first-in first-out channels, and `WorkerOutcomes` says what becomes of a scan.
- **Writing results.** `FileWriter` writes a file or a directory through staging and backup paths on a file
  system in which any operation may fail.
- **Benchmark.** `BenchmarkComparator` matches expected with actual findings, `BenchmarkMetrics` counts.
- **Fees.** `FeeFormat` prints an estimated fee.

Code that changes things step by step is modelled by methods over classes and arrays, each proved against a
function; the properties are lemmas about these functions.

## Findings

Some promises turned out to hold only under a condition. For each there is a lemma that says exactly when, and
most have one with an input for which the promise fails.

| promise | source | when it holds, and where it fails |
|---|---|---|
| One intent is sent at most once. | apps/web/v4/proof-send-coordinator.js:113-141 | Whatever the interleaving, the clock and the stored value, exactly when no two attempts share an owner id and the notification callback cannot throw an error with a rejection code (`SendProtocol.SentAtMostOnceExactlyWhenSound`). With a shared coordinator, a refused attempt whose REJECTED record another tab's reload has already removed releases the record of the next attempt, and a third attempt sends again (`SendProtocol.SharedOwnerSendsTwice`, `SendProtocol.ForgedRejectionSendsTwice`). In a single run owner ids may be shared, as long as no reload removes a REJECTED record that an attempt has yet to release, no attempt that has not called the wallet releases a record under which it was called, and no callback throws a rejection code after the call (`SendRuns.AtMostOneRequestPerUndisturbedRun`); the second can happen without any reload, because a provider error with the code WEB_V4_USER_REJECTED passes through the revalidation (`SendRuns.SharedOwnerSendsTwiceWithoutReload`). |
| A recorded transaction hash never changes. | apps/web/v4/proof-send-coordinator.js:97-112 | Exactly if no three attempts share an owner id (`SendHashes.HashesStayExactlyWithoutThree`). With three, two of them can have called the wallet under one record, since the first has released that of the second; both time out, and the late answer to one replaces that to the other (`SendHashes.SharedOwnerReplacesHash`). |
| Decoding gives back the text. | packages/proof/src/registry.js:37-41 | Exactly when the text does not start with a byte order mark, which `TextDecoder` drops (`RegistryCalldata.RoundTrip`, `RegistryRecord.ReadsBackExactlyWithoutBom`, `ZipRoundTrip.TextsComeBackExactly`). |
| `canonicalJson` refuses what is not JSON. | apps/web/v4/canonical.js:4-8 | It refuses undefined, numbers that are not finite and big integers only (`CanonicalJson.FailsExactlyOnRefused`). `JSON.stringify` makes undefined of a function or a symbol, and `map` skips holes: an array of one function or one hole has the text of the empty array, and a method is printed as the word undefined (`CanonicalJson.LoneGapsCollide`, `CanonicalJson.MethodIsPrinted`). A value that is printed shares its text with a JSON value exactly when functions, symbols and holes occur in it only as the single item of an array (`CanonicalJson.SharesTextOfJsonExactly`). |
| `findMatching` reads string literals as the source has them. | packages/analyzer/src/parser.js:65-67, packages/analyzer/src/parser.js:332-335 | From a brace on exactly when this brace is not in a literal of the source (`Contracts.ReadsAsSourceExactly`, for the contracts found `Contracts.ContractReadsAsSourceExactly`). The contract pattern matches within literals, too: `string constant S="contract B {";contract C{}` is refused as "Unclosed contract B" (`Contracts.HeaderInStringIsRefused`), as is every file whose only literal ends with its first header (`Contracts.HeaderInLiteralIsRefused`). The loop finds the contracts of the source exactly when no header that it finds begins or ends in a literal (`Contracts.FindsContractsOfSourceExactly`). |
| Offsets into the masked source are offsets into the source. | packages/analyzer/src/parser.js:4-63 | Exactly when no comment holds a code point above U+FFFF, because such a code point is blanked by a single space (`CommentMask.OffsetsKeptExactly`, `CommentMask.EmojiInCommentMovesOffsets`). |
| Without `overwrite`, an existing output file is kept. | packages/cli/src/file-writer.js:17-19 | It is replaced exactly when `stat` fails and the other operations work (`FileWriter.OverwriteHonouredExactly`). |
| A failed package export restores everything. | packages/cli/src/file-writer.js:32-58 | Except, after a failing `stat`, an empty directory at the output (`FileWriter.PackageGoesWell`). |
| A printed fee reads back. | apps/web/v4/proof-network-preflight.js:245-255 | Exactly when the currency has at least one decimal (`FeeFormat.ExactlyWithDecimals`). |
| Timers settle every scan. | apps/web/v4/runtime/worker-client.js:100-112 | From the request on (`WorkerClient.TwoTimersSettle`). While a scan waits for the worker no timer runs, and with a silent worker it waits for ever (`WorkerClient.WaitingHasNoTimeout`, `WorkerClient.SilentWorkerKeepsWaiting`). |
| Every scan promise is settled. | apps/web/v4/runtime/worker-client.js:102-108 | A call is lost exactly when a later call goes on while it is active, since only `disposed` is checked again after the wait (`WorkerClient.LostExactlyWhenReplaced`); its promise is never settled (`WorkerClient.LostForever`). Two scans called before the worker is ready suffice (`WorkerClient.OverlappingScansLoseTheFirst`). The timers of the lost request stay (`WorkerClient.EveryTimerHasARequest`), and its abort timer rejects the later scan (`WorkerClient.LeftOverTimerRejectsTheSecond`). |

## Model

| member | source | states |
|---|---|---|
| SendCoordinator.Coordinator.Claim | apps/web/v4/proof-send-coordinator.js:81-96 | the locked claim returns and stores what its step function says and leaves every other key alone |
| SendCoordinator.Coordinator.Transition | apps/web/v4/proof-send-coordinator.js:97-112 | the same for a transition, with all its error cases |
| SendCoordinator.Coordinator.ReleaseBeforeRetry | apps/web/v4/proof-send-coordinator.js:113-123 | the same for the release of a record |
| SendCoordinator.Coordinator.RecoverPreProvider | apps/web/v4/proof-send-coordinator.js:124-131 | the same for dropping a stale record that never reached the wallet |
| SendCoordinator.Coordinator.RecoverAfterReload | apps/web/v4/proof-send-coordinator.js:132-157 | the same for the recovery after a reload |
| SendCoordinator.Coordinator.Confirm | apps/web/v4/proof-send-coordinator.js:158-169 | the same for the confirmation |
| SendCoordinator.WrittenIsReadBack | apps/web/v4/proof-send-coordinator.js:41-76 | a written record is read back unchanged exactly when it is readable, otherwise every later read throws |
| SendCoordinator.ReadsExactlyWhatIsWritten | apps/web/v4/proof-send-coordinator.js:41-58 | a stored value of version 2 is read exactly if writing a readable record of the intent leaves it |
| SendCoordinator.LegacyIsRead | apps/web/v4/proof-send-coordinator.js:21-46 | a value of version 1 is read as one of version 2 with the corresponding state |
| SendCoordinator.OtherVersionsAreRefused | apps/web/v4/proof-send-coordinator.js:41-53 | no other version, and nothing that is not JSON, is read |
| SendCoordinator.ClaimSucceedsExactly | apps/web/v4/proof-send-coordinator.js:77-95 | a claim is acquired exactly on a free intent or over a record that did not reach the wallet and whose lease is over |
| SendCoordinator.ClaimReportsRecord | apps/web/v4/proof-send-coordinator.js:85-92 | otherwise it reports the record, unchanged within the lease; behind it a started wallet call is moved to reconciliation |
| SendCoordinator.TransitionsSucceedExactly | apps/web/v4/proof-send-coordinator.js:97-112 | a transition succeeds exactly for the owner along the listed edges, to TX_HASH_KNOWN only with a hash |
| SendCoordinator.ReleasesSucceedExactly | apps/web/v4/proof-send-coordinator.js:113-123 | a release succeeds exactly for the owner of a record under which the wallet was not called or has refused |
| SendCoordinator.RecoveriesFreeExactly | apps/web/v4/proof-send-coordinator.js:124-141 | recovery frees the intent exactly of a record that did not reach the wallet within its lease, and after a reload of a rejected one |
| SendCoordinator.ReloadKeepsRecord | apps/web/v4/proof-send-coordinator.js:142-156 | any other record is kept by a reload, which reports what is to be done for its state |
| SendCoordinator.ConfirmationsSucceedExactly | apps/web/v4/proof-send-coordinator.js:158-168 | a confirmation succeeds exactly with a hash, for a record that waits for this hash or has none |
| SubmitAttempt.AttemptObject.Continue | apps/web/v4/proof-transaction-acceptance.js:201-242 | each stretch of code between two awaits updates the attempt as the protocol's step does; SendOutcomes states where these steps lead |
| SubmitAttempt.AttemptObject.OnError | apps/web/v4/proof-transaction-acceptance.js:263-282 | the outer catch block: release, rejection or reconciliation |
| SubmitAttempt.AttemptObject.OnLateResponse | apps/web/v4/proof-transaction-acceptance.js:213-224 | a late response counts only during reconciliation and only with a transaction hash |
| SendProtocol.EveryRunKeepsInvariant | apps/web/v4/proof-transaction-acceptance.js:201-283 | in every run from any stored value, failing locks and storage included, a live request is guarded by the stored record of its own attempt and there is at most one |
| SendProtocol.AtMostOneRequestPerIntent | apps/web/v4/proof-transaction-acceptance.js:201-283 | in every run, from any stored value, at most one wallet request of an intent is open or answered otherwise than by a rejection, for distinct owner ids and callbacks without rejection codes |
| SendProtocol.NeverSentAgain | apps/web/v4/proof-send-coordinator.js:81-96 | if the stored record may have reached the wallet or cannot be read, no run from it asks the wallet at all, and its hash stays, whatever the owner ids and callbacks |
| SendProtocol.LegacyIsBlocked | apps/web/v4/proof-send-coordinator.js:21-58 | this covers every version 1 record but those that were still being validated |
| SendProtocol.SentAtMostOnceExactlyWhenSound | apps/web/v4/proof-transaction-acceptance.js:245-283 | this holds in all reachable states if and only if owner ids are distinct and the callback cannot throw a rejection code |
| SendProtocol.SharedOwnerSendsTwice | apps/web/v4/proof-send-coordinator.js:113-141 | a run with two live requests for every pair of attempts that share an owner id |
| SendProtocol.ForgedRejectionSendsTwice | apps/web/v4/proof-transaction-acceptance.js:225-233 | a run with two live requests when the callback can throw a rejection code |
| SendOutcomes.OpenIntentIsPublished | apps/web/v4/proof-transaction-acceptance.js:201-242 | from every reachable state with a free or expired record, a submission whose wallet answers with a transaction hash in any case of letters returns, and its record holds the hash in lower case |
| SendOutcomes.PreparedAsksWallet | apps/web/v4/proof-transaction-acceptance.js:201-226 | a validated attempt records both states of the request and then asks the wallet |
| SendOutcomes.AnswerInTimeIsRecorded | apps/web/v4/proof-transaction-acceptance.js:235-242 | a transaction hash in time is recorded as TX_HASH_KNOWN and the submission returns, from every reachable state in which the attempt waits and owns its record |
| SendOutcomes.ReturnedMeansAnswered | apps/web/v4/proof-transaction-acceptance.js:235-242 | a submission returns only with the transaction hash that the wallet has answered |
| SendOutcomes.LateAnswerIsRecorded | apps/web/v4/proof-transaction-acceptance.js:213-224 | a transaction hash that arrives while the outcome is indeterminate is recorded as TX_HASH_KNOWN |
| SendOutcomes.RejectionFreesTheIntent | apps/web/v4/proof-transaction-acceptance.js:264-273 | after an explicit rejection the record is gone and the submission throws |
| SendOutcomes.EarlyErrorFreesTheIntent | apps/web/v4/proof-transaction-acceptance.js:263-274 | so it does after an error of the validation, the first callback or a lock before the wallet is called |
| SendOutcomes.LateErrorAsksForReconciliation | apps/web/v4/proof-transaction-acceptance.js:275-281 | after a timeout, a failing lock or a callback behind the call, the record asks for reconciliation and no hash is lost |
| SendOutcomes.UnclearAnswerAsksForReconciliation | apps/web/v4/proof-transaction-acceptance.js:230-236 | so it does after any other error of the wallet and after an answer that is no transaction hash |
| SendRuns.AtMostOneRequestPerUndisturbedRun | apps/web/v4/proof-transaction-acceptance.js:245-283 | whatever owner ids are shared and callbacks may throw, at most one request is live in every run in which no reload frees a record whose release is awaited, no attempt that has not called the wallet releases a record past the call, and no callback throws a rejection code after the call |
| SendRuns.FreedAwaitedSendsTwice | apps/web/v4/proof-send-coordinator.js:113-141 | from every state in which such a reload happens, a second request can become live |
| SendRuns.UncalledReleaseSendsTwice | apps/web/v4/proof-send-coordinator.js:113-123 | and from every state in which such a release removes the record of an open request |
| SendRuns.SharedOwnerSendsTwiceWithoutReload | apps/web/v4/proof-transaction-acceptance.js:154-162 | for every two attempts with one owner id there is such a run without any reload, by a takeover and a validation error with a rejection code |
| SendHashes.HashesStayExactlyWithoutThree | apps/web/v4/proof-send-coordinator.js:97-112 | in all runs no step changes or removes a recorded transaction hash, if and only if no three attempts share an owner id; callbacks may throw what they like |
| SendHashes.RecordedHashIsPermanent | apps/web/v4/proof-send-coordinator.js:97-169 | if no three attempts share an owner id, a recorded transaction hash never changes and its record is never removed, in any continuation of a run |
| SendHashes.RecordedHashIsAnAnswer | apps/web/v4/proof-transaction-acceptance.js:212-241 | a hash recorded in such a run is the wallet's answer to an attempt with the record's owner id |
| SendHashes.RunsEndOrderly | apps/web/v4/proof-send-coordinator.js:97-169 | no such run leaves a record with a hash that a later visit could take over |
| SendHashes.SharedOwnerReplacesHash | apps/web/v4/proof-send-coordinator.js:104-109 | for every three attempts with one owner id and every two hashes, a run in which the late answer of one replaces the recorded hash of another |
| SendProtocol.ConfirmedIsAbsorbing | apps/web/v4/proof-send-coordinator.js:81-169 | no step changes a CONFIRMED record, whoever owns it |
| SendProtocol.UnreadableIsStuck | apps/web/v4/proof-send-coordinator.js:41-58 | no step changes a stored value that cannot be parsed |
| ProofPersistence.SnapshotsArePersistable | apps/web/v4/proof-persistence.js:66-77 | every snapshot that the page persists, in every interleaving, passes the guards for saving and for loading |
| ProofPersistence.ReturnedAttemptsArePersistable | apps/web/v4/proof-persistence.js:14-21 | so does the save after a successful submission, whose publication state is inferred |
| ProofPersistence.PublishedExactlyWhenVerified | apps/web/v4/proof-persistence.js:78 | a save as confirmed or already published is accepted exactly with a matching verified receipt, from a provider, with a hash |
| ProofPersistence.AttemptsSavedExactly | apps/web/v4/proof-persistence.js:72-77 | a save of a wallet attempt is accepted exactly in the listed states, bound to its intent, without a receipt |
| ProofPersistence.MalformedIsRefused | apps/web/v4/proof-persistence.js:68-72 | nothing is saved under another status or with a malformed hash or intent |
| ProofPersistence.InferredStatePasses | apps/web/v4/proof-persistence.js:14-21 | the state that is inferred from the status is one of these |
| ProofPersistence.SavedIsLoaded | apps/web/v4/proof-persistence.js:114-115 | what is saved passes the guards for loading |
| Text.HashInAnyCaseExactly | apps/web/v4/proof-transaction-acceptance.js:235-236 | lower-casing makes a transaction hash of exactly the texts that are one with letters in any case |
| Utf8.DecodeOfEncode | packages/proof/src/registry.js:37-41 | UTF-8 reads back what it wrote, for every Unicode text |
| Utf8.EncodeOfDecode | apps/web/v4/proof-network-preflight.js:63-67 | bytes that decode are the encoding of what they decode to |
| AbiString.DecodeOfTail | packages/proof/src/registry.js:120-136 | the string reader reads every encoded string within its limit, up to the end of its padding |
| AbiString.TailOfDecode | apps/web/v4/proof-network-preflight.js:53-68 | whatever the string reader accepts is the encoding of the bytes it read |
| RegistryRecord.AcceptsExactlyCanonicalEncodings | apps/web/v4/proof-network-preflight.js:70-99 | the structural checks accept exactly the canonical ABI encodings of valid records, and return the encoded record |
| RegistryRecord.CanonicalIsInjective | apps/web/v4/proof-network-preflight.js:70-99 | distinct records have distinct encodings |
| RegistryRecord.ReadsBackExactlyWithoutBom | apps/web/v4/proof-network-preflight.js:63-67 | the returned record encodes back to the input exactly when no string starts with a byte order mark |
| RegistryCalldata.EncoderFollowsAbi | packages/proof/src/registry.js:95-118 | the calldata is the selector and the ABI encoding of the arguments, and encoding fails on nothing but unencodable payloads |
| RegistryCalldata.RoundTrip | packages/proof/src/registry.js:95-159 | decoding encoded calldata gives the normal form of the payload if it is decodable, and an error otherwise |
| RegistryCalldata.AcceptsExactlyEncodedPayloads | packages/proof/src/registry.js:138-159 | the decoder accepts exactly the calldata of decodable payloads |
| RegistryCalldata.CalldataIsInjective | packages/proof/src/registry.js:95-118 | two payloads have the same calldata exactly when they have the same normal form |
| RegistryCalldata.NormalFormIsStable | packages/proof/src/registry.js:49-65 | normalizing a payload twice is normalizing it once |
| RegistryCalldata.Bytes32Exactly | packages/proof/src/registry.js:49-53 | a hash argument is accepted exactly if it is 64 digits in any case with or without a prefix, and is written in lower case |
| RegistryCalldata.TrimsExactly | packages/proof/src/registry.js:61-65 | trimming the version removes all white space at both ends and nothing else |
| JsonText.ObjectsArePrinted | apps/web/v4/canonical.js:10 | an accepted object is printed in braces, its members once each, separated by commas, in ascending order of their keys by UTF-16 code units |
| JsonText.ArraysArePrinted | apps/web/v4/canonical.js:8-9 | an array is printed in brackets, its items in order, and undefined items leave their place empty |
| JsonText.LiteralsArePrinted | apps/web/v4/canonical.js:5 | null, true, false and numbers are printed as such |
| JsonText.StringsArePrinted | apps/web/v4/canonical.js:5 | a string is printed between quotes |
| JsonText.EscapesAreJoined | apps/web/v4/canonical.js:5 | strings are printed unit by unit, but for surrogate pairs |
| JsonText.ShortEscapesArePrinted | apps/web/v4/canonical.js:5 | the seven short escapes |
| JsonText.OtherUnitsArePrinted | apps/web/v4/canonical.js:5 | other control characters and lone surrogates become four lower-case hexadecimal digits, all else stands for itself |
| CanonicalJson.CanonicalTextIsMeaning | apps/web/v4/canonical.js:3-15 | two accepted values have one canonical text exactly when they are equal up to the order of members at every depth and up to what stands in gaps; JSON values have no gaps |
| CanonicalJson.JsonArrayMeansItsItems | apps/web/v4/canonical.js:8-9 | the meaning of a JSON array is the sequence of the meanings of its items |
| CanonicalJson.FailsExactlyOnRefused | apps/web/v4/canonical.js:3-7 | canonicalJson throws exactly if undefined, a number that is not finite or a big integer occurs in the value, and returns undefined exactly for a function or a symbol |
| CanonicalJson.SharesTextOfJsonExactly | apps/web/v4/canonical.js:5-9 | a printed value has the text of a JSON value exactly when functions, symbols and holes occur in it only as the single item of an array |
| CanonicalJson.LoneGapsCollide | apps/web/v4/canonical.js:8-9 | an array of one function and an array of one hole are printed as the empty array |
| CanonicalJson.MethodIsPrinted | apps/web/v4/canonical.js:10 | a member that is a function is printed as the word undefined, which is the text of no JSON value |
| CanonicalJson.PrintIsPrefixFree | apps/web/v4/canonical.js:8-10 | printed values, each followed by a comma, a closing bracket or the end, can be told apart and delimited |
| CanonicalJson.StringIsRead | apps/web/v4/canonical.js:5 | an escaped string reads back for every sequence of code units, lone surrogates included |
| CanonicalJson.SortedMeansTheSame | apps/web/v4/canonical.js:10 | sorting the members at every depth keeps the meaning |
| SortedFields.SortedIsUnique | apps/web/v4/canonical.js:10 | members with the same map have one sorted order |
| KeccakOffsets.OffsetsFollowTheWalk | packages/analyzer/src/keccak.js:4-10 | at each of its 24 steps the walk of algorithm 2 of FIPS 202 reaches a lane whose rotation in the table is the one prescribed there |
| KeccakOffsets.WalkReaches | packages/analyzer/src/keccak.js:4-10 | the walk reaches every lane but the first |
| Keccak.RoundConstantsAreStandard | packages/analyzer/src/keccak.js:12-25 | each of the 24 round constants is what the shift register of algorithm 5 produces |
| Keccak.RotationsAgree | packages/analyzer/src/keccak.js:27-31 | the rotation on BigInt lanes is the rotation of 64-bit lanes for every offset of the table |
| Keccak.ShiftIsExact | packages/analyzer/src/keccak.js:27-31 | the shifts to the left of a rotation lose no bit of a lane, as on unbounded integers |
| Keccak.ThetaInPlace | packages/analyzer/src/keccak.js:39-52 | the in-place loops compute theta |
| Keccak.SourceOfTarget | packages/analyzer/src/keccak.js:54-60 | the place to which a lane is scattered gathers it back |
| Keccak.TargetOfSource | packages/analyzer/src/keccak.js:54-60 | and every place is scattered to, so that the two forms of rho and pi agree |
| Keccak.RhoPi | packages/analyzer/src/keccak.js:54-61 | the scattering loops compute rho and pi |
| Keccak.ChiInPlace | packages/analyzer/src/keccak.js:63-70 | the loops compute chi |
| Keccak.Permutation | packages/analyzer/src/keccak.js:33-74 | the permutation is Keccak-f[1600], and every lane stays below 2^64 |
| KeccakSpec.LaneHoldsItsBytes | packages/analyzer/src/keccak.js:91-95 | byte k of the lane made of eight bytes is the k-th of them |
| KeccakSponge.PaddingIsStandard | packages/analyzer/src/keccak.js:83-87 | bit by bit, the padded bytes are the message followed by pad10*1, for every length |
| KeccakSponge.PaddingIsInjective | packages/analyzer/src/keccak.js:83-87 | distinct messages have distinct padded forms |
| KeccakSponge.AbsorbBlock | packages/analyzer/src/keccak.js:91-95 | xoring a block byte by byte into the lanes is xoring it as 17 lanes |
| KeccakSponge.Keccak256Bytes | packages/analyzer/src/keccak.js:81-106 | the digest is the sponge of rate 1088 on the padded message, for input of any length |
| Sha256Constants.RoundConstantsAreStandard | apps/web/v4/runtime/browser/sha256.js:1-10 | each round constant is the first 32 bits of the fractional part of the cube root of the prime it belongs to |
| Sha256Constants.InitialHashIsStandard | apps/web/v4/runtime/browser/sha256.js:11 | the same for the square roots of the first eight primes |
| Sha256.RotateIsRotr | apps/web/v4/runtime/browser/sha256.js:12 | rotate on JavaScript numbers, signed result included, has the bits of the rotation |
| Sha256.ChooseAgrees | apps/web/v4/runtime/browser/sha256.js:37 | the signed choose expression is Ch modulo 2^32 |
| Sha256.SumOfFive | apps/web/v4/runtime/browser/sha256.js:38 | adding signed and unsigned numbers exactly and reducing once is adding modulo 2^32 at each step |
| Sha256.Pad | apps/web/v4/runtime/browser/sha256.js:16-23 | the padded bytes with the length split into two words are those of the standard |
| Sha256Spec.LengthFieldHoldsTheLength | apps/web/v4/runtime/browser/sha256.js:21-23 | the last two words hold the length in bits as a 64-bit number |
| Sha256Spec.PaddingIsInjective | apps/web/v4/runtime/browser/sha256.js:16-23 | distinct messages have distinct padded forms |
| Sha256.FillSchedule | apps/web/v4/runtime/browser/sha256.js:27-33 | the loops compute the message schedule |
| Sha256.RunRounds | apps/web/v4/runtime/browser/sha256.js:34-43 | the loop runs the 64 rounds |
| Sha256.CompressBlock | apps/web/v4/runtime/browser/sha256.js:27-47 | a block updates the hash value as section 6.2.2 of FIPS 180-4 says |
| Sha256.Sha256Bytes | apps/web/v4/runtime/browser/sha256.js:14-53 | the digest is SHA-256, for every byte length below 2^50 |
| CommentMask.MaskComments | packages/analyzer/src/parser.js:4-63 | the in-place loop computes the masked text, for unterminated strings and comments too |
| CommentMask.MaskedExactly | packages/analyzer/src/parser.js:4-63 | exactly the characters of comments other than newlines become spaces |
| CommentTokens.MaskReadsTokens | packages/analyzer/src/parser.js:4-63 | however a source is cut into comments, string literals and other characters by the grammar of tokens, the masked text is theirs with comments blanked, and these are the literals that the lexer finds |
| CommentTokens.EverySourceHasTokens | packages/analyzer/src/parser.js:4-63 | every source can be cut in this way |
| CommentMask.NewlinesKept | packages/analyzer/src/parser.js:13-29 | the length and the place of every newline are kept |
| CommentMask.MaskedHasNoOpener | packages/analyzer/src/parser.js:4-63 | outside string literals the masked text has no comment opener |
| CommentMask.MaskingIsIdempotent | packages/analyzer/src/parser.js:4-63 | masking twice is masking once |
| CommentMask.LiteralsAgree | packages/analyzer/src/parser.js:32-44 | a reader that knows no comments finds in the masked text the string literals of the source |
| CommentMask.OffsetsKeptExactly | packages/analyzer/src/parser.js:4-63 | UTF-16 offsets into the masked text and into the source agree exactly when no comment holds a code point above U+FFFF |
| CommentMask.EmojiInCommentMovesOffsets | packages/analyzer/src/parser.js:4-63 | a source for which they do not agree |
| Segments.FindMatching | packages/analyzer/src/parser.js:65-89 | the result is the first closing character outside literals that brings the depth to zero, or -1 if there is none |
| Segments.BlockInsideMatches | packages/analyzer/src/parser.js:164-168 | a block opened inside matched braces closes strictly before they do |
| Segments.ScanTopLevelSegments | packages/analyzer/src/parser.js:129-179 | the loop finds the segments and filters the blank ones, or reports an unclosed block |
| Segments.NoUnclosedBlock | packages/analyzer/src/parser.js:129-179 | inside matched braces the scan does not fail; its segments follow each other without a gap, each reaches exactly to the first top-level semicolon or over the first top-level block behind its start, and none is left behind the last |
| Segments.TilesAreUnique | packages/analyzer/src/parser.js:129-179 | there is only one such list of segments |
| Segments.TilesAreOrdered | packages/analyzer/src/parser.js:178 | after filtering the segments are ordered and disjoint, and only blank ones are missing |
| ContractPattern.HeaderIsMatch | packages/analyzer/src/parser.js:332-334 | the header found at a position is the match of the contract pattern there, and its brace is the first one behind |
| Contracts.ParseContracts | packages/analyzer/src/parser.js:332-372 | the loop with its errors computes the parsed contracts |
| Contracts.ParsedFromIs | packages/analyzer/src/parser.js:332-368 | "Unclosed block" is never thrown, "Unclosed contract" only for a header whose brace has no match; otherwise the contracts follow each other, no header between them is missed, and their segments tile their bodies |
| Contracts.ParsedIs | packages/analyzer/src/parser.js:370-372 | the error for a missing body is thrown exactly for a file that mentions a contract and has no header |
| Contracts.LiteralsOfSource | packages/analyzer/src/parser.js:4-63 | a reader of the masked text from its beginning finds the string literals of the source |
| Contracts.ReadsAsSourceExactly | packages/analyzer/src/parser.js:65-67 | a reader that starts at a brace finds the literals of the source from there on exactly when the brace is not in a literal |
| Contracts.ContractReadsAsSourceExactly | packages/analyzer/src/parser.js:332-335 | so the body of a contract that is found is read as the source has it exactly when its brace is not in a literal |
| Contracts.FindsContractsOfSourceExactly | packages/analyzer/src/parser.js:332-368 | for every file, the loop finds what a parser that knows the literals of the source finds, up to the same error, exactly when no header that it finds begins or ends in a literal |
| Contracts.ParsesContractsOfSourceExactly | packages/analyzer/src/parser.js:332-368 | the same for the contracts of a file that is parsed |
| Contracts.HeaderInLiteralIsRefused | packages/analyzer/src/parser.js:334-338 | a file with one string literal, without comments and escapes, whose first header ends with that literal is refused, whatever contracts follow |
| Contracts.HeaderInStringIsRefused | packages/analyzer/src/parser.js:334-338 | a valid file of this kind |
| Crc32.Checksum | apps/web/lib/zip.js:3-12 | the nested loops compute the checksum |
| Crc32.CheckValue | apps/web/lib/zip.js:3-12 | the checksum of the digits 1 to 9 is the check value of CRC-32 |
| Crc32.ChecksumOfChecked | apps/web/lib/zip.js:3-12 | every input that is followed by its checksum has the residue of CRC-32 as its checksum |
| Crc32.UpdateIsInjective | apps/web/lib/zip.js:5-10 | the update is one-to-one in the register for a fixed byte |
| Crc32.UpdateSeparatesBytes | apps/web/lib/zip.js:5-10 | and one-to-one in the byte for a fixed register |
| Crc32.ChangeIsDetected | apps/web/lib/zip.js:3-12 | equally long inputs that differ only within four consecutive bytes have different checksums |
| Crc32.ChecksumIsAffine | apps/web/lib/zip.js:3-12 | the checksum is affine over xor for inputs of one length |
| ZipWriter.Concat | apps/web/lib/zip.js:22-31 | the filled buffer is the parts one after the other |
| ZipWriter.CreateZip | apps/web/lib/zip.js:33-63 | every byte of the archive is as the standard prescribes: for each entry a local header and a directory record that points to it, both with the CRC-32 and the size of the data behind the local header, and an end record with count, length and place of the directory |
| ZipRecords.ArchiveIsZip | apps/web/lib/zip.js:41-62 | the same, for every list of entries that the fields of the format can hold |
| Unzip.ReadZipEntries | apps/web/lib/unzip.js:35-93 | reading does what its specification says for every file, and never reads outside the bytes |
| Unzip.FindEndRecord | apps/web/lib/unzip.js:38-46 | the backward scan finds the last end signature within the last 65557 bytes |
| ZipReading.EndIsFound | apps/web/lib/unzip.js:38-46 | this is the end record of every laid-out archive whose comment does not hold its signature |
| ZipReading.LaidOutIsRead | apps/web/lib/unzip.js:48-92 | from every laid-out archive, with any extra fields, comments and bytes between its parts, exactly the files that names, flags, methods, sizes and contents call for are read |
| ZipReading.ProjectComesBack | apps/web/lib/unzip.js:54-92 | from every laid-out archive the stored and deflated Solidity files with clean names come back in order, with exactly their names and contents |
| ZipPaths.PlainPathIsKept | apps/web/lib/unzip.js:14-18 | a plain path is kept as it is |
| ZipPaths.DotsAreDropped | apps/web/lib/unzip.js:17 | empty parts and single dots do not count |
| ZipPaths.BackslashesAreSlashes | apps/web/lib/unzip.js:15 | a backslash separates parts like a slash |
| ZipPaths.ClimbingAndIgnoredArePassed | apps/web/lib/unzip.js:14-70 | a name with a part ".." or an ignored directory, in any case of letters, is passed over |
| ZipPaths.CleanPathNeverClimbs | apps/web/lib/unzip.js:14-18 | no part of a cleaned path is empty, "." or ".." |
| ZipRoundTrip.RoundTrip | apps/web/lib/unzip.js:35-93 | reading an archive of this form makes of the entries exactly what their names, sizes and contents call for |
| ZipRoundTrip.ProjectRoundTrip | apps/web/lib/unzip.js:54-92 | clean Solidity entries within the limits all come back in order, under their names with slashes for backslashes, with the text of their bytes |
| ZipRoundTrip.TextsComeBackExactly | apps/web/lib/unzip.js:88-90 | texts come back unchanged exactly when none starts with a byte order mark |
| WorkerClient.Client.Receive | apps/web/v4/runtime/worker-client.js:65-83 | a message changes the client as its step function says |
| WorkerClient.Client.AbortRequest | apps/web/v4/runtime/worker-client.js:90-98 | an abort asks the worker once and gives up on it the second time |
| WorkerClient.Client.Terminate | apps/web/v4/runtime/worker-client.js:48-63 | giving up rejects the active scan, clears its timers and happens once |
| WorkerClient.Client.Fire | apps/web/v4/runtime/worker-client.js:42-108 | a timer that fires aborts its request, or gives up on the worker after an abort |
| WorkerClient.Client.Resume | apps/web/v4/runtime/worker-client.js:103-111 | the part of scan behind its await |
| WorkerClient.RunKeeps | apps/web/v4/runtime/worker-client.js:42-117 | the invariant of every run, whatever messages arrive |
| WorkerClient.SettledOnceThenQuiet | apps/web/v4/runtime/worker-client.js:65-83 | each scan is settled at most once and reports no progress after that |
| WorkerClient.EveryCallIsAccountedFor | apps/web/v4/runtime/worker-client.js:100-112 | every call of scan is either waiting, active, settled or lost, and only one of these |
| WorkerClient.LostExactlyWhenReplaced | apps/web/v4/runtime/worker-client.js:102-108 | in every run, overlapping scans included, a call is lost exactly when a later call resumes while it is active |
| WorkerClient.LostForever | apps/web/v4/runtime/worker-client.js:102-108 | the promise of a lost call is never settled, whatever follows |
| WorkerClient.EveryTimerHasARequest | apps/web/v4/runtime/worker-client.js:42-43 | in every run each pending timer belongs to the active request or to one that was replaced |
| WorkerClient.TimersOnlyWhileActive | apps/web/v4/runtime/worker-client.js:42-43 | as long as no call is lost, a timer is pending exactly while a request is active |
| WorkerClient.LeftOverTimerRejectsTheSecond | apps/web/v4/runtime/worker-client.js:90-112 | a run in which the abort timer of a replaced scan is left over and rejects the later scan |
| WorkerClient.WaitingHasNoTimeout | apps/web/v4/runtime/worker-client.js:103-108 | as long as the worker is not ready, no timer is pending that could end the wait |
| WorkerClient.SilentWorkerKeepsWaiting | apps/web/v4/runtime/worker-client.js:100-104 | a scan whose worker neither answers nor fails, and whose client is not disposed, waits through every run |
| WorkerClient.OverlappingScansLoseTheFirst | apps/web/v4/runtime/worker-client.js:100-112 | a run of two scans, called before the worker gets ready, in which the first is lost |
| WorkerClient.TwoTimersSettle | apps/web/v4/runtime/worker-client.js:90-108 | once two timers of the active request have fired, a scan that was active is settled exactly if it was not lost, whatever else happens |
| WorkerRuntime.WorkerSide.Handle | apps/web/v4/runtime/worker-runtime.js:54-71 | a message changes the runtime as its step function says |
| WorkerRuntime.WorkerSide.OnProgress | apps/web/v4/runtime/worker-runtime.js:40-44 | progress is posted, and the stage timer restarted, only for the active job before an abort |
| WorkerRuntime.WorkerSide.Finish | apps/web/v4/runtime/worker-runtime.js:46-51 | the end of a scan posts one answer and frees the runtime; WorkerOutcomes states which answer reaches the caller |
| WorkerRuntime.SecondRequestIsRefused | apps/web/v4/runtime/worker-runtime.js:28 | a request that finds the worker busy is answered with an error |
| WorkerRuntime.SecondAbortFreesTheWorker | apps/web/v4/runtime/worker-runtime.js:59-63 | the first abort reaches the scanner, the second frees the worker |
| WorkerOutcomes.ScanResolves | apps/web/v4/runtime/worker-client.js:100-112 | from every reachable idle state a scan reaches the worker, and when the scanner returns its call resolves and both ends are idle again |
| WorkerOutcomes.StartedIsIdle | apps/web/v4/runtime/worker-client.js:69 | once the worker has started and said so, both ends are in such a state |
| WorkerOutcomes.ScanReachesWorker | apps/web/v4/runtime/worker-runtime.js:27-35 | the request becomes the worker's active job, with both timers |
| WorkerOutcomes.ScanWithoutScannerIsRejected | apps/web/v4/runtime/worker-runtime.js:29 | without a scanner the call is rejected, and both ends are idle again |
| WorkerOutcomes.OutcomeReachesItsCall | apps/web/v4/runtime/worker-runtime.js:46-51 | when the scanner of a living client's request ends and the messages have arrived, the call is resolved exactly if the scanner has returned without an abort, and rejected otherwise |
| WorkerOutcomes.ProgressReachesItsCall | apps/web/v4/runtime/worker-runtime.js:40-44 | progress before an abort is reported to its call |
| WorkerOutcomes.AbortedIsRejected | apps/web/v4/runtime/worker-runtime.js:21-35 | after a timer of the worker or an abort its call is rejected, whatever the scanner does |
| WorkerOutcomes.TimersArmedUntilAborted | apps/web/v4/runtime/worker-runtime.js:21-35 | until then the active job has both timers |
| WorkerOutcomes.FirstAbortAsksSecondGivesUp | apps/web/v4/runtime/worker-client.js:90-98 | the first abort of the active request, by the caller or a timer, asks the worker under a time limit, the second gives up |
| WorkerOutcomes.GivesUpWithRejection | apps/web/v4/runtime/worker-client.js:48-63 | a disposal, a failing worker or an unanswered abort rejects the active call; only a disposal tells the worker |
| WorkerOutcomes.ShutdownStopsWorker | apps/web/v4/runtime/worker-runtime.js:65-70 | which then aborts its job and takes no more messages |
| WorkerOutcomes.BusyScanIsRejected | apps/web/v4/runtime/worker-client.js:101-102 | a scan that is called during another one, or after the client gave up, is rejected at once |
| WorkerOutcomes.WaitingScanIsRejected | apps/web/v4/runtime/worker-client.js:103-104 | a scan that was waiting when the client gave up is rejected as soon as it goes on |
| WorkerOutcomes.FailureEndsTheClient | apps/web/v4/runtime/worker-client.js:66-72 | a malformed message, an error of the worker itself or one before it is ready ends the client |
| WorkerLifecycle.RunKeeps | apps/web/v4/runtime/worker-runtime.js:27-71 | in every run, while the client lives, its request is in exactly one place: on its way, with the worker, or on its way back |
| WorkerLifecycle.ClientRunsOnItsOwn | apps/web/v4/runtime/worker-client.js:48-117 | in every run of both ends the client goes through a run of its own in which no call is lost, so that the properties of WorkerClient hold there |
| WorkerLifecycle.ResolvedMeansScanned | apps/web/v4/runtime/worker-client.js:74-76 | a scan resolves only if the worker has carried out, without abort, the request made for that very call |
| WorkerLifecycle.AnswersSettleTheirOwnScan | apps/web/v4/runtime/worker-client.js:74-82 | an answer that reaches the living client resolves or rejects the call that its request was made for, and no newer one |
| WorkerLifecycle.WorkerNeverBusy | apps/web/v4/runtime/worker-runtime.js:28 | a request never finds the worker busy, and a request is aborted at most once |
| WorkerLifecycle.WorkerTimersOnlyWhileActive | apps/web/v4/runtime/worker-runtime.js:16-35 | the worker's timers are armed only for its active job, which is the client's active request |
| FileWriter.WriteAtomicFile | packages/cli/src/file-writer.js:13-21 | the call goes through the states that its specification lists |
| FileWriter.FileNeverLost | packages/cli/src/file-writer.js:19-20 | under every pattern of faults the old data stays at the output or the backup until the new data is installed |
| FileWriter.FileWritten | packages/cli/src/file-writer.js:19 | success leaves exactly the new file, without staging or backup |
| FileWriter.FileRestored | packages/cli/src/file-writer.js:20 | a failure whose rollback works restores the state before |
| FileWriter.FileSucceedsExactly | packages/cli/src/file-writer.js:17-20 | when a call succeeds, with and without overwrite, and when it reports an existing output |
| FileWriter.OverwriteHonouredExactly | packages/cli/src/file-writer.js:17-19 | without overwrite an existing output is replaced exactly when stat fails, it is a file and everything else works |
| FileWriter.WriteExportPackage | packages/cli/src/file-writer.js:32-58 | the same for the export of a package |
| FileWriter.PackageSucceedsExactly | packages/cli/src/file-writer.js:32-58 | when the export of a package succeeds, and when it reports an existing output |
| FileWriter.PackageGoesWell | packages/cli/src/file-writer.js:32-58 | nothing is lost on the way, success leaves exactly the package, and a failure whose rollback works restores the state before, except in one described case |
| BenchmarkComparator.Compare | packages/benchmark/src/comparator.js:7 | a one-to-one matching whose size is the sum over keys of the smaller count; the false negatives are exactly the unpaired expected findings and the false positives exactly the actual ones neither paired nor allowed, each once, and their number |
| BenchmarkMetrics.CompareCase | packages/benchmark/src/comparator.js:7 | the case result is made of such a comparison |
| BenchmarkComparator.MatchingIsBounded | packages/benchmark/src/comparator.js:5-7 | no one-to-one pairing of equal keys is larger |
| BenchmarkComparator.OrderDoesNotMatter | packages/benchmark/src/comparator.js:7 | the size depends neither on the order of the oracle nor on that of the findings |
| BenchmarkMetrics.CaseCounts | packages/benchmark/src/metrics.js:2-3 | in a compared case true positives and false negatives add up to the expected findings of its oracle, also for each detector |
| BenchmarkMetrics.EveryExpectedFindingCounts | packages/benchmark/src/metrics.js:2 | over all compared cases true positives and false negatives add up to the expected findings of the oracles |
| BenchmarkMetrics.DomainsCountExpected | packages/benchmark/src/metrics.js:2-4 | so they do within each domain and summed over the domains |
| BenchmarkMetrics.EveryExpectedFindingCountsPerDetector | packages/benchmark/src/metrics.js:2-4 | and for each detector |
| BenchmarkMetrics.DomainsAddUp | packages/benchmark/src/metrics.js:4 | the counts of the domains add up to the overall counts |
| BenchmarkMetrics.DetectorsAddUp | packages/benchmark/src/metrics.js:3-4 | so do the counts of the detectors |
| FeeFormat.ExactlyWithDecimals | apps/web/v4/proof-network-preflight.js:245-255 | a positive fee reads back from its printed form exactly when the currency has decimals |
| FeeFormat.PrintIsCanonical | apps/web/v4/proof-network-preflight.js:249-251 | no leading zero beyond a single 0 and no trailing zero of the fraction |
| FeeFormat.PrintIsInjective | apps/web/v4/proof-network-preflight.js:249-251 | distinct fees are printed differently |

## Left out

- SendProtocol.AtMostOneRequestPerIntent: holds for distinct owner ids and callbacks without rejection codes only; SendProtocol.SentAtMostOnceExactlyWhenSound says that it cannot hold otherwise, and SendRuns for which single runs it does.
- WorkerClient.TimersOnlyWhileActive: holds without lost calls only; WorkerClient.EveryTimerHasARequest covers every run.
- SendHashes.RecordedHashIsPermanent: holds if no three attempts share an owner id only, which SendHashes.HashesStayExactlyWithoutThree shows to be necessary, and starts from records in which a hash comes with a wallet request.
- WorkerClient.TwoTimersSettle: starts when the request is active, since a scan that waits for the worker has no timer.
- SendOutcomes.OpenIntentIsPublished: the steps of the attempt follow each other without those of others, and the clock readings under which records are written are safe integers, as those of `Date.now()` are.
- WorkerOutcomes.ScanResolves: assumes fresh request ids, too.
- WorkerLifecycle.ResolvedMeansScanned: assumes fresh request ids; the messages that `worker-entry.js` posts for uncaught errors are not part of this composed model, while the properties of WorkerClient hold for arbitrary messages.
- FileWriter.PackageGoesWell: removals happen as a whole or not at all, `rename` behaves as on POSIX, and reading back and verifying a package is one operation that works or fails.
- ZipReading.LaidOutIsRead: names, extra fields and comments have the lengths that their fields say; the disk numbers of APPNOTE.TXT and its ZIP64 records, which the reader ignores, are not part of the layout.
- Unzip.ReadZipEntries: `DecompressionStream`, `TextDecoder` on malformed bytes and `looksLikeSolidity` are parameters.
- BenchmarkComparator.Compare: the issues of a match depend on which of equal findings was paired and are not stated; the findings come in any order, so that their sorting by locale is left out.
- Strings of the ABI codecs, of ZIP entries and of source files are well-formed Unicode text; lone surrogates occur only in the JSON model.
- Addresses are compared in lower case; the checksum casing of publishers is left out, as is the refusal of non-integer scores, which have no counterpart in the model.
- The conversion of 256-bit words to numbers is exact in the model; the source rounds words above 2^53 before it refuses them.
- Circular values, which `canonicalJson` refuses, cannot be built in the model; number texts are those of `JSON.stringify` and taken as given; getters that change between two reads are left out.
- The selector of `publishReport` is taken as given; that it is the prefix of a Keccak-256 digest is not proved.
- `sha256Digest`, `deepFreeze`, `splitTopLevel` and the parsers of functions, events and state variables would add only easy members.
- The validation before the first locked transition of a submission, the receipt polling, RPC and wallet interfaces are reduced to steps that succeed, fail or never return.
- Worker callbacks do not call back into the client, `postMessage` does not throw, and in the runs of both ends together no scan is called while another one waits for the worker.
- Ratios of the benchmark metrics, user interface, detectors and report formats are left out.
