# EduGD backend: verified models

EduGD manages school tablets from a Flask backend. This project models the protocols inside that
backend in Dafny and proves what they promise. Database tables are sequences and maps, a committed
call is one step, and a refused call leaves the tables as they were. Where the program updates
state in place, a class with the same fields does too, and its methods are proved against a
specification function; the theorems are about that function and about whole runs of it.

| files | subject |
|---|---|
| `Utf8`, `Numerals`, `Text`, `Encodings`, `Ordering`, `Reordering`, `Wrappers` | encodings, stable sorting, and lists up to order |
| `CanonicalJson`, `NormalJson`, `ShortestJson`, `RequestTarget`, `AcceptedTargets`, `Base64Url`, `CanonicalUuids`, `SigningMessages` | the canonical texts under every hash and signature |
| `PolicyNames`, `PolicyContract`, `PolicySchedules`, `PolicyValidator`, `PolicyCanonicalForm`, `PolicyCapacity` | policy validation as a normal form, and signed envelopes |
| `PolicyAcceptance`, `PolicyContent`, `PolicySafety` | which policies are accepted, what is kept of them, and what is in force |
| `DeviceAuditLog`, `DeviceAudit`, `DeviceAuditBuilding`, `DeviceAuditService` | signed, hash-chained evidence from devices |
| `EvidenceAcceptance`, `DeviceAuditReceipts`, `DeviceAuditCoverage` | which evidence is accepted, what is acknowledged, and what a hash covers |
| `AuditChain`, `PolicyAssignments`, `PolicySync`, `PolicyAnswers`, `PolicyDelivery` | assigning policies, delivering them, and the chains of both |
| `NonceTable`, `DeviceAuthentication`, `SignedRequests`, `DeviceAuthenticationService`, `EcdsaCredentials` | signed requests, replays, and signatures that never pass |
| `AdministratorAccounts`, `Administrators`, `AdministratorOutcomes`, `AdministratorSafety` | lockout, sessions, and management of accounts |
| `DeviceEnrollment`, `EnrollmentProofs` | pairing tokens and rotating credentials |
| `Observations`, `DeviceStatus` | check-ins and acknowledgements |
| `AuditPaging`, `DroppedRows` | pages over several histories |

Cryptography and Unicode tables are parameters. A hash is any function: the results about tampering
exclude only collisions among the events or bodies they speak of (`CollisionFree`,
`RowsCollisionFree`). A signature is any predicate, with "verification accepts what signing made"
assumed only for envelopes and "ECDSA signatures are DER" only where stated
(`EcdsaCredentials.EcdsaIsDer`); NFC is any idempotent function that leaves ASCII alone; IDNA and
character classes obey `PolicyContract.Lawful`. Clocks, random UUIDs and lookups in tables that a
call only reads are inputs of the call.

Seven properties hold only under a condition, and the condition is proved to be exact:

- A validated policy validates to itself exactly when it has at most 64 capabilities after the
  network capabilities have been added (`PolicyCanonicalForm.ValidationIsFixedPoint`). Policies
  without that are accepted and cannot be enveloped (`PolicyCapacity`).
- A genuine request can be replayed exactly when twice the allowed skew plus the delay before its
  nonce is stored reach the nonce lifetime (`DeviceAuthentication.ReplayBound`). The configured 300
  and 600 seconds reach it.
- A client that reports only a version number converges exactly unless it holds another revision
  with the number of the assigned one (`PolicySync.VersionNumbersAloneMayNotConverge`); a run from
  empty tables leads there (`PolicySync.VersionOnlyClientIsStuck`).
- An audit chain verifies exactly when the clock never went back between two of its events
  (`AuditChain.VerifiesExactlyInTime`); two events suffice to break it
  (`AuditChain.ClockGoingBackIsRefused`).
- Histories whose rows are dropped after their limit page right exactly when no shown row comes
  earlier in the merge than in its own source (`DroppedRows.LateDropsPageRightTogether`); for one
  source, when only a tail is dropped (`DroppedRows.LateDropsPageRightExactly`).
- The order in which reports arrive does not matter for a device exactly when its newest reports
  agree (`Observations.OrderMattersExactly`, `DeviceStatus.ComplianceConvergesExactly`).
- A request with a signature that verifies is genuine exactly when the signature has 256 bytes
  (`DeviceAuthentication.VerifyingSignaturePasses`). A DER-encoded P-256 signature has at most 72, so
  a device with an ECDSA credential is turned away wherever it has to sign (`EcdsaCredentials`).

`dafny verify dfyconfig.toml` checks everything.

## Model

| member | source | states |
|---|---|---|
| `CanonicalJson.RoundTrip` | backend/app/policy_contract.py:270-291 | Parsing the printed bytes of any nested value gives back its NFC-normalised form; which of the texts that do so is printed is the subject of `ShortestJson`. |
| `CanonicalJson.Injective` | backend/app/policy_contract.py:270-291 | Two values print to the same bytes exactly when their normal forms are equal. |
| `CanonicalJson.ReencodingIsStable` | backend/app/services/physical_certification.py:30-46 | Storing what was read back and encoding it again gives the same bytes. |
| `CanonicalJson.NormalizeIdempotent` | backend/app/policy_contract.py:271-284 | Normalisation is idempotent, given that NFC is. |
| `CanonicalJson.DictNormalForms` | backend/app/policy_contract.py:276-284 | Two dictionaries have one normal form exactly when every normalised key holds the same last value in both. |
| `ShortestJson.PrintedIsShortest` | backend/app/policy_contract.py:285-291 | Among all texts that read as a value the printed one is the shortest, in characters and in bytes, and the only one of its size up to the case of hexadecimal letters, which it has in lower case. |
| `ShortestJson.CanonicalIsShortest` | backend/app/policy_contract.py:270-291 | So are the canonical bytes among all bytes that read as the normal form. |
| `NormalJson.NormalFormExactly` | backend/app/policy_contract.py:271-284 | The normal form is the one value with every text in NFC and every object in ascending order of keys, each holding what was assigned last under a key that normalises to it. |
| `Ordering.LexMeans` | backend/app/policy_contract.py:285-291 | Keys are ordered by the code point at the first place where they differ, prefixes first. |
| `Encodings.PrintedDenotes` | backend/app/policy_contract.py:285-291 | Numbers are printed as the decimal digits that denote them, without leading zeros. |
| `Encodings.Utf8Exactly` | backend/app/policy_contract.py:285-291 | The leading byte and the continuation bytes of a character hold the digits of its code point to the base 64, in the shortest form. |
| `RequestTarget.StrictPercentDecode` | backend/app/device_cryptography.py:164-187 | The decoding loop accepts exactly the escaped UTF-8 texts without control characters, and gives their bytes. |
| `RequestTarget.CanonicalizeQuery` | backend/app/device_cryptography.py:201-221 | The loop over components gives the canonical query, or an error for empty, nameless, repeated or undecodable components. |
| `RequestTarget.CanonicalizeRequestTarget` | backend/app/device_cryptography.py:153-161 | The canonical pair it gives, printed, is a target with the same pair and the same meaning, and the accepted targets with this pair are exactly those that mean the same. |
| `RequestTarget.CanonicalDecidesMeaning` | backend/app/device_cryptography.py:153-221 | Two accepted targets have the same canonical pair exactly when their paths decode to the same bytes and their queries to the same finite map. |
| `RequestTarget.CanonicalTargetFixed` | backend/app/device_cryptography.py:153-221 | Canonicalising a printed canonical target succeeds and changes nothing. |
| `RequestTarget.QueriesDecideMeaning` | backend/app/device_cryptography.py:201-221 | Accepted queries have one canonical text exactly when they denote the same map. |
| `RequestTarget.QuotedIsRead` | backend/app/device_cryptography.py:164-221 | Strict decoding reads the percent-encoded form of exactly the control-free UTF-8 byte strings, and gives them back. |
| `AcceptedTargets.TargetAcceptedExactly` | backend/app/device_cryptography.py:153-221 | A target is accepted exactly when it spells, with escapes, a control-free UTF-8 path without empty, `.` or `..` segments inside and a list of values under different, non-empty names; the pair is the canonical spelling of both. |
| `AcceptedTargets.DecodingSpells` | backend/app/device_cryptography.py:164-187 | Decoding gives the one byte string that the text spells character by character. |
| `AcceptedTargets.QuoteSpells` | backend/app/device_cryptography.py:159-161 | Quoting spells each byte canonically: unreserved characters as themselves, everything else as an upper-case escape. |
| `Base64Url.Decode64Exact` | backend/app/device_cryptography.py:31-50 | Exactly the encodings of non-empty byte strings decode, each to its own bytes. |
| `Base64Url.Decode64Length` | backend/app/device_cryptography.py:31-47 | With a required length n, exactly the encodings of n bytes decode, which have (4n + 2) / 3 characters: 22, 43 and 342 for 16, 32 and 256 bytes. |
| `Encodings.GroupsExactly` | backend/app/device_cryptography.py:25-28 | Three bytes and their four groups of six bits are the same number, and what is left over is filled with zero bits. |
| `CanonicalUuids.Uuid4Exactly` | backend/app/device_identity.py:29-37 | The accepted identifiers are exactly the lower-case texts of the 16-byte strings with version 4 and the RFC variant. |
| `Base64Url.PairingTokenExact` | backend/app/services/device_enrollment.py:164-166 | A text parses to a UUID and secret exactly when it is the pairing token issued for them. |
| `Base64Url.ParsedTokenIsIssued` | backend/app/services/device_enrollment.py:429-440 | Whatever parses is an issued token: a canonical version 4 UUID and a 32-byte secret. |
| `SigningMessages.MessagesUnambiguous` | backend/app/device_cryptography.py:86-127 | With newline-free fields, one signing input determines the kind of message and every field. |
| `SigningMessages.SignatureCoversOneRequest` | backend/app/device_cryptography.py:224-249 | Checked requests share a signing input exactly when method, meaning of the target, body digest, time, nonce, credential and device agree. |
| `PolicySchedules.OccupyDay` | backend/app/policy_contract.py:227-238 | Marking the minutes of one day, with wrap at midnight and at the end of the week, succeeds exactly when an earlier schedule holds none of them at that priority. |
| `PolicySchedules.Occupy` | backend/app/policy_contract.py:227-238 | Marking all days of a schedule marks exactly its active instants. |
| `PolicySchedules.ValidateSchedules` | backend/app/policy_contract.py:201-248 | The loop accepts exactly the well-formed lists in which no two different schedules of equal priority are active at a common instant, and gives them in normal order. |
| `PolicySchedules.HighestPriorityUnique` | backend/app/policy_contract.py:201-248 | In an accepted policy the active schedule of highest priority is unique at every day and minute. |
| `PolicySchedules.SchedulesIgnoreOrder` | backend/app/policy_contract.py:201-267 | The order of schedules and of their days does not matter. |
| `PolicySchedules.SchedulesFixed` | backend/app/policy_contract.py:201-267 | Accepted schedules in normal order are accepted again unchanged. |
| `PolicyValidator.NameList` | backend/app/policy_contract.py:107-127 | A list of names is accepted exactly when it is within bounds, well formed and free of repetitions, and is given back sorted. |
| `PolicyValidator.ValidateModes` | backend/app/policy_contract.py:154-200 | The loop over modes accepts exactly the lists of valid modes with different identifiers, and gives each back with its four lists of names in order and everything else as it was. |
| `PolicyValidator.ValidatePolicyV2` | backend/app/policy_contract.py:135-267 | The whole version 2 validator accepts exactly what meets the requirements, written out one by one, and keeps modes, schedules, packages and capabilities up to order. |
| `PolicyValidator.ValidateRules` | backend/app/policy_contract_v3.py:283-327 | The loop over web rules accepts exactly the lists with unique identifiers and unique targets of normalised domains. |
| `PolicyValidator.ValidateApplications` | backend/app/policy_contract_v3.py:499-550 | The loop over approved applications accepts exactly the lists with unique UUIDs and packages. |
| `PolicyValidator.ValidatePolicyV3` | backend/app/policy_contract_v3.py:162-461 | The whole version 3 validator accepts exactly what meets the requirements, written out one by one, and keeps all of it up to order, stripped texts, normalised domains, the added capabilities and a sharing list. |
| `PolicyAcceptance.AcceptedExactly` | backend/app/policy_contract_v3.py:162-461 | A payload is accepted exactly when it meets every requirement on its sections and between them, stated without the validator. |
| `PolicyAcceptance.NormalDomainExactly` | backend/app/policy_contract_v3.py:145-159 | When a domain is accepted, and as which: the lower-case IDNA form, without trailing dots, of labels within bounds. |
| `PolicyContent.ValidationKeeps` | backend/app/policy_contract_v3.py:162-461 | Validation forgets and invents nothing: the result agrees with the payload up to order in every list, and differs in no scalar but stripped texts, normalised domains, the schema version, a missing sharing list and the capabilities the network section adds. |
| `PolicySafety.ValidatedPolicyIsSafe` | backend/app/policy_contract.py:154-248 | At every minute of the week exactly one mode of an accepted policy is in force, and it allows, and does not block, every emergency package; the mode for exhausted screen time exists and does so, too. |
| `PolicyAcceptance.ControllerAlwaysRuns` | backend/app/policy_contract_v3.py:396-461 | Where applications are approved and the use of the device is stated, the controller itself is allowed in every mode that is ever in force. |
| `PolicyCanonicalForm.ValidatedCommonFixed` | backend/app/policy_contract.py:135-267 | The version 2 validator gives back its own output unchanged. |
| `PolicyCanonicalForm.ValidationIsFixedPoint` | backend/app/policy_contract_v3.py:162-461 | An output is accepted again, unchanged, exactly when the capabilities asked for and those the network section adds number at most 64. |
| `PolicyCanonicalForm.ValidationIgnoresOrder` | backend/app/policy_contract_v3.py:162-461 | Payloads that differ only in the order of modes, schedules, days, packages, rules and applications give equal results. |
| `PolicyCanonicalForm.BuildAccepts` | backend/app/policy_contract_v3.py:720-758 | A payload can be enveloped exactly when the header is well formed, the payload is accepted and its capabilities, with those its network section adds, number at most 64. |
| `PolicyCanonicalForm.EnvelopeSurvives` | backend/app/policy_contract_v3.py:720-809 | Every payload that can be enveloped survives building, signing and verifying unchanged. |
| `PolicyCanonicalForm.VerifiesExactly` | backend/app/policy_contract_v3.py:761-809 | An envelope verifies exactly when its signature does, its header is well formed, and its payload is valid, in normal form, and what was hashed; it is given back unchanged. |
| `PolicyCanonicalForm.FullCapabilitiesCannotBeEnveloped` | backend/app/policy_contract_v3.py:384-395 | An accepted policy with 64 other capabilities and a network section cannot be enveloped. |
| `PolicyCapacity.LastCapabilityCannotBeEnveloped` | backend/app/policy_contract_v3.py:384-395 | A concrete family: a policy asking for n capabilities beside a network section is accepted exactly up to n = 64 and can be enveloped exactly below. |
| `PolicyCanonicalForm.NormalDomainFixed` | backend/app/policy_contract_v3.py:145-159 | Normalising a normalised domain changes nothing. |
| `DeviceAuditService.AuditIngestion.IngestDeviceAuditBatch` | backend/app/services/device_audit_ingestion.py:46-153 | An upload is accepted exactly when it repeats a stored batch of its sender or goes on where the history of its device ends; the receipt names the last event that is then stored and its hash; refusals change nothing. |
| `DeviceAuditService.AddEvents` | backend/app/services/device_audit_ingestion.py:106-136 | The loop over events adds the rows in order and their entries in the unique indexes. |
| `DeviceAudit.CheckedIsChain` | backend/app/device_audit_contract.py:268-283 | A batch that passes the contract is a numbered, hash-linked chain of its own. |
| `DeviceAuditLog.AppendKeepsValid` | backend/app/services/device_audit_ingestion.py:87-140 | Appending a batch that fits keeps numbering, links, tiling and heads of every device, and only extends histories. |
| `DeviceAudit.IngestKeepsValid` | backend/app/services/device_audit_ingestion.py:46-153 | One upload, accepted or refused, keeps all evidence in order. |
| `EvidenceAcceptance.BatchExactly` | backend/app/device_audit_contract.py:161-283 | A batch is in order exactly when its header, the fields and metadata of every event, the numbering, the links and the hashes meet the requirements, written out one by one. |
| `DeviceAuditReceipts.NewBatchAcceptedExactly` | backend/app/services/device_audit_ingestion.py:72-153 | A batch not stored before is accepted exactly when sender, signature and events are in order, it goes on where the stored history of the device ends, and none of its event UUIDs and hashes is stored; the other unique indexes never object. |
| `DeviceAuditReceipts.StoredBatchAcceptedExactly` | backend/app/services/device_audit_ingestion.py:57-70 | A stored batch is accepted again exactly from the same active device and credential with the same content, and nothing changes. |
| `DeviceAuditReceipts.ReceiptTells` | backend/app/services/device_audit_ingestion.py:169-175 | The receipt of an accepted upload names the position and hash of a stored event; of a new batch it is the last event of the whole history, which is the old one followed by the events of the batch. |
| `DeviceAuditReceipts.AcknowledgedStays` | backend/app/services/device_audit_ingestion.py:72-175 | After any later uploads the acknowledged event is still stored at its position, with all events before it. |
| `DeviceAudit.RunKeepsValid` | backend/app/services/device_audit_ingestion.py:72-140 | Every run of ingestion keeps events numbered 1 to the last sequence, linked, tiled by batches, with the head equal to the last hash. |
| `DeviceAudit.EqualHeadsEqualHistories` | backend/app/device_audit_contract.py:206-265 | Equal heads after any two runs mean equal whole histories up to NFC, unless two events of these histories differ and have one digest. |
| `DeviceAuditCoverage.EqualHeadsEqualEvidence` | backend/app/device_audit_contract.py:206-265 | Field by field: devices with equal heads, after any two runs, have the same evidence unless two of their events collide. |
| `DeviceAuditCoverage.BatchIsCovered` | backend/app/device_audit_contract.py:286-328 | What is signed of a batch fixes every field of it and of its events. |
| `DeviceAuditCoverage.ContentIsCovered` | backend/app/services/device_audit_ingestion.py:57-70 | A payload passes for a retransmission only if it agrees with the stored one in the whole batch and the signature, unless the two collide. |
| `DeviceAudit.RetransmissionsChangeNothing` | backend/app/services/device_audit_ingestion.py:57-70 | A run with retransmissions at any later points ends in the same state as the run without them. |
| `DeviceAudit.RetryRepeatsReceipt` | backend/app/services/device_audit_ingestion.py:169-175 | Whatever comes in between, a retry gets the first receipt with only `replayed` changed. |
| `DeviceAuditBuilding.CheckMetadata` | backend/app/device_audit_contract.py:130-158 | The loop over a dictionary accepts exactly the permitted metadata and gives it back in key order. |
| `DeviceAuditBuilding.RebuildingIsStable` | backend/app/device_audit_contract.py:161-218 | A rebuilt event is in order and rebuilds to itself. |
| `DeviceAuditBuilding.BuiltEventValidates` | backend/app/device_audit_contract.py:206-228 | An event that was built validates, to itself, given that digests are 64 lower-case hexadecimal characters. |
| `DeviceAuditBuilding.BuiltBatchIsChecked` | backend/app/device_audit_contract.py:231-283 | A batch that was built passes validation and is its own checked form. |
| `DeviceAuditBuilding.BuiltBatchVerifies` | backend/app/device_audit_contract.py:231-328 | A batch that was built and signed verifies against exactly the head and number its first event continues. |
| `DeviceAuditBuilding.ValidIsBuilt` | backend/app/device_audit_contract.py:206-283 | Whatever validates can be built, and what is built is its checked form. |
| `AuditChain.VerifyChain` | backend/app/services/audit_verification.py:22-117 | The verifying loop accepts exactly the chains whose events, read by time, link up and end in the stored head. |
| `AuditChain.SameHeadSameLinks` | backend/app/services/audit_verification.py:22-117 | Two event lists accepted against the same head are identical, unless two of their events collide. |
| `AuditChain.OnlyTheHistoryVerifies` | backend/app/services/audit_verification.py:22-117 | Rows that pass against a stored head carry exactly the evidence that was appended, in that order, unless one of them collides with an appended one. |
| `AuditChain.AppendKeeps` | backend/app/services/policy_assignments.py:253-304 | Appending an event keeps every chain of the table linked. |
| `AuditChain.VerifiesExactlyInTime` | backend/app/services/audit_verification.py:22-52 | A chain of the appender without colliding events verifies exactly when the clock never went back between two of them. |
| `AuditChain.AppendVerifiesExactlyInTime` | backend/app/services/audit_verification.py:22-52 | A chain that verifies goes on verifying after an append exactly when none of its events is later than the new one. |
| `AuditChain.ClockGoingBackIsRefused` | backend/app/services/audit_verification.py:22-52 | The smallest failing chain: two events of the appender, the second recorded earlier, are linked and yet refused. |
| `PolicyAssignments.AssignmentService.ReplacePolicyAssignment` | backend/app/services/policy_assignments.py:56-167 | Every check in order, the superseded row, the new row and its event, or a rollback, as specified. |
| `PolicyAssignments.AssignmentService.ReplaceCurrent` | backend/app/services/policy_assignments.py:112-150 | The part of the replacement that follows the lookups. |
| `PolicyAssignments.AssignmentService.ClearPolicyAssignment` | backend/app/services/policy_assignments.py:170-230 | Clearing supersedes the current row and records it, or refuses and changes nothing. |
| `PolicyAssignments.AssignmentService.AppendAssignmentEvent` | backend/app/services/policy_assignments.py:253-304 | The event is linked to the stored head and the head is created or moved, unless a unique index objects. |
| `PolicyAssignments.ExecuteKeepsValid` | backend/app/services/policy_assignments.py:112-150 | Every call keeps at most one active assignment for each device, the status constraint, and chains that tell, event by event, what was assigned before and after. |
| `PolicyAssignments.NeverAmbiguous` | backend/app/services/policy_assignments.py:112-119 | The query for the current assignment never finds two. |
| `PolicyAssignments.OnlyTheNamedDeviceChanges` | backend/app/services/policy_assignments.py:124-150 | Only the named device gets another current assignment: the new one, or none. |
| `PolicyAssignments.ReplacementAssigns` | backend/app/services/policy_assignments.py:120-150 | A replacement assigns the requested revision; nothing changes exactly when it was assigned already; `replaced` reports a superseded predecessor. |
| `PolicyAssignments.ReplacementIsCurrent` | backend/app/services/policy_assignments.py:112-150 | After an accepted replacement the device has exactly one active assignment, of the requested revision. |
| `PolicyAssignments.RefusedByIndexOnly` | backend/app/services/policy_assignments.py:144-164 | A replacement that passes the lookups is refused only when its event UUID or digest is already taken. |
| `PolicyAssignments.AcceptedExactly` | backend/app/services/policy_assignments.py:56-230 | A replacement or clearing is refused unless an administrator who may assign asks, in order, for an active device and an assignable revision, or to end an assignment there is; such a request is refused only by a unique index. |
| `PolicyAssignments.ClearingClears` | backend/app/services/policy_assignments.py:170-230 | An accepted clearing answers and ends exactly the current assignment, no row is active afterwards, and without a current assignment it is a conflict. |
| `PolicyAssignments.ReplacementRows` | backend/app/services/policy_assignments.py:112-150 | A replacement ends the row there was and adds one row that says who assigned what to whom, when and why; all other rows stay. |
| `PolicyAssignments.ChangesAreTold` | backend/app/services/policy_assignments.py:130-148 | Each change adds one event that names administrator, device, reason and the rows it began and ended. |
| `PolicyAssignments.AssignmentsOnlyEnd` | backend/app/services/policy_assignments.py:189-212 | No assignment row is deleted or redirected, and a superseded one never changes. |
| `PolicySync.OneContactConverges` | backend/app/services/policy_sync.py:148-194 | For clients that name their revision and are given a payload: `no_change` exactly when they hold what is assigned, `clear` and `rollback` exactly when due, and one answer makes them hold it. When one is given: `PolicyAnswers.PayloadGivenExactly`. |
| `PolicyAnswers.PayloadGivenExactly` | backend/app/services/policy_sync.py:148-194 | A payload is given exactly to well-formed reports of known, active devices to which nothing is assigned, or exactly one revision that is known, sound and of an active policy; it is `clear` or `no_change` with version 0 in the first case, and follows from that revision in the second. |
| `PolicyAnswers.ProblemReportedExactly` | backend/app/services/policy_sync.py:291-340 | Which error is answered instead, each exactly in its case. |
| `PolicySync.ResolvesAssigned` | backend/app/services/policy_sync.py:291-340 | A resolved state is the revision of the active assignment, or none. |
| `PolicySync.VersionNumbersAloneMayNotConverge` | backend/app/services/policy_sync.py:181-186 | A client that sends only a version number ends up with what is assigned exactly unless it held another revision of the same number. |
| `PolicySync.SameNumberIsNoChange` | backend/app/services/policy_sync.py:181-186 | From any valid server, a client that was sent one revision and reports only its number is told `no_change` once another revision of that number is assigned. |
| `PolicySync.VersionOnlyClientIsStuck` | backend/app/services/policy_sync.py:181-186 | Runs from empty tables: version 1 of one policy is assigned and delivered, version 1 of another is assigned, and the client keeps the first for good; the second call is refused only if the digests of the two events collide. |
| `PolicyDelivery.SynchronizationLog.RecordPolicySyncEvent` | backend/app/services/policy_sync.py:197-283 | The event is linked to the head of its pseudonym and the head is created or moved, unless a unique index objects. |
| `PolicyDelivery.RunKeepsServer` | backend/app/services/policy_sync.py:197-283 | Every run of assignments, clearings and synchronizations keeps the assignment tables in order and both kinds of chain linked. |
| `PolicyDelivery.RunKeepsOk` | backend/app/services/policy_sync.py:148-194 | Along every run a client holds nothing, or the document of a revision that was once assigned to its own device. |
| `PolicyDelivery.SettledStays` | backend/app/services/policy_sync.py:148-194 | A client that holds what is assigned keeps holding it while no request names its device. |
| `PolicyDelivery.ClientsConverge` | backend/app/services/policy_sync.py:148-194 | One contact that can be answered, after the last change, makes the client hold exactly the assigned revision, or nothing, and every further one is answered `no_change`; a contact can be answered when its event is new and the device is owed nothing or one deliverable revision. |
| `PolicyDelivery.ContactSucceedsExactly` | backend/app/services/policy_sync.py:148-283 | A contact is given a payload exactly when it can be answered in that sense. |
| `PolicyDelivery.ClearingReachesTheClient` | backend/app/services/policy_sync.py:313-314 | After an accepted clearing the next contact of the device whose event is new leaves its client holding nothing. |
| `PolicyDelivery.ContactIsRecorded` | backend/app/services/policy_sync.py:197-283 | Every contact that is answered leaves one event at the end of the log, from which the answer can be read back; any other leaves none. |
| `PolicyDelivery.EveryChainVerifies` | backend/app/services/audit_verification.py:22-117 | Under a clock that does not go back, verification accepts every chain after every run from any world whose chains link up. |
| `PolicyDelivery.FromTheStart` | backend/app/services/audit_verification.py:22-117 | After every run from empty tables under such a clock, clients hold only what was assigned to their device, the tables are in order, and every chain verifies. |
| `PolicyDelivery.TamperingIsNoticed` | backend/app/services/audit_verification.py:22-117 | After every run, no edit, deletion, insertion or reordering of rows passes verification, unless a presented row collides with a recorded one. |
| `NonceTable.NoReplayInTime` | backend/app/services/device_authentication.py:174-199 | While the nonce lifetime exceeds twice the skew plus the delay, no run accepts two requests with the same timestamp, credential and nonce. |
| `NonceTable.ReplayOutOfTime` | backend/app/services/device_authentication.py:174-199 | Once they reach the lifetime, a request sent as early and as late as allowed is accepted twice. |
| `DeviceAuthentication.ReplayBound` | backend/app/services/device_authentication.py:242-253 | A request can be replayed exactly when it is genuine and twice the skew plus the delay reach the nonce lifetime. |
| `DeviceAuthentication.DefaultsLieOnTheBound` | backend/app/config.py:139-140 | With 300 and 600 seconds every genuine request can be replayed, even without delay. |
| `DeviceAuthentication.SignatureStandsForOneRequest` | backend/app/services/device_authentication.py:131-172 | Genuine requests with the same signed text have the same method, path, query, time, nonce, credential, device and, unless their bodies collide, body. |
| `DeviceAuthentication.SignaturesAre256Bytes` | backend/app/services/device_authentication.py:131-160 | Whatever the algorithm, the header check and the decoding pass exactly the encodings of 256 bytes. |
| `DeviceAuthentication.VerifyingSignaturePasses` | backend/app/services/device_authentication.py:131-172 | A request in order otherwise, sent with a signature that verifies, is genuine exactly when that signature has 256 bytes. |
| `EcdsaCredentials.EcdsaNeverPasses` | backend/app/services/device_authentication.py:156-168 | If the library accepts ECDSA signatures as DER pairs of P-256 integers only, no request with an ECDSA credential is ever admitted as signed. |
| `EcdsaCredentials.EcdsaSenderIsTurnedAway` | backend/app/services/device_authentication.py:131-172 | The failing inputs: for every device, accepted target, body, time and nonce, the request is in order, and with any DER signature by an ECDSA credential it is turned away, the tables unchanged. |
| `DeviceAuthentication.SignatureNeededExactly` | backend/app/services/device_authentication.py:78-129 | Everything admitted for a device is genuine, in time and has an unspent nonce exactly when the route is not open to everybody and the device is not a tolerated old one without credential. |
| `SignedRequests.SignedExactly` | backend/app/services/device_authentication.py:78-205 | A request is admitted as signed exactly when the header names an active credential of the device, whose key verifies the signature over method, path, query, body digest, time, nonce, credential and device of this request, in time, with an unspent nonce and allowed query names. |
| `SignedRequests.RevokedIsTurnedAway` | backend/app/services/device_authentication.py:119-129 | Without an active credential of the UUID that the header names a request is turned away and nothing changes. |
| `SignedRequests.UnsignedExactly` | backend/app/services/device_authentication.py:78-118 | Who gets in without a signature: everybody on a tolerant route in legacy mode, and on one while only new devices must sign, devices registered as old to which no credential was ever given. |
| `DeviceAuthenticationService.DeviceAuthenticator.AuthenticateDeviceRequest` | backend/app/services/device_authentication.py:78-205 | Open routes and tolerated old devices are told apart, each exactly in its case; otherwise a request is admitted exactly when an active credential of the device signed it as it is, in time, with an unspent nonce, and the nonce is kept for its whole lifetime; anything else changes nothing. |
| `DeviceAuthenticationService.DeviceAuthenticator.AuthenticateCredential` | backend/app/services/device_authentication.py:119-205 | It accepts exactly the requests that an active credential of the device signed, in time and with an unspent nonce, and stores the nonce or rolls everything back. |
| `DeviceAuthenticationService.DeviceAuthenticator.StoreNonce` | backend/app/services/device_authentication.py:174-199 | Expired nonces are deleted, use and nonce recorded, and all of it undone when the nonce is taken. |
| `DeviceAuthenticationService.DeviceAuthenticator.SignedInTime` | backend/app/services/device_authentication.py:131-172 | Headers, time, target, query names, body and signature are checked as specified. |
| `AdministratorAccounts.LifecycleKept` | backend/app/models.py:225-234 | Login attempts, resets and disabling keep the lifecycle constraint; no attempt or reset disables or revives an account. |
| `AdministratorAccounts.LockoutBound` | backend/app/services/administrator_login.py:107-152 | In any run of failed logins from a fresh account at most 5 plus one for each whole 15 minutes it spans were made while the right password would have worked. |
| `AdministratorAccounts.LockoutBoundIsReached` | backend/app/services/administrator_login.py:107-152 | The bound is attained for every number of lock periods. |
| `AdministratorAccounts.AttemptsTell` | backend/app/services/administrator_login.py:98-155 | From a fresh account, after any history of attempts, the row tells how many failed since the last success: fewer than five never lock, the fifth does, a success starts over, and a lock lasts 15 minutes from an attempt at which the right password would have worked. |
| `Administrators.AdministratorService.AuthenticateAdministrator` | backend/app/services/administrator_login.py:62-188 | A login changes the account and adds a session as specified; an unusable token identifier rolls everything back. |
| `Administrators.AdministratorService.CountAttempt` | backend/app/services/administrator_login.py:98-155 | The lockout machine updates the row field by field as specified. |
| `Administrators.AdministratorService.RevokeActiveSessions` | backend/app/services/administrator_authentication.py:573-592 | The loop revokes exactly the usable sessions of the account and counts them. |
| `Administrators.AdministratorService.Revoke` | backend/app/services/administrator_authentication.py:472-507 | Revocation ends the usable sessions of the account, or refuses and changes nothing. |
| `Administrators.AdministratorService.Create` | backend/app/services/administrator_authentication.py:300-379 | An operator who proves the password adds an account with a new name; everything else is refused. |
| `Administrators.AdministratorService.Disable` | backend/app/services/administrator_authentication.py:427-469 | Disabling updates the account and revokes its sessions, or refuses and changes nothing. |
| `Administrators.AdministratorService.Reset` | backend/app/services/administrator_authentication.py:380-424 | A reset replaces the password, unlocks and revokes sessions, or refuses and changes nothing. |
| `Administrators.AdministratorService.Replace` | backend/app/services/administrator_authentication.py:120-192 | Permissions are replaced unless that would remove the last management capability. |
| `AdministratorOutcomes.LoggingInExactly` | backend/app/services/administrator_login.py:62-188 | A login succeeds exactly with the password of an account that is active or whose lock has run out, and a new token identifier; it then clears the failures and adds the one session of 15 minutes that the token stands for. |
| `AdministratorOutcomes.ContextExactly` | backend/app/administrator_authorization.py:196-256 | A token is accepted exactly as the unrevoked, unexpired session with its identifier, of an active account with its UUID. |
| `AdministratorOutcomes.CreatingExactly` | backend/app/services/administrator_authentication.py:300-379 | An account is created exactly under a new name and UUID by an active manager who proves the password again; it is active and holds every permission. |
| `AdministratorOutcomes.ReplacingExactly` | backend/app/services/administrator_authentication.py:120-192 | Permissions are replaced by exactly the listed ones unless one is listed twice or the last manager would give up managing. |
| `AdministratorOutcomes.DisablingExactly` | backend/app/services/administrator_authentication.py:427-469 | Exactly the accounts that are not disabled can be disabled; the usable sessions of the account end, and nothing else changes. |
| `AdministratorOutcomes.ResettingExactly` | backend/app/services/administrator_authentication.py:380-424 | A reset succeeds with any acceptable password, unlocks but does not revive, and ends the usable sessions of the account. |
| `AdministratorOutcomes.OnlyTheAuthorized` | backend/app/routes/auth.py:178-391 | No management request is carried out without a session of an active manager whose password is given again. |
| `Administrators.LogoutEndsOneToken` | backend/app/administrator_authorization.py:138-160 | A logout succeeds exactly for a token that is accepted; afterwards tokens with its identifier are refused at every time, and every other token stands for what it stood for. |
| `Administrators.AdministratorService.LogOutSession` | backend/app/administrator_authorization.py:138-160 | The same of the service: one token ends, accounts and all other tokens are unaffected, and a refusal changes nothing. |
| `AdministratorSafety.RunKeeps` | backend/app/services/administrator_authentication.py:380-507 | Every run keeps lifecycles and unique columns; disabled accounts stay disabled; sessions are only added or revoked. |
| `AdministratorSafety.EndedSessionsStayOut` | backend/app/services/administrator_authentication.py:380-507 | After a disabling, password reset or session revocation, no token issued for the account before is accepted at any later time. |
| `AdministratorSafety.LoggedOutStaysOut` | backend/app/administrator_authorization.py:138-160 | A token that logged out is never accepted again. |
| `AdministratorSafety.DeadSessionsStayDead` | backend/app/administrator_authorization.py:196-256 | A revoked or expired session is never accepted again, whatever happens next. |
| `AdministratorSafety.DisabledIsFinal` | backend/app/administrator_authorization.py:238-243 | A disabled account stays disabled, cannot log in, and none of its sessions is accepted. |
| `AdministratorSafety.OthersAreLeftAlone` | backend/app/services/administrator_authentication.py:573-592 | Other accounts and their sessions are untouched, and the reported count is the number of sessions revoked. |
| `AdministratorSafety.ResetTakesEffect` | backend/app/services/administrator_authentication.py:391-406 | After a reset exactly the passwords that match the new one work, even on an account that was locked. |
| `AdministratorSafety.LoginIsAccepted` | backend/app/services/administrator_login.py:154-171 | The token of a login stands for the session it added, until that expires. |
| `AdministratorSafety.ManagementSurvives` | backend/app/services/administrator_authentication.py:120-213 | Each completed permission replacement or guarded disabling leaves an active account that may manage administrators. |
| `AdministratorSafety.ManagementIsNeverLost` | backend/app/routes/auth.py:332-351 | After any run of requests, lockouts, resets and creations some account that is not disabled holds `administrator.manage`. |
| `AdministratorSafety.BootstrapStartsManagement` | backend/app/services/administrator_authentication.py:216-271 | The same from the first start on. |
| `DeviceEnrollment.RunKeeps` | backend/app/services/device_enrollment.py:176-464 | Every run keeps the constraints of tokens and credentials; tokens that are not active and credentials that are not usable never change again; API levels never fall. |
| `DeviceEnrollment.TokensAreConsumedOnce` | backend/app/services/device_enrollment.py:211-340 | A consumed token stands for exactly one credential, on the device it was bound to if any, other tokens for none; failures never exceed 5. |
| `DeviceEnrollment.OneUsableCredential` | backend/app/services/device_enrollment.py:245-248 | No device ever has two active credentials. |
| `DeviceEnrollment.ChainsEnd` | backend/app/services/device_enrollment.py:360-388 | Rotation chains stay on one device, end in a credential that was not superseded, and do not merge. |
| `DeviceEnrollment.WrongSecretsLock` | backend/app/services/device_enrollment.py:443-464 | A wrong secret never enrolls; it counts one failure, and the fifth locks the token. |
| `DeviceEnrollment.EnrollCases` | backend/app/services/device_enrollment.py:211-271 | An enrollment changes nothing unless the token that its pairing text names is active. |
| `DeviceEnrollment.EnrollsExactly` | backend/app/services/device_enrollment.py:211-340 | A request enrolls exactly when some token is active, in time, named with its secret, meant for this device, and the request proves a new key without downgrading. |
| `EnrollmentProofs.JoinsExactly` | backend/app/services/device_enrollment.py:211-340 | The same over rows and signed bytes: a request enrolls exactly when it presents the text of an active token in time, from a device the token is for, with a new key that verifies the signature over the enrollment message of this request. |
| `EnrollmentProofs.RefusalTells` | backend/app/services/device_enrollment.py:235-340 | A request that presents its token and is refused counts one failure exactly for a wrong device, and for a missing proof or a downgrade where no credential is in the way. |
| `EnrollmentProofs.RotatesExactly` | backend/app/services/device_enrollment.py:343-388 | A rotation succeeds exactly for a usable credential, when a new key verifies the signature over the rotation message; the credential is then superseded by one with that key. |
| `EnrollmentProofs.IssuesExactly` | backend/app/services/device_enrollment.py:97-173 | A token is issued exactly for a known device, or for none, at a known place, while administration is enabled and its UUID is new. |
| `DeviceEnrollment.IssuedTokenEnrolls` | backend/app/services/device_enrollment.py:97-340 | After any run that does not name it, an issued token, bound or not, enrolls exactly the requests in time, from a device it is for, that prove a new key; it is consumed and one usable credential is added. |
| `DeviceEnrollment.RevokedTokenNeverEnrolls` | backend/app/services/device_enrollment.py:176-208 | Once a revocation has found a token, no request presenting it enrolls after any later run. |
| `DeviceEnrollment.EnrollmentService.IssueEnrollmentToken` | backend/app/services/device_enrollment.py:97-173 | The token handed out parses back to the identifier and secret of the one active row that was added, bound to the named device and valid for the configured time; a refusal changes nothing. |
| `DeviceEnrollment.EnrollmentService.EnrollDevice` | backend/app/services/device_enrollment.py:211-233 | Token lookup, expiry and secret are checked, and failures recorded, as specified. |
| `DeviceEnrollment.EnrollmentService.EnrollWithToken` | backend/app/services/device_enrollment.py:235-340 | Device, proof and downgrade checks, then device, credential and token change together or not at all. |
| `DeviceEnrollment.EnrollmentService.RotateDeviceCredential` | backend/app/services/device_enrollment.py:343-388 | The current credential is superseded by a new one, or nothing changes. |
| `DeviceEnrollment.EnrollmentService.RevokeDeviceCredential` | backend/app/services/device_enrollment.py:391-426 | It succeeds exactly when the device has a usable credential; exactly that one is withdrawn, and none is left. |
| `DeviceEnrollment.EnrollmentService.RevokeEnrollmentToken` | backend/app/services/device_enrollment.py:176-208 | It succeeds exactly when there is an active token with this identifier; exactly that one is revoked, and unknown identifiers are told apart. |
| `DeviceEnrollment.EnrollmentService.RecordFailedEnrollment` | backend/app/services/device_enrollment.py:443-451 | Only an active token counts failures, up to 5, and the fifth locks it. |
| `Observations.RunKeepsProjected` | backend/app/services/device_status.py:99-123 | After any run each state row equals the stored report with the greatest observed time, ties going to the later arrival. |
| `Observations.OrderMattersExactly` | backend/app/services/device_status.py:99-123 | All runs that deliver the same set of reports, in any order and number, show the same of a device exactly when its reports with the greatest observed time have the same columns. |
| `Observations.OrderDoesNotMatter` | backend/app/services/device_status.py:106-123 | The half for two given runs: they show the same of a device whose newest reports agree. |
| `Observations.TiesGoToTheLaterArrival` | backend/app/services/device_status.py:106-108 | The smallest case of order mattering: of two reports observed at the same time the later arrival is shown. |
| `Observations.ReplayIsSilent` | backend/app/services/device_status.py:63-72 | An exact replay changes nothing at all. |
| `Observations.RedeliveryExactly` | backend/app/services/device_status.py:63-72 | A report under a stored UUID passes for the stored one exactly when device, credential and content hash are the same, and is a conflict otherwise; nothing changes. |
| `DeviceStatus.RunKeepsValid` | backend/app/services/device_status.py:59-126 | Compliance and policy state are last-observed-wins projections after every run. |
| `DeviceStatus.ComplianceSays` | backend/app/services/device_status.py:99-123 | Field by field: after any run the compliance row of a device says what its last check-in said. |
| `DeviceStatus.PolicyStateSays` | backend/app/services/device_status.py:190-213 | The same of the policy state and the last acknowledgement. |
| `DeviceStatus.CheckInStoredExactly` | backend/app/services/device_status.py:45-126 | A new check-in is stored exactly when it is in order, from an active device and credential, with the versions on record and a new UUID. |
| `DeviceStatus.AcknowledgementStoredExactly` | backend/app/services/device_status.py:140-216 | So is a new acknowledgement of no policy or of a known revision. |
| `DeviceStatus.ComplianceConverges` | backend/app/services/device_status.py:59-126 | Runs with the same check-ins, in any order, with any repetitions and other traffic, end with the same compliance of every device whose newest check-ins agree. |
| `DeviceStatus.ComplianceConvergesExactly` | backend/app/services/device_status.py:59-126 | For given devices, a set of check-ins determines the compliance shown of a device, whatever the run, exactly when its newest check-ins agree. |
| `DeviceStatus.PolicyStateConverges` | backend/app/services/device_status.py:147-216 | The same for acknowledgements of known revisions and the reported policy state. |
| `DeviceStatus.PolicyStateConvergesExactly` | backend/app/services/device_status.py:147-216 | A set of acknowledgements of known revisions determines the policy state shown of a device exactly when its newest acknowledgements agree. |
| `DeviceStatus.DeviceStatusService.StoreCheckIn` | backend/app/services/device_status.py:45-126 | A check-in is stored once and overwrites the compliance row when it is observed no earlier. |
| `DeviceStatus.DeviceStatusService.StoreAcknowledgement` | backend/app/services/device_status.py:140-216 | An acknowledgement is stored once and overwrites the policy state row when it is observed no earlier. |
| `AuditPaging.ListEvents` | backend/app/services/admin_read.py:230-242 | The page cut out of the first rows of every source is the page of the whole merged history. |
| `AuditPaging.PageIsPageOfFullMerge` | backend/app/routes/dpc_controls.py:197-224 | For any sorted sources, offset and size, both ways of paging give the same page. |
| `AuditPaging.PagesTileHistory` | backend/app/services/admin_read.py:230-242 | Consecutive pages, each computed on its own, tile the merged history. |
| `AuditPaging.PagesGoBack` | backend/app/services/admin_read.py:230-242 | A page shows events from the newest down. |
| `AuditPaging.IsoOrder` | backend/app/admin_api.py:75-80 | Sorting by the printed times is sorting by time, with or without fractions of a second. |
| `AuditPaging.LeaveOut` | backend/app/services/admin_read.py:237-237 | In a stable sort an element comes after every earlier one that may precede it, and leaving it out moves nothing else. |
| `DroppedRows.TailDropsPageRight` | backend/app/services/admin_read.py:610-625 | Sources that each drop only a tail of their rows after reading them page right, however many there are. |
| `DroppedRows.LateDropsPageRightExactly` | backend/app/services/admin_read.py:610-625 | One listed source that drops rows after its limit gives every page right exactly when no shown row comes behind a dropped one. |
| `DroppedRows.LateDropsPageRightTogether` | backend/app/services/admin_read.py:218-242 | Any number of such sources, holding no row twice, give every page of their merge right exactly when no shown row comes earlier among all shown rows than in its own source. |
| `DroppedRows.DroppingAfterTheLimitBreaksPages` | backend/app/services/admin_read.py:610-625 | The smallest failing source: its newest row is dropped, and the first page is empty although there is a row to show. |

## Left out

- Cryptography, Unicode normalisation, IDNA and `isprintable`: parameters with the assumptions named above.
- Lone surrogates: Dafny characters are Unicode scalar values.
- JSON outside canonical output: white space, floating-point numbers and other escapes are not parsed.
- Schema field checks (key sets, types, enumerations): payloads are typed records; their value bounds are modelled.
- Size limits of bodies, routing, headers other than those of signed requests, rate limits and logging.
- Interleaving inside one committed call: a call is one atomic step, so row locks and lost updates are not described.
- Failures of the database other than violated constraints.
- Event logs that nothing reads back: enrollment events and administrator authentication events.
- Version 2 envelopes (`policy_contract.py:325-422`): the same construction as the version 3 envelopes that are modelled.
- Server-side hashing of assignment and synchronization evidence: `json.dumps` and SHA-256 together are one digest.
- `DeviceAuthentication.Admit`: a missing `Authorization` header is an empty text; the event rows of failures and of tolerated devices are not modelled.
- `DroppedRows.LateDropsPageRightTogether`: offsets and sizes are unbounded, while requests stop at page 10,000 and 100 rows a page.
- `PolicySync.SyncPayload`: does not model schema-3 documents nor the unversioned contract; revisions carry schema-1 payloads.
- `PolicyDelivery.Next`: models clients that name the revision they hold; what other clients do is stated for one contact only.
- `PolicyAssignments.Execute`: does not model the random UUID of an assignment row, whose collision would be one more conflict.
- `DeviceEnrollment.Enroll`: device columns other than UUID and API level are not modelled; school and revision of a token are only looked up.
- `AdministratorSafety.ManagementIsNeverLost`: excludes the disabling from the host's shell, which skips the guard.
- `Administrators.Login`: one clock reading serves the lockout, the token and the session; the JWT library's own expiry check is not modelled.
- `Administrators.Manage`: the composition of the management routes, like `Bootstrap`, is a function only, without a method; permission rows of an account are a set.
- `AuditPaging.ListEvents`: models the contents of a page, not `total` and `has_next`, and sources that keep every row they read; the order of equal times within a source is taken as given.
- `DeviceStatus.RecordCheckIn`: validation of the report is a predicate; the copied columns are held together in one record.
- Device block overrides, usage reports, asset privacy, incidents, school registration, translation and the frontend: lighter than the protocols above.
