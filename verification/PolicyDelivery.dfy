/** Whole runs of policy assignment and synchronization (`backend/app/services/policy_assignments.py`,
    `backend/app/services/policy_sync.py`, `backend/app/routes/sync.py`): clients converge, and the
    audit chains written on the way pass verification. */
module PolicyDelivery {
  import opened Wrappers
  import opened Ordering
  import opened Reordering
  import opened AuditChain
  import opened Base64Url
  import opened PolicySync
  import opened PolicyAnswers
  import PA = PolicyAssignments

  datatype LoggedOperation = Told(operation: Operation) | Blocked | Error

  datatype Outcome = Success | NoAssignment | NotFound | DeviceInactive | PolicyUnusable | PolicyWithdrawn
                   | AssignmentCorruption | Mismatch | InvalidRequest

  /** The hashed body of a synchronization event, without its time and predecessor. */
  datatype Evidence = Evidence(credentialId: Option<int>, deviceId: Option<int>, eventUuid: string,
                               operation: LoggedOperation, outcome: Outcome, reportedPolicy: Option<string>,
                               reportedRevision: Option<string>, reportedVersion: Option<int>, pseudonym: string,
                               serverVersion: Option<int>)

  /** The authenticated device and credential. */
  datatype Actor = Actor(deviceId: int, credentialId: int)

  datatype Tools = Tools(assigning: PA.Tools, digest: Digest<Evidence>, pseudonym: string -> string)

  function PseudonymKey(): Evidence -> string { (e: Evidence) => e.pseudonym }

  function UuidKey(): Evidence -> string { (e: Evidence) => e.eventUuid }

  /** The route parses the report before the service sees the device. */
  function Answered(v: View, s: PA.Store, device: string, report: Report): Answer {
    if !VersionOk(report) then Failed(InvalidVersion)
    else if !IdentityOk(report) then Failed(InvalidIdentity)
    else SyncPayload(v, s, device, report)
  }

  /** The event each answer is recorded as. */
  function EventFor(t: Tools, device: string, report: Report, actor: Actor, answer: Answer, uuid: string): Evidence {
    var credential, known, version := Some(actor.credentialId), Some(actor.deviceId), Some(report.version);
    var pseudonym := t.pseudonym(device);
    match answer
    case Payload(operation, server, policy) =>
      Evidence(credential, known, uuid, Told(operation), if policy.None? then NoAssignment else Success, report.policy,
               report.revision, version, pseudonym, Some(server))
    case Failed(InvalidVersion) =>
      Evidence(credential, known, uuid, Error, InvalidRequest, None, None, None, pseudonym, None)
    case Failed(InvalidIdentity) =>
      Evidence(credential, known, uuid, Error, InvalidRequest, None, None, version, pseudonym, None)
    case Failed(InvalidDevice) =>
      Evidence(None, None, uuid, Error, InvalidRequest, report.policy, report.revision, version, pseudonym, None)
    case Failed(DeviceNotFound) =>
      Evidence(credential, None, uuid, Error, NotFound, report.policy, report.revision, version, pseudonym, None)
    case Failed(DeviceBlocked(d)) =>
      Evidence(credential, Some(d), uuid, Blocked, DeviceInactive, report.policy, report.revision, version, pseudonym,
               None)
    case Failed(AssignmentIntegrity(d)) =>
      Evidence(credential, Some(d), uuid, Error, AssignmentCorruption, report.policy, report.revision, version, pseudonym,
               None)
    case Failed(PolicyRevoked(d, server)) =>
      Evidence(credential, Some(d), uuid, Blocked, PolicyWithdrawn, report.policy, report.revision, version, pseudonym,
               Some(server))
    case Failed(PolicyInactive(d, server)) =>
      Evidence(credential, Some(d), uuid, Blocked, PolicyUnusable, report.policy, report.revision, version, pseudonym,
               Some(server))
    case Failed(RevisionMismatch(d, server)) =>
      Evidence(credential, Some(d), uuid, Error, Mismatch, report.policy, report.revision, version, pseudonym, Some(server))
    case Failed(AuditUnavailable) =>
      Evidence(credential, known, uuid, Error, InvalidRequest, None, None, None, pseudonym, None)
  }

  // ----- runs

  datatype World = World(server: PA.Store, log: Table<Evidence, string>, clients: map<string, Document>)

  const START := World(PA.EMPTY, Table([], map[]), map[])

  /** An administrative call, or a contact of a client that names the revision it holds. */
  datatype Step = Administer(m: PA.Moment, req: PA.Request)
                | Contact(v: View, device: string, actor: Actor, at: int, eventUuid: string)

  function Held(w: World, device: string): Option<Document> {
    if device in w.clients then Some(w.clients[device]) else None
  }

  /** The answer is given only once its event has been recorded. */
  function Exchange(t: Tools, w: World, c: Step): (Answer, Table<Evidence, string>)
    requires c.Contact?
  {
    var report := IdentityReport(Held(w, c.device));
    var answer := Answered(c.v, w.server, c.device, report);
    var body := EventFor(t, c.device, report, c.actor, answer, c.eventUuid);
    if Taken(t.digest, PseudonymKey(), UuidKey(), w.log, body, c.at) then (Failed(AuditUnavailable), w.log)
    else (answer, Append(t.digest, PseudonymKey(), w.log, body, c.at))
  }

  function Next(t: Tools, w: World, step: Step): World {
    match step
    case Administer(m, req) => w.(server := PA.Execute(t.assigning, w.server, m, req).1)
    case Contact(_, device, _, _, _) =>
      var (answer, log) := Exchange(t, w, step);
      var held := Receive(Held(w, device), answer);
      World(w.server, log, if held.Some? then w.clients[device := held.value] else w.clients - {device})
  }

  function Run(t: Tools, w: World, steps: seq<Step>): World
    decreases |steps|
  {
    if |steps| == 0 then w else Run(t, Next(t, w, steps[0]), steps[1..])
  }

  ghost predicate StepOk(lib: Library, step: Step) {
    match step
    case Administer(m, _) =>
      forall d :: d in m.catalog.devices ==> d in lib.devices && m.catalog.devices[d].id == lib.devices[d]
    case Contact(v, _, _, _, _) => ViewOk(lib, v)
  }

  ghost predicate StepsOk(lib: Library, steps: seq<Step>) { forall k :: 0 <= k < |steps| ==> StepOk(lib, steps[k]) }

  /** The assignment tables are in order and all chains link up. */
  ghost predicate ServerOk(t: Tools, w: World) {
    PA.Valid(t.assigning, w.server) && Kept(t.digest, PseudonymKey(), w.log)
  }

  /** Assignment `i` gave the document to the device. */
  ghost predicate GivenBy(lib: Library, s: PA.Store, device: int, i: int, document: Document) {
    && 0 <= i < |s.assignments| && s.assignments[i].deviceId == device
    && s.assignments[i].revisionId in lib.revisions
    && DocumentOf(lib.revisions[s.assignments[i].revisionId]) == document
  }

  /** What a client holds is the document of a revision that was once assigned to its device. */
  ghost predicate OnceAssigned(lib: Library, s: PA.Store, device: string, held: Option<Document>) {
    held.Some? ==> device in lib.devices && exists i :: GivenBy(lib, s, lib.devices[device], i, held.value)
  }

  ghost predicate WorldOk(t: Tools, lib: Library, w: World) {
    ServerOk(t, w) && forall d :: OnceAssigned(lib, w.server, d, Held(w, d))
  }

  lemma OnceAssignedIsGenuine(lib: Library, s: PA.Store, device: string, held: Option<Document>)
    requires OnceAssigned(lib, s, device, held)
    ensures Genuine(lib, held)
  {
    if held.Some? {
      var i :| GivenBy(lib, s, lib.devices[device], i, held.value);
      assert s.assignments[i].revisionId in lib.revisions;
    }
  }

  lemma OnceAssignedStays(lib: Library, before: PA.Store, after: PA.Store, device: string, held: Option<Document>)
    requires OnceAssigned(lib, before, device, held) && PA.OnlyEnds(before.assignments, after.assignments)
    ensures OnceAssigned(lib, after, device, held)
  {
    if held.Some? {
      var i :| GivenBy(lib, before, lib.devices[device], i, held.value);
      var row := after.assignments[i].(active := false, supersededAt := None);
      assert row.deviceId == before.assignments[i].deviceId && row.revisionId == before.assignments[i].revisionId;
      assert GivenBy(lib, after, lib.devices[device], i, held.value);
    }
  }

  lemma AssignedIsOnceAssigned(lib: Library, s: PA.Store, device: string)
    requires device in lib.devices
    ensures OnceAssigned(lib, s, device, AssignedTo(lib, s, lib.devices[device]))
  {
    var current := PA.Current(s, lib.devices[device]);
    if AssignedTo(lib, s, lib.devices[device]).Some? {
      assert GivenBy(lib, s, lib.devices[device], current.value, AssignedTo(lib, s, lib.devices[device]).value);
    }
  }

  lemma StartIsOk(t: Tools, lib: Library)
    ensures WorldOk(t, lib, START)
  {
    PA.EmptyIsValid(t.assigning);
    forall k ensures ChainKept(t.digest, PseudonymKey(), START.log, k) {
      assert RowsFor(PseudonymKey(), START.log.rows, k) == [];
    }
  }

  lemma NextKeepsServer(t: Tools, w: World, step: Step)
    requires ServerOk(t, w)
    ensures ServerOk(t, Next(t, w, step))
  {
    match step
    case Administer(m, req) => PA.ExecuteKeepsValid(t.assigning, w.server, m, req);
    case Contact(v, device, actor, at, uuid) =>
      var report := IdentityReport(Held(w, device));
      AppendKeeps(t.digest, PseudonymKey(), w.log,
                  EventFor(t, device, report, actor, Answered(v, w.server, device, report), uuid), at);
  }

  /** Every run keeps the assignment tables in order, with at most one active assignment for each
      device, and keeps both kinds of chain linked. */
  lemma {:induction false} RunKeepsServer(t: Tools, w: World, steps: seq<Step>)
    requires ServerOk(t, w)
    ensures ServerOk(t, Run(t, w, steps))
    decreases |steps|
  {
    if |steps| > 0 {
      NextKeepsServer(t, w, steps[0]);
      RunKeepsServer(t, Next(t, w, steps[0]), steps[1..]);
    }
  }

  lemma HeldAfter(t: Tools, w: World, step: Step, d: string)
    requires step.Contact?
    ensures Held(Next(t, w, step), d)
            == if d == step.device then Receive(Held(w, d), Exchange(t, w, step).0) else Held(w, d)
  {
  }

  lemma ExchangeConverges(t: Tools, lib: Library, w: World, step: Step)
    requires LibraryOk(lib) && WorldOk(t, lib, w) && step.Contact? && StepOk(lib, step)
    ensures var (answer, _) := Exchange(t, w, step);
            && OnceAssigned(lib, w.server, step.device, Receive(Held(w, step.device), answer))
            && (answer.Payload? ==>
                  && step.device in lib.devices
                  && Receive(Held(w, step.device), answer)
                     == AssignedTo(lib, w.server, lib.devices[step.device]) == answer.policy
                  && (answer.operation == NoChange <==>
                        Held(w, step.device) == AssignedTo(lib, w.server, lib.devices[step.device])))
  {
    assert OnceAssigned(lib, w.server, step.device, Held(w, step.device));
    if Exchange(t, w, step).0.Payload? {
      OnceAssignedIsGenuine(lib, w.server, step.device, Held(w, step.device));
      OneContactConverges(lib, step.v, w.server, step.device, Held(w, step.device));
      AssignedIsOnceAssigned(lib, w.server, step.device);
    }
  }

  lemma NextKeepsOk(t: Tools, lib: Library, w: World, step: Step)
    requires LibraryOk(lib) && WorldOk(t, lib, w) && StepOk(lib, step)
    ensures WorldOk(t, lib, Next(t, w, step))
  {
    NextKeepsServer(t, w, step);
    forall d ensures OnceAssigned(lib, Next(t, w, step).server, d, Held(Next(t, w, step), d)) {
      assert OnceAssigned(lib, w.server, d, Held(w, d));
      if step.Contact? {
        HeldAfter(t, w, step, d);
        ExchangeConverges(t, lib, w, step);
      } else {
        PA.AssignmentsOnlyEnd(t.assigning, w.server, step.m, step.req);
        OnceAssignedStays(lib, w.server, Next(t, w, step).server, d, Held(w, d));
      }
    }
  }

  /** Along every run clients only hold documents of revisions that were assigned to their device. */
  lemma {:induction false} RunKeepsOk(t: Tools, lib: Library, w: World, steps: seq<Step>)
    requires LibraryOk(lib) && WorldOk(t, lib, w) && StepsOk(lib, steps)
    ensures WorldOk(t, lib, Run(t, w, steps))
    decreases |steps|
  {
    if |steps| > 0 {
      NextKeepsOk(t, lib, w, steps[0]);
      RunKeepsOk(t, lib, Next(t, w, steps[0]), steps[1..]);
    }
  }

  // ----- convergence

  ghost predicate Settled(lib: Library, w: World, device: string)
    requires device in lib.devices
  {
    Held(w, device) == AssignedTo(lib, w.server, lib.devices[device])
  }

  /** A call about another device leaves the assigned document alone. */
  lemma OthersDoNotMatter(t: Tools, lib: Library, w: World, step: Step, device: string)
    requires LibraryOk(lib) && WorldOk(t, lib, w) && StepOk(lib, step) && device in lib.devices
    requires step.Administer? ==> step.req.device != device
    ensures AssignedTo(lib, Next(t, w, step).server, lib.devices[device])
            == AssignedTo(lib, w.server, lib.devices[device])
  {
    if step.Administer? && !PA.Execute(t.assigning, w.server, step.m, step.req).0.Refused? {
      PA.OnlyTheNamedDeviceChanges(t.assigning, w.server, step.m, step.req, lib.devices[device]);
      PA.AssignmentsOnlyEnd(t.assigning, w.server, step.m, step.req);
      var current := PA.Current(w.server, lib.devices[device]);
      if current.Some? {
        var after := PA.Execute(t.assigning, w.server, step.m, step.req).1;
        assert after.assignments[current.value].(active := false, supersededAt := None).revisionId
            == w.server.assignments[current.value].revisionId;
      }
    }
  }

  /** While no request names a device whose client is settled, it stays settled. */
  lemma {:induction false} SettledStays(t: Tools, lib: Library, w: World, steps: seq<Step>, device: string)
    requires LibraryOk(lib) && WorldOk(t, lib, w) && StepsOk(lib, steps)
    requires device in lib.devices && Settled(lib, w, device)
    requires forall k :: 0 <= k < |steps| && steps[k].Administer? ==> steps[k].req.device != device
    ensures Settled(lib, Run(t, w, steps), device)
    ensures Held(Run(t, w, steps), device) == Held(w, device)
    decreases |steps|
  {
    if |steps| > 0 {
      var step := steps[0];
      NextKeepsOk(t, lib, w, step);
      OthersDoNotMatter(t, lib, w, step, device);
      if step.Contact? {
        HeldAfter(t, w, step, device);
        ExchangeConverges(t, lib, w, step);
      }
      SettledStays(t, lib, Next(t, w, step), steps[1..], device);
    }
  }

  // ----- which contacts succeed

  /** No recorded event has the UUID or the hash of the event of this contact. */
  predicate Recordable(t: Tools, w: World, c: Step)
    requires c.Contact?
  {
    var report := IdentityReport(Held(w, c.device));
    var body := EventFor(t, c.device, report, c.actor, Answered(c.v, w.server, c.device, report), c.eventUuid);
    forall i :: 0 <= i < |w.log.rows| ==>
      && w.log.rows[i].link.body.eventUuid != c.eventUuid
      && w.log.rows[i].link.hash != t.digest(body, c.at, HeadOf(w.log, t.pseudonym(c.device)))
  }

  /** The event can be recorded, and a well-formed report comes from a known, active device that is
      owed nothing or one deliverable revision. */
  ghost predicate Answerable(t: Tools, w: World, c: Step)
    requires c.Contact?
  {
    && Recordable(t, w, c) && IsUuid4(c.device) && WellFormed(IdentityReport(Held(w, c.device)))
    && exists due :: Owed(c.v, w.server, c.device, due)
  }

  lemma RecordedExactly(t: Tools, w: World, c: Step)
    requires c.Contact?
    ensures Exchange(t, w, c).0 != Failed(AuditUnavailable) <==> Recordable(t, w, c)
    ensures Recordable(t, w, c) ==>
              Exchange(t, w, c).0 == Answered(c.v, w.server, c.device, IdentityReport(Held(w, c.device)))
  {
    var report := IdentityReport(Held(w, c.device));
    var answer := Answered(c.v, w.server, c.device, report);
    NamesTheContact(t, c, report, answer);
    TakenExactly(t, w.log, EventFor(t, c.device, report, c.actor, answer, c.eventUuid), c.at);
  }

  lemma NamesTheContact(t: Tools, c: Step, report: Report, answer: Answer)
    requires c.Contact?
    ensures var body := EventFor(t, c.device, report, c.actor, answer, c.eventUuid);
            body.pseudonym == t.pseudonym(c.device) && body.eventUuid == c.eventUuid
  {
  }

  lemma TakenExactly(t: Tools, log: Table<Evidence, string>, body: Evidence, at: int)
    ensures Taken(t.digest, PseudonymKey(), UuidKey(), log, body, at)
       <==> exists i :: 0 <= i < |log.rows| && (log.rows[i].link.body.eventUuid == body.eventUuid
                                                || log.rows[i].link.hash == t.digest(body, at, HeadOf(log, body.pseudonym)))
  {
    assert NextLink(t.digest, PseudonymKey(), log, body, at).hash == t.digest(body, at, HeadOf(log, body.pseudonym));
    assert UuidKey()(body) == body.eventUuid;
    forall i | 0 <= i < |log.rows| ensures UuidKey()(log.rows[i].link.body) == log.rows[i].link.body.eventUuid {
    }
  }

  /** A contact succeeds exactly when it can be answered. */
  lemma ContactSucceedsExactly(t: Tools, w: World, c: Step)
    requires c.Contact?
    ensures Exchange(t, w, c).0.Payload? <==> Answerable(t, w, c)
  {
    RecordedExactly(t, w, c);
    PayloadGivenExactly(c.v, w.server, c.device, IdentityReport(Held(w, c.device)));
  }

  /** One contact that can be answered after the last change is enough: whatever else happens
      afterwards, the client holds exactly the assigned revision, or nothing, and every further contact
      of it that can be answered is answered `no_change`. */
  lemma ClientsConverge(t: Tools, lib: Library, w: World, contact: Step, others: seq<Step>, again: Step)
    requires LibraryOk(lib) && WorldOk(t, lib, w)
    requires StepOk(lib, contact) && StepsOk(lib, others) && StepOk(lib, again)
    requires contact.Contact? && Answerable(t, w, contact)
    requires forall k :: 0 <= k < |others| && others[k].Administer? ==> others[k].req.device != contact.device
    requires again.Contact? && again.device == contact.device
    ensures contact.device in lib.devices
    ensures var later := Run(t, Next(t, w, contact), others);
            && Held(later, contact.device) == AssignedTo(lib, later.server, lib.devices[contact.device])
            && (Answerable(t, later, again) ==>
                  Exchange(t, later, again).0.Payload? && Exchange(t, later, again).0.operation == NoChange)
  {
    ContactSucceedsExactly(t, w, contact);
    ExchangeConverges(t, lib, w, contact);
    HeldAfter(t, w, contact, contact.device);
    NextKeepsOk(t, lib, w, contact);
    var next := Next(t, w, contact);
    SettledStays(t, lib, next, others, contact.device);
    RunKeepsOk(t, lib, next, others);
    ExchangeConverges(t, lib, Run(t, next, others), again);
    ContactSucceedsExactly(t, Run(t, next, others), again);
  }

  // ----- devices without an assignment

  /** What a client holds can be named in a report. */
  predicate Nameable(d: Document) { IsUuid4(d.policy) && IsUuid4(d.revision) && 1 <= d.version <= MAX_CURRENT_VERSION }

  /** A contact of a device to which nothing is assigned leaves its client holding nothing, and is
      answered `clear` exactly when the client held something. */
  lemma UnassignedContact(t: Tools, w: World, c: Step)
    requires c.Contact? && IsUuid4(c.device) && Recordable(t, w, c)
    requires Owed(c.v, w.server, c.device, None)
    requires Held(w, c.device).Some? ==> Nameable(Held(w, c.device).value)
    ensures Exchange(t, w, c).0 == Payload(if Held(w, c.device).None? then NoChange else Clear, 0, None)
    ensures Held(Next(t, w, c), c.device).None?
  {
    var report := IdentityReport(Held(w, c.device));
    UnassignedAnswer(c.v, w.server, c.device, report);
    RecordedExactly(t, w, c);
    HeldAfter(t, w, c, c.device);
  }

  /** After an accepted clearing nothing is assigned, so the next contact of the device takes the
      policy away from its client. */
  lemma ClearingReachesTheClient(t: Tools, w: World, m: PA.Moment, req: PA.Request, c: Step)
    requires PA.Valid(t.assigning, w.server) && req.ClearOf?
    requires PA.Execute(t.assigning, w.server, m, req).0.Cleared?
    requires c.Contact? && c.device == req.device && c.device in c.v.devices && c.v.devices[c.device].active
    requires c.device in m.catalog.devices && c.v.devices[c.device].id == m.catalog.devices[c.device].id
    requires Recordable(t, Next(t, w, Administer(m, req)), c)
    requires Held(w, c.device).Some? ==> Nameable(Held(w, c.device).value)
    ensures Held(Next(t, Next(t, w, Administer(m, req)), c), c.device).None?
  {
    PA.ClearingClears(t.assigning, w.server, m, req);
    var next := Next(t, w, Administer(m, req));
    NoActiveIds(next.server, c.v.devices[c.device].id);
    UnassignedContact(t, next, c);
  }

  // ----- what is recorded

  /** What an event says was answered, apart from the document. */
  function ToldBy(e: Evidence): Answer {
    match e.outcome
    case Success => Payload(AnsweredBy(e), ServerVersion(e), None)
    case NoAssignment => Payload(AnsweredBy(e), ServerVersion(e), None)
    case NotFound => Failed(DeviceNotFound)
    case DeviceInactive => Failed(DeviceBlocked(DeviceOf(e)))
    case PolicyUnusable => Failed(PolicyInactive(DeviceOf(e), ServerVersion(e)))
    case PolicyWithdrawn => Failed(PolicyRevoked(DeviceOf(e), ServerVersion(e)))
    case AssignmentCorruption => Failed(AssignmentIntegrity(DeviceOf(e)))
    case Mismatch => Failed(RevisionMismatch(DeviceOf(e), ServerVersion(e)))
    case InvalidRequest =>
      if e.deviceId.None? then Failed(InvalidDevice)
      else if e.reportedVersion.None? then Failed(InvalidVersion)
      else Failed(InvalidIdentity)
  }

  function AnsweredBy(e: Evidence): Operation { if e.operation.Told? then e.operation.operation else NoChange }
  function ServerVersion(e: Evidence): int { if e.serverVersion.Some? then e.serverVersion.value else 0 }
  function DeviceOf(e: Evidence): int { if e.deviceId.Some? then e.deviceId.value else 0 }

  function WithoutDocument(a: Answer): Answer { if a.Payload? then a.(policy := None) else a }

  /** Every answer can be read back from the event it is recorded as, with what the client reported,
      who asked, and whether a document was given. */
  lemma AnswerIsRecorded(t: Tools, device: string, report: Report, actor: Actor, answer: Answer, uuid: string)
    requires answer != Failed(AuditUnavailable)
    ensures var e := EventFor(t, device, report, actor, answer, uuid);
            && ToldBy(e) == WithoutDocument(answer) && e.eventUuid == uuid && e.pseudonym == t.pseudonym(device)
            && (answer.Payload? ==>
                  && e.deviceId == Some(actor.deviceId) && e.credentialId == Some(actor.credentialId)
                  && e.reportedVersion == Some(report.version) && e.reportedPolicy == report.policy
                  && e.reportedRevision == report.revision && (e.outcome == Success <==> answer.policy.Some?))
            && (e.reportedVersion.Some? ==> e.reportedVersion == Some(report.version))
            && (e.reportedPolicy.Some? ==> e.reportedPolicy == report.policy)
            && (e.reportedRevision.Some? ==> e.reportedRevision == report.revision)
            && (answer.Failed? && !answer.why.InvalidVersion? && !answer.why.InvalidIdentity? ==>
                  e.reportedVersion == Some(report.version) && e.reportedPolicy == report.policy
                  && e.reportedRevision == report.revision)
            && (e.credentialId.Some? ==> e.credentialId == Some(actor.credentialId))
            && (e.credentialId.None? ==> answer == Failed(InvalidDevice))
  {
  }

  /** Both tables of events use no UUID and no hash twice. */
  ghost predicate EventsUnique(w: World) {
    UniqueRows(PA.UuidKey(), w.server.events.rows) && UniqueRows(UuidKey(), w.log.rows)
  }

  lemma {:induction false} RunKeepsUnique(t: Tools, w: World, steps: seq<Step>)
    requires EventsUnique(w)
    ensures EventsUnique(Run(t, w, steps))
    decreases |steps|
  {
    if |steps| > 0 {
      NextKeepsUnique(t, w, steps[0]);
      RunKeepsUnique(t, Next(t, w, steps[0]), steps[1..]);
    }
  }

  lemma NextKeepsUnique(t: Tools, w: World, step: Step)
    requires EventsUnique(w)
    ensures EventsUnique(Next(t, w, step))
  {
    match step
    case Administer(m, req) => PA.ExecuteKeepsUnique(t.assigning, w.server, m, req);
    case Contact(v, device, actor, at, uuid) =>
      var report := IdentityReport(Held(w, device));
      var body := EventFor(t, device, report, actor, Answered(v, w.server, device, report), uuid);
      if !Taken(t.digest, PseudonymKey(), UuidKey(), w.log, body, at) {
        AppendKeepsUnique(t.digest, PseudonymKey(), UuidKey(), w.log, body, at);
      }
  }

  /** Every contact that is answered leaves exactly one event, at the end of the log, that tells the
      answer, and one that is not answered leaves none. */
  lemma ContactIsRecorded(t: Tools, w: World, c: Step)
    requires c.Contact?
    ensures var (answer, log) := Exchange(t, w, c);
            if answer == Failed(AuditUnavailable) then log == w.log
            else && |log.rows| == |w.log.rows| + 1 && log.rows[..|w.log.rows|] == w.log.rows
                 && var link := log.rows[|w.log.rows|].link;
                    && ToldBy(link.body) == WithoutDocument(answer) && link.time == c.at
                    && link.body.eventUuid == c.eventUuid && link.body.pseudonym == t.pseudonym(c.device)
  {
    var report := IdentityReport(Held(w, c.device));
    AnswerIsRecorded(t, c.device, report, c.actor, Answered(c.v, w.server, c.device, report), c.eventUuid);
  }

  // ----- audit chains

  function RecordedAt(step: Step): int { if step.Administer? then step.m.recordedAt else step.at }

  ghost predicate ClockForward(steps: seq<Step>, since: int)
    decreases |steps|
  {
    |steps| > 0 ==> since <= RecordedAt(steps[0]) && ClockForward(steps[1..], RecordedAt(steps[0]))
  }

  lemma {:induction false} RunTimed(t: Tools, w: World, steps: seq<Step>, since: int) returns (until: int)
    requires Timed(w.server.events, since) && Timed(w.log, since) && ClockForward(steps, since)
    ensures Timed(Run(t, w, steps).server.events, until) && Timed(Run(t, w, steps).log, until)
    decreases |steps|
  {
    until := since;
    if |steps| > 0 {
      var at := RecordedAt(steps[0]);
      assert Timed(w.server.events, at) && Timed(w.log, at);
      NextTimed(t, w, steps[0]);
      until := RunTimed(t, Next(t, w, steps[0]), steps[1..], at);
    }
  }

  lemma NextTimed(t: Tools, w: World, step: Step)
    requires Timed(w.server.events, RecordedAt(step)) && Timed(w.log, RecordedAt(step))
    ensures Timed(Next(t, w, step).server.events, RecordedAt(step)) && Timed(Next(t, w, step).log, RecordedAt(step))
  {
    match step
    case Administer(m, req) => PA.ExecuteTimed(t.assigning, w.server, m, req);
    case Contact(v, device, actor, at, uuid) =>
      var report := IdentityReport(Held(w, device));
      AppendTimed(t.digest, PseudonymKey(), w.log,
                  EventFor(t, device, report, actor, Answered(v, w.server, device, report), uuid), at);
  }

  lemma StartIsTimed(since: int)
    ensures Timed(START.server.events, since) && Timed(START.log, since)
  {
  }

  /** Under a clock that does not go back, verification accepts every chain after every run of
      assignments, replacements, clearings and synchronizations from the start, or from any world
      whose chains link up and hold nothing later. */
  lemma EveryChainVerifies(t: Tools, w: World, steps: seq<Step>, since: int, device: int, pseudonym: string)
    requires ServerOk(t, w) && Timed(w.server.events, since) && Timed(w.log, since) && ClockForward(steps, since)
    ensures Verifies(t.assigning.digest, PA.DeviceKey(), Run(t, w, steps).server.events, device)
    ensures Verifies(t.digest, PseudonymKey(), Run(t, w, steps).log, pseudonym)
  {
    RunKeepsServer(t, w, steps);
    var until := RunTimed(t, w, steps, since);
    TimedVerifies(t.assigning.digest, PA.DeviceKey(), Run(t, w, steps).server.events, device, until);
    TimedVerifies(t.digest, PseudonymKey(), Run(t, w, steps).log, pseudonym, until);
  }

  /** From the start, under such a clock: clients only hold what was assigned to their device, the
      tables are in order, and every chain verifies. */
  lemma FromTheStart(t: Tools, lib: Library, steps: seq<Step>, since: int, device: int, pseudonym: string)
    requires LibraryOk(lib) && StepsOk(lib, steps) && ClockForward(steps, since)
    ensures WorldOk(t, lib, Run(t, START, steps))
    ensures Verifies(t.assigning.digest, PA.DeviceKey(), Run(t, START, steps).server.events, device)
    ensures Verifies(t.digest, PseudonymKey(), Run(t, START, steps).log, pseudonym)
  {
    StartIsOk(t, lib);
    StartIsTimed(since);
    RunKeepsOk(t, lib, START, steps);
    EveryChainVerifies(t, START, steps, since, device, pseudonym);
  }

  /** After every run, rows that pass verification against the stored head carry exactly the
      evidence that was recorded, unless two of them collide: no edit, deletion, insertion or
      reordering passes. */
  lemma TamperingIsNoticed(t: Tools, w: World, steps: seq<Step>, device: int, found: seq<Row<PA.Evidence>>,
                           pseudonym: string, foundSync: seq<Row<Evidence>>)
    requires ServerOk(t, w)
    ensures var events := Run(t, w, steps).server.events;
            var rows := RowsFor(PA.DeviceKey(), events.rows, device);
            RowsCollisionFree(t.assigning.digest, found, rows)
            && ChainVerifies(t.assigning.digest, found, HeadOf(events, device)) ==>
              Map(LinkOf(), Sort(InOrder(), found)) == Map(LinkOf(), rows)
    ensures var log := Run(t, w, steps).log;
            var rows := RowsFor(PseudonymKey(), log.rows, pseudonym);
            RowsCollisionFree(t.digest, foundSync, rows)
            && ChainVerifies(t.digest, foundSync, HeadOf(log, pseudonym)) ==>
              Map(LinkOf(), Sort(InOrder(), foundSync)) == Map(LinkOf(), rows)
  {
    var events, log := Run(t, w, steps).server.events, Run(t, w, steps).log;
    RunKeepsServer(t, w, steps);
    if RowsCollisionFree(t.assigning.digest, found, RowsFor(PA.DeviceKey(), events.rows, device))
       && ChainVerifies(t.assigning.digest, found, HeadOf(events, device)) {
      OnlyTheHistoryVerifies(t.assigning.digest, PA.DeviceKey(), events, device, found);
    }
    if RowsCollisionFree(t.digest, foundSync, RowsFor(PseudonymKey(), log.rows, pseudonym))
       && ChainVerifies(t.digest, foundSync, HeadOf(log, pseudonym)) {
      OnlyTheHistoryVerifies(t.digest, PseudonymKey(), log, pseudonym, foundSync);
    }
  }

  // ----- the synchronization log

  class SynchronizationLog {
    var rows: seq<Row<Evidence>>
    var heads: map<string, Hash>
    const digest: Digest<Evidence>

    constructor (digest: Digest<Evidence>)
      ensures this.digest == digest && Contents() == Table([], map[])
    {
      this.digest := digest;
      rows, heads := [], map[];
    }

    ghost function Contents(): Table<Evidence, string>
      reads this
    {
      Table(rows, heads)
    }

    /** `record_policy_sync_event`: the head of the pseudonym's chain is looked up, the event is
        linked to it and added, and the head is created or moved, unless a unique index objects. */
    method RecordPolicySyncEvent(body: Evidence, at: int) returns (recorded: bool)
      modifies this
      ensures recorded == !Taken(digest, PseudonymKey(), UuidKey(), old(Contents()), body, at)
      ensures Contents()
              == if recorded then Append(digest, PseudonymKey(), old(Contents()), body, at) else old(Contents())
    {
      var previous := if body.pseudonym in heads then Some(heads[body.pseudonym]) else None;
      var link := Link(body, at, previous, digest(body, at, previous));
      assert link == NextLink(digest, PseudonymKey(), Contents(), body, at);
      if exists i :: 0 <= i < |rows| && (rows[i].link.body.eventUuid == body.eventUuid || rows[i].link.hash == link.hash) {
        return false;
      }
      rows := rows + [Row(|rows|, link)];
      heads := heads[body.pseudonym := link.hash];
      recorded := true;
    }
  }
}
