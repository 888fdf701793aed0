/** Policy synchronization (`backend/app/services/policy_sync.py`, `backend/app/routes/sync.py`):
    what a device is told, the audit event of every contact, and why devices end up holding what
    was assigned to them. Revisions carry schema-1 payloads. */
module PolicySync {
  import opened Wrappers
  import opened Base64Url
  import PA = PolicyAssignments

  const MAX_CURRENT_VERSION := 2_147_483_647

  datatype PolicyStatus = Draft | Active | Inactive | Revoked

  /** `sound`: the stored payload is valid and its hash is the stored content hash. */
  datatype Revision = Revision(uuid: string, policy: string, version: int, blockedApps: seq<string>, sound: bool)

  /** The tables besides assignments, as one request sees them. */
  datatype View = View(devices: map<string, PA.Device>, revisions: map<int, Revision>,
                       statuses: map<string, PolicyStatus>)

  datatype Document = Document(policy: string, revision: string, version: int, blockedApps: seq<string>)

  datatype Report = Report(version: int, policy: Option<string>, revision: Option<string>)

  datatype Operation = NoChange | Rollback | Apply | Clear

  datatype Problem = InvalidDevice | InvalidVersion | InvalidIdentity | DeviceNotFound
                   | DeviceBlocked(deviceId: int) | AssignmentIntegrity(deviceId: int)
                   | PolicyRevoked(deviceId: int, version: int) | PolicyInactive(deviceId: int, version: int)
                   | RevisionMismatch(deviceId: int, version: int) | AuditUnavailable

  datatype Answer = Payload(operation: Operation, serverVersion: int, policy: Option<Document>) | Failed(why: Problem)

  function DocumentOf(r: Revision): Document { Document(r.policy, r.uuid, r.version, r.blockedApps) }

  datatype Resolution = Resolved(revision: Option<Revision>) | Unresolved(why: Problem)

  /** `_resolve_policy_state`. */
  function Resolve(v: View, s: PA.Store, device: string): Resolution {
    if device !in v.devices then Unresolved(DeviceNotFound)
    else
      var d := v.devices[device];
      var active := PA.ActiveIds(s.assignments, d.id);
      if !d.active then Unresolved(DeviceBlocked(d.id))
      else if |active| == 0 then Resolved(None)
      else if |active| != 1 || s.assignments[active[0]].revisionId !in v.revisions then
        Unresolved(AssignmentIntegrity(d.id))
      else
        var r := v.revisions[s.assignments[active[0]].revisionId];
        if r.policy !in v.statuses then Unresolved(AssignmentIntegrity(d.id))
        else if v.statuses[r.policy] == Revoked then Unresolved(PolicyRevoked(d.id, r.version))
        else if v.statuses[r.policy] != Active then Unresolved(PolicyInactive(d.id, r.version))
        else if !r.sound then Unresolved(RevisionMismatch(d.id, r.version))
        else Resolved(Some(r))
  }

  predicate VersionOk(report: Report) { 0 <= report.version <= MAX_CURRENT_VERSION }

  predicate IdentityOk(report: Report) {
    || (report.policy.None? && report.revision.None?)
    || (report.policy.Some? && report.revision.Some? && IsUuid4(report.policy.value) && IsUuid4(report.revision.value))
  }

  /** `get_version_aware_policy_sync_payload`. */
  function SyncPayload(v: View, s: PA.Store, device: string, report: Report): Answer {
    if !IsUuid4(device) then Failed(InvalidDevice)
    else if !VersionOk(report) then Failed(InvalidVersion)
    else if !IdentityOk(report) then Failed(InvalidIdentity)
    else
      match Resolve(v, s, device)
      case Unresolved(why) => Failed(why)
      case Resolved(None) =>
        var operation := if report.version == 0 && report.policy.None? && report.revision.None? then NoChange else Clear;
        Payload(operation, 0, None)
      case Resolved(Some(r)) =>
        var operation :=
          if report.revision == Some(r.uuid) then NoChange
          else if report.policy == Some(r.policy) && report.version > r.version then Rollback
          else if report.policy.None? && report.revision.None? && report.version == r.version then NoChange
          else Apply;
        Payload(operation, r.version, Some(DocumentOf(r)))
  }

  // ----- the client

  /** A client takes the document it is sent, drops the one it has, or keeps what it holds. */
  function Receive(held: Option<Document>, answer: Answer): Option<Document> {
    match answer
    case Failed(_) => held
    case Payload(NoChange, _, _) => held
    case Payload(Clear, _, _) => None
    case Payload(_, _, policy) => policy
  }

  /** The report of a client that names the revision it holds. */
  function IdentityReport(held: Option<Document>): Report {
    if held.None? then Report(0, None, None)
    else Report(held.value.version, Some(held.value.policy), Some(held.value.revision))
  }

  /** The report of a client that sends only a version number. */
  function VersionReport(held: Option<Document>): Report {
    Report(if held.None? then 0 else held.value.version, None, None)
  }

  // ----- convergence of one contact

  /** All devices and revisions there ever are: neither is renumbered, and revisions are immutable. */
  datatype Library = Library(devices: map<string, int>, revisions: map<int, Revision>)

  ghost predicate LibraryOk(lib: Library) {
    && (forall d, e :: d in lib.devices && e in lib.devices && lib.devices[d] == lib.devices[e] ==> d == e)
    && (forall i, j :: i in lib.revisions && j in lib.revisions && lib.revisions[i].uuid == lib.revisions[j].uuid ==>
          i == j)
    && (forall i :: i in lib.revisions ==> 1 <= lib.revisions[i].version)
  }

  /** What a client holds is the document of some revision. */
  ghost predicate Genuine(lib: Library, held: Option<Document>) {
    held.Some? ==> exists i :: i in lib.revisions && DocumentOf(lib.revisions[i]) == held.value
  }

  ghost predicate ViewOk(lib: Library, v: View) {
    && (forall d :: d in v.devices ==> d in lib.devices && v.devices[d].id == lib.devices[d])
    && (forall i :: i in v.revisions ==> i in lib.revisions && v.revisions[i] == lib.revisions[i])
  }

  /** The document of the revision assigned to a device, if any. */
  function AssignedTo(lib: Library, s: PA.Store, device: int): Option<Document> {
    var current := PA.Current(s, device);
    if current.None? || s.assignments[current.value].revisionId !in lib.revisions then None
    else Some(DocumentOf(lib.revisions[s.assignments[current.value].revisionId]))
  }

  lemma ResolvesAssigned(lib: Library, v: View, s: PA.Store, device: string)
    requires ViewOk(lib, v) && Resolve(v, s, device).Resolved?
    ensures device in lib.devices
    ensures var r := Resolve(v, s, device).revision;
            AssignedTo(lib, s, lib.devices[device]) == if r.Some? then Some(DocumentOf(r.value)) else None
    ensures Genuine(lib, AssignedTo(lib, s, lib.devices[device]))
  {
  }

  /** What a client that names its revision is told, and that one answer is enough: `no_change`
      exactly when it holds what is assigned, `rollback` exactly when it must go back within one
      policy, `clear` exactly when it must drop its policy, and afterwards it holds what is assigned. */
  lemma OneContactConverges(lib: Library, v: View, s: PA.Store, device: string, held: Option<Document>)
    requires LibraryOk(lib) && ViewOk(lib, v) && Genuine(lib, held)
    requires SyncPayload(v, s, device, IdentityReport(held)).Payload?
    ensures device in lib.devices
    ensures var answer := SyncPayload(v, s, device, IdentityReport(held));
            var due := AssignedTo(lib, s, lib.devices[device]);
            && Receive(held, answer) == due == answer.policy
            && Genuine(lib, due)
            && (answer.operation == NoChange <==> held == due)
            && (answer.operation == Clear <==> held.Some? && due.None?)
            && (answer.operation == Rollback <==>
                  && held.Some? && due.Some? && held.value.policy == due.value.policy
                  && held.value.version > due.value.version)
            && (answer.operation == Rollback ==> held != due)
  {
    ResolvesAssigned(lib, v, s, device);
  }

  /** A client that sends only a version number ends up with what is assigned exactly when it did
      not already hold another revision of the same number. */
  lemma VersionNumbersAloneMayNotConverge(lib: Library, v: View, s: PA.Store, device: string, held: Option<Document>)
    requires LibraryOk(lib) && ViewOk(lib, v) && Genuine(lib, held)
    requires SyncPayload(v, s, device, VersionReport(held)).Payload?
    ensures device in lib.devices
    ensures var due := AssignedTo(lib, s, lib.devices[device]);
            Receive(held, SyncPayload(v, s, device, VersionReport(held))) == due
            <==> !(held.Some? && due.Some? && held.value.version == due.value.version && held != due)
  {
    ResolvesAssigned(lib, v, s, device);
  }

  lemma VersionOnlyAnswer(v: View, s: PA.Store, device: string, i: int, version: int, r: Revision)
    requires IsUuid4(device) && device in v.devices && v.devices[device].active
    requires 0 <= version <= MAX_CURRENT_VERSION
    requires PA.ActiveIds(s.assignments, v.devices[device].id) == [i] && 0 <= i < |s.assignments|
    requires s.assignments[i].revisionId in v.revisions && v.revisions[s.assignments[i].revisionId] == r
    requires r.sound && r.policy in v.statuses && v.statuses[r.policy] == Active
    ensures SyncPayload(v, s, device, Report(version, None, None))
            == Payload(if version == r.version then NoChange else Apply, r.version, Some(DocumentOf(r)))
  {
    assert [i][0] == i;
  }

  /** The request and the views agree on the device, and the requested revision can be delivered. */
  ghost predicate Serves(v: View, m: PA.Moment, req: PA.Request, r: Revision) {
    && req.ReplaceWith? && req.device in v.devices && req.device in m.catalog.devices
    && v.devices[req.device].active && v.devices[req.device].id == m.catalog.devices[req.device].id
    && req.revision in m.catalog.revisions && m.catalog.revisions[req.revision] in v.revisions
    && v.revisions[m.catalog.revisions[req.revision]] == r
    && r.sound && r.policy in v.statuses && v.statuses[r.policy] == Active
  }

  lemma AnswerAfterAssignment(t: PA.Tools, s: PA.Store, m: PA.Moment, req: PA.Request, v: View, version: int, r: Revision)
    requires PA.Valid(t, s) && Serves(v, m, req, r) && !PA.Execute(t, s, m, req).0.Refused?
    requires 0 <= version <= MAX_CURRENT_VERSION
    ensures SyncPayload(v, PA.Execute(t, s, m, req).1, req.device, Report(version, None, None))
            == Payload(if version == r.version then NoChange else Apply, r.version, Some(DocumentOf(r)))
  {
    PA.ReplacementIsCurrent(t, s, m, req);
    var (outcome, after) := PA.Execute(t, s, m, req);
    VersionOnlyAnswer(v, after, req.device, outcome.assignmentId, version, r);
  }

  /** Whatever was assigned before: a client that is sent one revision and reports only its number
      is told `no_change` once another revision of the same number has been assigned. */
  lemma SameNumberIsNoChange(t: PA.Tools, s: PA.Store, m: PA.Moment, req: PA.Request, v: View, older: Revision,
                             later: PA.Moment, again: PA.Request, newer: Revision)
    requires PA.Valid(t, s) && Serves(v, m, req, older) && !PA.Execute(t, s, m, req).0.Refused?
    requires var between := PA.Execute(t, s, m, req).1;
             Serves(v, later, again, newer) && !PA.Execute(t, between, later, again).0.Refused?
    requires again.device == req.device && 1 <= older.version == newer.version <= MAX_CURRENT_VERSION
    ensures var between := PA.Execute(t, s, m, req).1;
            var held := Receive(None, SyncPayload(v, between, req.device, VersionReport(None)));
            && held == Some(DocumentOf(older))
            && SyncPayload(v, PA.Execute(t, between, later, again).1, req.device, VersionReport(held))
               == Payload(NoChange, newer.version, Some(DocumentOf(newer)))
  {
    var between := PA.Execute(t, s, m, req).1;
    PA.ExecuteKeepsValid(t, s, m, req);
    AnswerAfterAssignment(t, s, m, req, v, 0, older);
    AnswerAfterAssignment(t, between, later, again, v, older.version, newer);
  }

  // ----- a run that leads there

  /** The identifiers of a small world, and of two events in it. */
  datatype Names = Names(device: string, administrator: string, firstPolicy: string, secondPolicy: string,
                         firstRevision: string, secondRevision: string, firstEvent: string, secondEvent: string)

  ghost predicate NamesOk(n: Names) {
    && IsUuid4(n.device) && IsUuid4(n.administrator)
    && IsUuid4(n.firstPolicy) && IsUuid4(n.secondPolicy) && n.firstPolicy != n.secondPolicy
    && IsUuid4(n.firstRevision) && IsUuid4(n.secondRevision) && n.firstRevision != n.secondRevision
    && n.firstEvent != n.secondEvent
  }

  function ExampleUuid(last: char): string { "00000000-0000-4000-8000-00000000000" + [last] }

  lemma ExampleUuidIsUuid(last: char)
    requires IsLowerHex(last)
    ensures IsUuid4(ExampleUuid(last)) && ExampleUuid(last)[35] == last
  {
    var front := "00000000-0000-4000-8000-00000000000";
    forall i | 0 <= i < 36 ensures UuidChar(ExampleUuid(last), i) {
      if i < 35 {
        assert ExampleUuid(last)[i] == front[i];
      }
    }
  }

  lemma NamesExist() returns (n: Names)
    ensures NamesOk(n)
  {
    n := Names(ExampleUuid('1'), ExampleUuid('2'), ExampleUuid('3'), ExampleUuid('4'),
               ExampleUuid('5'), ExampleUuid('6'), ExampleUuid('7'), ExampleUuid('8'));
    forall c | c in "12345678" ensures IsUuid4(ExampleUuid(c)) && ExampleUuid(c)[35] == c {
      ExampleUuidIsUuid(c);
    }
  }

  function Around(n: Names, now: int, event: string): PA.Moment {
    PA.Moment(PA.Catalog(map[n.administrator := 3], map[n.device := PA.Device(7, true)],
                         map[n.firstRevision := 1, n.secondRevision := 2]), now, now, event)
  }

  function Assigning(n: Names, revision: string): PA.Request { PA.ReplaceWith(n.device, n.administrator, "x", revision) }

  function FirstVersion(n: Names): Revision { Revision(n.firstRevision, n.firstPolicy, 1, ["a"], true) }

  function OtherFirstVersion(n: Names): Revision { Revision(n.secondRevision, n.secondPolicy, 1, ["b"], true) }

  function Revisions(n: Names): map<int, Revision> { map[1 := FirstVersion(n), 2 := OtherFirstVersion(n)] }

  function ViewOf(n: Names): View {
    View(map[n.device := PA.Device(7, true)], Revisions(n), map[n.firstPolicy := Active, n.secondPolicy := Active])
  }

  function LibraryOf(n: Names): Library { Library(map[n.device := 7], Revisions(n)) }

  /** On a fresh server, version 1 of one policy is assigned, and then version 1 of another. */
  function FirstAssignment(t: PA.Tools, n: Names): (PA.Outcome, PA.Store) {
    PA.Execute(t, PA.EMPTY, Around(n, 0, n.firstEvent), Assigning(n, n.firstRevision))
  }

  function SecondAssignment(t: PA.Tools, n: Names): (PA.Outcome, PA.Store) {
    PA.Execute(t, FirstAssignment(t, n).1, Around(n, 1, n.secondEvent), Assigning(n, n.secondRevision))
  }

  lemma AssignmentsServe(n: Names)
    requires NamesOk(n)
    ensures Serves(ViewOf(n), Around(n, 0, n.firstEvent), Assigning(n, n.firstRevision), FirstVersion(n))
    ensures Serves(ViewOf(n), Around(n, 1, n.secondEvent), Assigning(n, n.secondRevision), OtherFirstVersion(n))
    ensures LibraryOk(LibraryOf(n)) && ViewOk(LibraryOf(n), ViewOf(n))
  {
  }

  lemma FirstIsAccepted(t: PA.Tools, n: Names)
    requires NamesOk(n) && t.printable('x')
    ensures !FirstAssignment(t, n).0.Refused?
    ensures |FirstAssignment(t, n).1.events.rows| == 1
    ensures FirstAssignment(t, n).1.events.rows[0].link.body.eventUuid == n.firstEvent
  {
  }

  lemma FirstIsValid(t: PA.Tools, n: Names)
    ensures PA.Valid(t, FirstAssignment(t, n).1)
  {
    PA.EmptyIsValid(t);
    PA.ExecuteKeepsValid(t, PA.EMPTY, Around(n, 0, n.firstEvent), Assigning(n, n.firstRevision));
  }

  lemma AcceptedUnlessHashed(t: PA.Tools, s: PA.Store, m: PA.Moment, req: PA.Request, eventUuid: string)
    requires PA.Valid(t, s) && req.ReplaceWith? && PA.Screen(t, m.catalog, req).Admit?
    requires |s.events.rows| == 1 && s.events.rows[0].link.body.eventUuid == eventUuid != m.eventUuid
    ensures PA.Execute(t, s, m, req).0.Refused? ==> PA.MayHash(t, m, s.events.rows[0].link.hash)
  {
    PA.RefusedByIndexOnly(t, s, m, req);
  }

  /** The second assignment is accepted too, unless the digests of the two events are the same. */
  lemma SecondIsAccepted(t: PA.Tools, n: Names)
    requires NamesOk(n) && t.printable('x')
    ensures SecondAssignment(t, n).0.Refused? ==> EventsCollide(t, n)
  {
    FirstIsAccepted(t, n);
    FirstIsValid(t, n);
    AcceptedUnlessHashed(t, FirstAssignment(t, n).1, Around(n, 1, n.secondEvent), Assigning(n, n.secondRevision),
                         n.firstEvent);
  }

  /** The client has been sent the first policy, and keeps it while the second is assigned: it is
      told `no_change`, however often it asks. */
  ghost predicate ClientIsStuck(t: PA.Tools, n: Names) {
    var s := SecondAssignment(t, n).1;
    var held := Receive(None, SyncPayload(ViewOf(n), FirstAssignment(t, n).1, n.device, VersionReport(None)));
    && PA.Valid(t, s) && LibraryOk(LibraryOf(n)) && ViewOk(LibraryOf(n), ViewOf(n))
    && held == Some(DocumentOf(FirstVersion(n)))
    && SyncPayload(ViewOf(n), s, n.device, VersionReport(held)).Payload?
    && Receive(held, SyncPayload(ViewOf(n), s, n.device, VersionReport(held))) == held
    && AssignedTo(LibraryOf(n), s, 7) == Some(DocumentOf(OtherFirstVersion(n))) != held
  }

  lemma StuckOnceAccepted(t: PA.Tools, n: Names)
    requires NamesOk(n) && t.printable('x') && !SecondAssignment(t, n).0.Refused?
    ensures ClientIsStuck(t, n)
  {
    AssignmentsServe(n);
    FirstIsAccepted(t, n);
    FirstIsValid(t, n);
    PA.EmptyIsValid(t);
    var first, second := Around(n, 0, n.firstEvent), Around(n, 1, n.secondEvent);
    PA.ExecuteKeepsValid(t, FirstAssignment(t, n).1, second, Assigning(n, n.secondRevision));
    SameNumberIsNoChange(t, PA.EMPTY, first, Assigning(n, n.firstRevision), ViewOf(n), FirstVersion(n),
                         second, Assigning(n, n.secondRevision), OtherFirstVersion(n));
    ResolvesAssigned(LibraryOf(n), ViewOf(n), SecondAssignment(t, n).1, n.device);
  }

  /** The digests of the two events are the same. */
  ghost predicate EventsCollide(t: PA.Tools, n: Names) {
    && |FirstAssignment(t, n).1.events.rows| == 1
    && PA.MayHash(t, Around(n, 1, n.secondEvent), FirstAssignment(t, n).1.events.rows[0].link.hash)
  }

  /** Both assignments are accepted and the client is stuck, whatever the identifiers are and unless
      the two events collide; such identifiers exist. */
  lemma VersionOnlyClientIsStuck(t: PA.Tools)
    requires t.printable('x')
    ensures exists n :: NamesOk(n)
    ensures forall n :: NamesOk(n) ==>
              && !FirstAssignment(t, n).0.Refused?
              && if SecondAssignment(t, n).0.Refused? then EventsCollide(t, n) else ClientIsStuck(t, n)
  {
    var example := NamesExist();
    forall n | NamesOk(n)
      ensures !FirstAssignment(t, n).0.Refused?
      ensures if SecondAssignment(t, n).0.Refused? then EventsCollide(t, n) else ClientIsStuck(t, n)
    {
      FirstIsAccepted(t, n);
      SecondIsAccepted(t, n);
      if !SecondAssignment(t, n).0.Refused? {
        StuckOnceAccepted(t, n);
      }
    }
  }
}
