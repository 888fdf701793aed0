/** Assigning policy revisions to devices, and the audit chain of every change
    (`backend/app/services/policy_assignments.py`). */
module PolicyAssignments {
  import opened Wrappers
  import opened Base64Url
  import opened AuditChain

  datatype Refusal = Invalid | Forbidden | NotFound | Conflict | Persistence

  datatype Operation = Assign | Replace | Clear

  /** Rows of `device_policy_assignments`; the identifier of a row is its position. */
  datatype Assignment = Assignment(deviceId: int, revisionId: int, administratorId: int, reason: string,
                                   active: bool, assignedAt: int, supersededAt: Option<int>)

  /** The hashed body of an assignment event, without its time and predecessor. */
  datatype Evidence = Evidence(administratorId: int, assignmentId: Option<int>, deviceId: int, eventUuid: string,
                               operation: Operation, previousAssignmentId: Option<int>, reason: string)

  datatype Store = Store(assignments: seq<Assignment>, events: Table<Evidence, int>)

  const EMPTY := Store([], Table([], map[]))

  datatype Device = Device(id: int, active: bool)

  /** Active administrators holding `policy.assign`, all devices, and the revisions of active
      policies, by UUID. */
  datatype Catalog = Catalog(assigners: map<string, int>, devices: map<string, Device>, revisions: map<string, int>)

  /** What one call finds around it: the tables it reads, the clock, and a random UUID. */
  datatype Moment = Moment(catalog: Catalog, now: int, recordedAt: int, eventUuid: string)

  datatype Request = ReplaceWith(device: string, administrator: string, reason: string, revision: string)
                   | ClearOf(device: string, administrator: string, reason: string)

  datatype Outcome = Assigned(assignmentId: int, replaced: bool) | Cleared(assignmentId: int) | Refused(why: Refusal)

  datatype Tools = Tools(printable: char -> bool, digest: Digest<Evidence>)

  function DeviceKey(): Evidence -> int { (e: Evidence) => e.deviceId }

  function ActiveIds(rows: seq<Assignment>, device: int): (ids: seq<int>)
    ensures forall i :: 0 <= i < |ids| ==>
              0 <= ids[i] < |rows| && rows[ids[i]].deviceId == device && rows[ids[i]].active
  {
    if |rows| == 0 then []
    else
      var n := |rows| - 1;
      ActiveIds(rows[..n], device) + if rows[n].deviceId == device && rows[n].active then [n] else []
  }

  predicate ReasonOk(t: Tools, reason: string) { 1 <= |reason| <= 512 && forall c :: c in reason ==> t.printable(c) }

  // ----- one call

  datatype Screening = Refuse(why: Refusal) | Admit(administratorId: int, deviceId: int, revisionId: Option<int>)

  /** Everything that is checked before the current assignment is looked at. */
  function Screen(t: Tools, c: Catalog, req: Request): Screening {
    if !IsUuid4(req.device) || (req.ReplaceWith? && !IsUuid4(req.revision)) || !IsUuid4(req.administrator)
       || !ReasonOk(t, req.reason) then Refuse(Invalid)
    else if req.administrator !in c.assigners then Refuse(Forbidden)
    else if req.device !in c.devices then Refuse(NotFound)
    else if !c.devices[req.device].active then Refuse(Conflict)
    else if req.ReplaceWith? && req.revision !in c.revisions then Refuse(NotFound)
    else Admit(c.assigners[req.administrator], c.devices[req.device].id,
               if req.ReplaceWith? then Some(c.revisions[req.revision]) else None)
  }

  function Superseded(rows: seq<Assignment>, current: Option<int>, now: int): seq<Assignment>
    requires current.Some? ==> 0 <= current.value < |rows|
  {
    if current.None? then rows
    else rows[current.value := rows[current.value].(active := false, supersededAt := Some(now))]
  }

  function UuidKey(): Evidence -> string { (e: Evidence) => e.eventUuid }

  function Recorded(t: Tools, s: Store, rows: seq<Assignment>, body: Evidence, at: int): Store {
    Store(rows, Append(t.digest, DeviceKey(), s.events, body, at))
  }

  function Committed(t: Tools, s: Store, m: Moment, rows: seq<Assignment>, body: Evidence, outcome: Outcome)
    : (r: (Outcome, Store))
    requires !outcome.Refused?
    ensures r.0.Refused? ==> r.1 == s
  {
    if Taken(t.digest, DeviceKey(), UuidKey(), s.events, body, m.recordedAt) then (Refused(Conflict), s)
    else (outcome, Recorded(t, s, rows, body, m.recordedAt))
  }

  function Current(s: Store, device: int): Option<int> {
    var active := ActiveIds(s.assignments, device);
    if |active| == 0 then None else Some(active[0])
  }

  /** The change an admitted request makes, given the current assignment of its device:
      to the revision, or to none. */
  function Change(t: Tools, s: Store, m: Moment, reason: string, administrator: int, device: int, revision: Option<int>)
    : (r: (Outcome, Store))
    ensures r.0.Refused? ==> r.1 == s
  {
    var current := Current(s, device);
    if |ActiveIds(s.assignments, device)| > 1 then (Refused(Persistence), s)
    else if revision.None? then
      if current.None? then (Refused(Conflict), s)
      else Committed(t, s, m, Superseded(s.assignments, current, m.now),
                     Evidence(administrator, None, device, m.eventUuid, Clear, current, reason),
                     Cleared(current.value))
    else if current.Some? && s.assignments[current.value].revisionId == revision.value then
      (Assigned(current.value, false), s)
    else
      var added := Assignment(device, revision.value, administrator, reason, true, m.now, None);
      var operation := if current.Some? then Replace else Assign;
      Committed(t, s, m, Superseded(s.assignments, current, m.now) + [added],
                Evidence(administrator, Some(|s.assignments|), device, m.eventUuid, operation, current, reason),
                Assigned(|s.assignments|, current.Some?))
  }

  function Execute(t: Tools, s: Store, m: Moment, req: Request): (r: (Outcome, Store))
    ensures r.0.Refused? ==> r.1 == s
  {
    match Screen(t, m.catalog, req)
    case Refuse(why) => (Refused(why), s)
    case Admit(administrator, device, revision) => Change(t, s, m, req.reason, administrator, device, revision)
  }

  // ----- what every call keeps

  function Chain(s: Store, device: int): seq<Row<Evidence>> { RowsFor(DeviceKey(), s.events.rows, device) }

  /** What a chain of events says is assigned after all of them. */
  function Told(chain: seq<Row<Evidence>>): Option<int> {
    if |chain| == 0 then None else chain[|chain| - 1].link.body.assignmentId
  }

  /** The operation of an event fits the assignments it began and ended. */
  predicate OperationFits(e: Evidence) {
    match e.operation
    case Assign => e.assignmentId.Some? && e.previousAssignmentId.None?
    case Replace => e.assignmentId.Some? && e.previousAssignmentId.Some?
    case Clear => e.assignmentId.None? && e.previousAssignmentId.Some?
  }

  /** An event ends exactly what was assigned before it. */
  ghost predicate Narrated(chain: seq<Row<Evidence>>, i: int)
    requires 0 <= i < |chain|
  {
    chain[i].link.body.previousAssignmentId == Told(chain[..i]) && OperationFits(chain[i].link.body)
  }

  ghost predicate AllNarrated(chain: seq<Row<Evidence>>) {
    forall i :: 0 <= i < |chain| ==> Narrated(chain, i)
  }

  ghost predicate DeviceOk(s: Store, device: int) {
    && |ActiveIds(s.assignments, device)| <= 1
    && Told(Chain(s, device)) == Current(s, device)
    && AllNarrated(Chain(s, device))
  }

  /** The check constraint that ties the status of an assignment to its end. */
  ghost predicate StatusOk(a: Assignment) { a.active <==> a.supersededAt.None? }

  ghost predicate Valid(t: Tools, s: Store) {
    && Kept(t.digest, DeviceKey(), s.events)
    && (forall i :: 0 <= i < |s.assignments| ==> StatusOk(s.assignments[i]))
    && (forall d :: DeviceOk(s, d))
  }

  lemma EmptyIsValid(t: Tools)
    ensures Valid(t, EMPTY)
  {
    forall k ensures ChainKept(t.digest, DeviceKey(), EMPTY.events, k) {
      assert RowsFor(DeviceKey(), EMPTY.events.rows, k) == [];
    }
    forall d ensures DeviceOk(EMPTY, d) {
      assert Chain(EMPTY, d) == [] && ActiveIds(EMPTY.assignments, d) == [];
    }
  }

  lemma OnlyActive(rows: seq<Assignment>, i: int, device: int)
    requires 0 <= i < |rows| && ActiveIds(rows, device) == [i]
    ensures rows[i].deviceId == device && rows[i].active
    ensures ActiveIds(rows[..|rows| - 1], device) == if i == |rows| - 1 then [] else [i]
    ensures i < |rows| - 1 ==> !(rows[|rows| - 1].deviceId == device && rows[|rows| - 1].active)
  {
    var n, ids := |rows| - 1, ActiveIds(rows, device);
    var last := if rows[n].deviceId == device && rows[n].active then [n] else [];
    assert ids[0] == i;
    OneOfBoth(ActiveIds(rows[..n], device), last, i);
  }

  lemma OneOfBoth(front: seq<int>, last: seq<int>, i: int)
    requires front + last == [i]
    ensures if last == [] then front == [i] else front == [] && last == [i]
  {
    assert |front| + |last| == 1;
    if last == [] {
      assert front + last == front;
    } else {
      assert front + last == last;
    }
  }

  lemma {:induction false} SupersedingOne(rows: seq<Assignment>, i: int, now: int, d: int)
    requires 0 <= i < |rows| && ActiveIds(rows, rows[i].deviceId) == [i]
    ensures ActiveIds(Superseded(rows, Some(i), now), d) == if d == rows[i].deviceId then [] else ActiveIds(rows, d)
    decreases |rows|
  {
    var n, device := |rows| - 1, rows[i].deviceId;
    var after := Superseded(rows, Some(i), now);
    OnlyActive(rows, i, device);
    if i == n {
      assert after[..n] == rows[..n];
    } else {
      assert after[..n] == Superseded(rows[..n], Some(i), now);
      SupersedingOne(rows[..n], i, now, d);
    }
  }

  lemma AddingOne(rows: seq<Assignment>, added: Assignment, d: int)
    requires added.active
    ensures ActiveIds(rows + [added], d) == ActiveIds(rows, d) + if d == added.deviceId then [|rows|] else []
  {
    assert (rows + [added])[..|rows|] == rows;
  }

  lemma NarratedAppend(chain: seq<Row<Evidence>>, row: Row<Evidence>)
    requires AllNarrated(chain)
    requires row.link.body.previousAssignmentId == Told(chain) && OperationFits(row.link.body)
    ensures AllNarrated(chain + [row]) && Told(chain + [row]) == row.link.body.assignmentId
  {
    forall i | 0 <= i < |chain + [row]| ensures Narrated(chain + [row], i) {
      if i < |chain| {
        assert Narrated(chain, i);
        assert (chain + [row])[..i] == chain[..i];
      } else {
        assert (chain + [row])[..i] == chain;
      }
    }
  }

  /** The assignments are what `body` says they become. */
  ghost predicate Becomes(s: Store, rows: seq<Assignment>, body: Evidence, d: int) {
    ActiveIds(rows, d) == if d != body.deviceId then ActiveIds(s.assignments, d)
                          else if body.assignmentId.Some? then [body.assignmentId.value] else []
  }

  ghost predicate Tells(s: Store, body: Evidence) {
    body.previousAssignmentId == Current(s, body.deviceId) && OperationFits(body)
  }

  lemma RecordingKeepsDevice(t: Tools, s: Store, rows: seq<Assignment>, body: Evidence, at: int, d: int)
    requires DeviceOk(s, d) && Tells(s, body) && Becomes(s, rows, body, d)
    ensures DeviceOk(Recorded(t, s, rows, body, at), d)
  {
    var row := Row(|s.events.rows|, NextLink(t.digest, DeviceKey(), s.events, body, at));
    RowsForAppend(DeviceKey(), s.events.rows, row, d);
    if d == body.deviceId {
      NarratedAppend(Chain(s, d), row);
    } else {
      assert Chain(s, d) + [] == Chain(s, d);
    }
  }

  /** Recording an event that tells the change keeps every device's chain in step. */
  lemma RecordingKeeps(t: Tools, s: Store, rows: seq<Assignment>, body: Evidence, at: int)
    requires Valid(t, s) && Tells(s, body)
    requires forall i :: 0 <= i < |rows| ==> StatusOk(rows[i])
    requires forall d :: Becomes(s, rows, body, d)
    ensures Valid(t, Recorded(t, s, rows, body, at))
  {
    AppendKeeps(t.digest, DeviceKey(), s.events, body, at);
    forall d ensures DeviceOk(Recorded(t, s, rows, body, at), d) {
      assert DeviceOk(s, d) && Becomes(s, rows, body, d);
      RecordingKeepsDevice(t, s, rows, body, at, d);
    }
  }

  lemma SupersedingCurrent(s: Store, device: int, now: int, d: int)
    requires DeviceOk(s, device)
    ensures ActiveIds(Superseded(s.assignments, Current(s, device), now), d)
            == if d == device then [] else ActiveIds(s.assignments, d)
  {
    var current := Current(s, device);
    if current.Some? {
      assert ActiveIds(s.assignments, device) == [current.value];
      SupersedingOne(s.assignments, current.value, now, d);
    }
  }

  lemma AssigningOne(s: Store, device: int, added: Assignment, now: int, d: int)
    requires DeviceOk(s, device) && added.active && added.deviceId == device
    ensures ActiveIds(Superseded(s.assignments, Current(s, device), now) + [added], d)
            == if d == device then [|s.assignments|] else ActiveIds(s.assignments, d)
  {
    SupersedingCurrent(s, device, now, d);
    AddingOne(Superseded(s.assignments, Current(s, device), now), added, d);
  }

  lemma StatusesKept(rows: seq<Assignment>, current: Option<int>, now: int, more: seq<Assignment>)
    requires current.Some? ==> 0 <= current.value < |rows|
    requires forall i :: 0 <= i < |rows| ==> StatusOk(rows[i])
    requires forall i :: 0 <= i < |more| ==> StatusOk(more[i])
    ensures forall i :: 0 <= i < |Superseded(rows, current, now) + more| ==>
              StatusOk((Superseded(rows, current, now) + more)[i])
  {
  }

  lemma ClearingKeeps(t: Tools, s: Store, body: Evidence, now: int, at: int)
    requires Valid(t, s) && Tells(s, body) && body.operation == Clear
    ensures Valid(t, Recorded(t, s, Superseded(s.assignments, Current(s, body.deviceId), now), body, at))
  {
    assert DeviceOk(s, body.deviceId);
    var rows := Superseded(s.assignments, Current(s, body.deviceId), now);
    StatusesKept(s.assignments, Current(s, body.deviceId), now, []);
    assert rows + [] == rows;
    forall d ensures Becomes(s, rows, body, d) {
      SupersedingCurrent(s, body.deviceId, now, d);
    }
    RecordingKeeps(t, s, rows, body, at);
  }

  lemma AssigningBecomes(s: Store, body: Evidence, added: Assignment, now: int, d: int)
    requires DeviceOk(s, body.deviceId) && body.assignmentId == Some(|s.assignments|)
    requires added.active && added.deviceId == body.deviceId
    ensures Becomes(s, Superseded(s.assignments, Current(s, body.deviceId), now) + [added], body, d)
  {
    AssigningOne(s, body.deviceId, added, now, d);
  }

  lemma AssigningKeeps(t: Tools, s: Store, body: Evidence, added: Assignment, now: int, at: int)
    requires Valid(t, s) && Tells(s, body) && body.assignmentId == Some(|s.assignments|)
    requires added.active && StatusOk(added) && added.deviceId == body.deviceId
    ensures Valid(t, Recorded(t, s, Superseded(s.assignments, Current(s, body.deviceId), now) + [added], body, at))
  {
    assert DeviceOk(s, body.deviceId);
    var rows := Superseded(s.assignments, Current(s, body.deviceId), now) + [added];
    StatusesKept(s.assignments, Current(s, body.deviceId), now, [added]);
    forall d ensures Becomes(s, rows, body, d) {
      AssigningBecomes(s, body, added, now, d);
    }
    RecordingKeeps(t, s, rows, body, at);
  }

  lemma ChangeKeepsValid(t: Tools, s: Store, m: Moment, reason: string, administrator: int, device: int,
                         revision: Option<int>)
    requires Valid(t, s)
    ensures Valid(t, Change(t, s, m, reason, administrator, device, revision).1)
  {
    assert DeviceOk(s, device);
    var current := Current(s, device);
    if revision.None? {
      if current.Some? {
        ClearingKeeps(t, s, Evidence(administrator, None, device, m.eventUuid, Clear, current, reason), m.now,
                      m.recordedAt);
      }
    } else {
      var operation := if current.Some? then Replace else Assign;
      AssigningKeeps(t, s, Evidence(administrator, Some(|s.assignments|), device, m.eventUuid, operation, current,
                                    reason),
                     Assignment(device, revision.value, administrator, reason, true, m.now, None), m.now, m.recordedAt);
    }
  }

  /** Every call, accepted or refused, keeps the tables in order. */
  lemma ExecuteKeepsValid(t: Tools, s: Store, m: Moment, req: Request)
    requires Valid(t, s)
    ensures Valid(t, Execute(t, s, m, req).1)
  {
    var a := Screen(t, m.catalog, req);
    if a.Admit? {
      ChangeKeepsValid(t, s, m, req.reason, a.administratorId, a.deviceId, a.revisionId);
    }
  }

  // ----- what one call does

  /** With the tables in order, a device never has two current assignments to choose from. */
  lemma NeverAmbiguous(t: Tools, s: Store, m: Moment, req: Request)
    requires Valid(t, s)
    ensures Execute(t, s, m, req).0 != Refused(Persistence)
  {
    var a := Screen(t, m.catalog, req);
    if a.Admit? {
      assert DeviceOk(s, a.deviceId);
    }
  }

  lemma ChangedCurrent(t: Tools, s: Store, m: Moment, reason: string, administrator: int, device: int,
                       revision: Option<int>, d: int)
    requires DeviceOk(s, device) && !Change(t, s, m, reason, administrator, device, revision).0.Refused?
    ensures Current(Change(t, s, m, reason, administrator, device, revision).1, d)
            == if d != device then Current(s, d)
               else if revision.None? then None
               else Some(Change(t, s, m, reason, administrator, device, revision).0.assignmentId)
  {
    var (outcome, after) := Change(t, s, m, reason, administrator, device, revision);
    if revision.None? {
      assert after.assignments == Superseded(s.assignments, Current(s, device), m.now);
      SupersedingCurrent(s, device, m.now, d);
    } else if after != s {
      var added := Assignment(device, revision.value, administrator, reason, true, m.now, None);
      assert after.assignments == Superseded(s.assignments, Current(s, device), m.now) + [added];
      AssigningOne(s, device, added, m.now, d);
    }
  }

  /** Only the device named by an accepted request gets another current assignment, and it gets
      the requested revision, or none. */
  lemma OnlyTheNamedDeviceChanges(t: Tools, s: Store, m: Moment, req: Request, d: int)
    requires Valid(t, s) && !Execute(t, s, m, req).0.Refused?
    ensures req.device in m.catalog.devices
    ensures Current(Execute(t, s, m, req).1, d)
            == if d != m.catalog.devices[req.device].id then Current(s, d)
               else if req.ClearOf? then None
               else Some(Execute(t, s, m, req).0.assignmentId)
  {
    var a := Screen(t, m.catalog, req);
    assert DeviceOk(s, a.deviceId);
    ChangedCurrent(t, s, m, req.reason, a.administratorId, a.deviceId, a.revisionId, d);
  }

  lemma ChangeAssigns(t: Tools, s: Store, m: Moment, reason: string, administrator: int, device: int, revision: int)
    requires DeviceOk(s, device) && !Change(t, s, m, reason, administrator, device, Some(revision)).0.Refused?
    ensures var (outcome, after) := Change(t, s, m, reason, administrator, device, Some(revision));
            && outcome.Assigned? && 0 <= outcome.assignmentId < |after.assignments|
            && after.assignments[outcome.assignmentId].revisionId == revision
            && after.assignments[outcome.assignmentId].active
            && var was := Current(s, device);
               && (after == s <==> was.Some? && s.assignments[was.value].revisionId == revision)
               && (outcome.replaced <==> was.Some? && after != s)
  {
    var after := Change(t, s, m, reason, administrator, device, Some(revision)).1;
    assert |Superseded(s.assignments, Current(s, device), m.now)| == |s.assignments|;
    assert after == s || |after.assignments| == |s.assignments| + 1;
  }

  /** A replacement assigns the requested revision; asking for the revision that is already
      assigned changes nothing, and only then; a superseded predecessor is reported as replaced. */
  lemma ReplacementAssigns(t: Tools, s: Store, m: Moment, req: Request)
    requires Valid(t, s) && req.ReplaceWith? && !Execute(t, s, m, req).0.Refused?
    ensures req.device in m.catalog.devices && req.revision in m.catalog.revisions
    ensures var (outcome, after) := Execute(t, s, m, req);
            var was, revision := Current(s, m.catalog.devices[req.device].id), m.catalog.revisions[req.revision];
            && outcome.Assigned? && 0 <= outcome.assignmentId < |after.assignments|
            && after.assignments[outcome.assignmentId].revisionId == revision
            && after.assignments[outcome.assignmentId].active
            && (after == s <==> was.Some? && s.assignments[was.value].revisionId == revision)
            && (outcome.replaced <==> was.Some? && after != s)
  {
    var a := Screen(t, m.catalog, req);
    assert DeviceOk(s, a.deviceId);
    ChangeAssigns(t, s, m, req.reason, a.administratorId, a.deviceId, a.revisionId.value);
  }

  /** What a replacement does to the rows: the assignment there was ends now, and one is added that says
      who assigned what to whom, when and why. */
  lemma ReplacementRows(t: Tools, s: Store, m: Moment, req: Request)
    requires Valid(t, s) && req.ReplaceWith? && Execute(t, s, m, req).1 != s
    ensures req.device in m.catalog.devices && req.revision in m.catalog.revisions && req.administrator in m.catalog.assigners
    ensures var rows, after := s.assignments, Execute(t, s, m, req).1.assignments;
            var device := m.catalog.devices[req.device].id;
            && |after| == |rows| + 1
            && after[|rows|] == Assignment(device, m.catalog.revisions[req.revision], m.catalog.assigners[req.administrator],
                                           req.reason, true, m.now, None)
            && forall i :: 0 <= i < |rows| ==>
                 after[i] == if rows[i].deviceId == device && rows[i].active
                             then rows[i].(active := false, supersededAt := Some(m.now)) else rows[i]
  {
    var a := Screen(t, m.catalog, req);
    assert DeviceOk(s, a.deviceId);
    forall i | 0 <= i < |s.assignments| && s.assignments[i].deviceId == a.deviceId && s.assignments[i].active
      ensures Current(s, a.deviceId) == Some(i)
    {
      OnlyCurrentIsActive(s, a.deviceId, i);
    }
    if Current(s, a.deviceId).Some? {
      assert ActiveIds(s.assignments, a.deviceId)[0] == Current(s, a.deviceId).value;
    }
  }

  lemma {:induction false} ActiveIsListed(rows: seq<Assignment>, device: int, i: int)
    requires 0 <= i < |rows| && rows[i].deviceId == device && rows[i].active
    ensures i in ActiveIds(rows, device)
    decreases |rows|
  {
    if i < |rows| - 1 {
      ActiveIsListed(rows[..|rows| - 1], device, i);
    }
  }

  lemma OnlyCurrentIsActive(s: Store, device: int, i: int)
    requires |ActiveIds(s.assignments, device)| <= 1
    requires 0 <= i < |s.assignments| && s.assignments[i].deviceId == device && s.assignments[i].active
    ensures Current(s, device) == Some(i)
  {
    ActiveIsListed(s.assignments, device, i);
  }

  /** After an accepted replacement the device has exactly one active assignment, of the requested
      revision. */
  lemma ReplacementIsCurrent(t: Tools, s: Store, m: Moment, req: Request)
    requires Valid(t, s) && req.ReplaceWith? && !Execute(t, s, m, req).0.Refused?
    ensures IsUuid4(req.device) && req.device in m.catalog.devices && req.revision in m.catalog.revisions
    ensures var (outcome, after) := Execute(t, s, m, req);
            && outcome.Assigned?
            && ActiveIds(after.assignments, m.catalog.devices[req.device].id) == [outcome.assignmentId]
            && 0 <= outcome.assignmentId < |after.assignments|
            && after.assignments[outcome.assignmentId].revisionId == m.catalog.revisions[req.revision]
  {
    ExecuteKeepsValid(t, s, m, req);
    ReplacementAssigns(t, s, m, req);
    OnlyTheNamedDeviceChanges(t, s, m, req, m.catalog.devices[req.device].id);
    assert DeviceOk(Execute(t, s, m, req).1, m.catalog.devices[req.device].id);
  }

  /** A clearing is admitted to a device with a current assignment, whose row its answer names, and
      leaves the device without one; it is refused as a conflict when there is none to end. */
  lemma ClearingClears(t: Tools, s: Store, m: Moment, req: Request)
    requires Valid(t, s) && req.ClearOf? && Screen(t, m.catalog, req).Admit?
    ensures req.device in m.catalog.devices
    ensures var (outcome, after) := Execute(t, s, m, req);
            var device := m.catalog.devices[req.device].id;
            && (Current(s, device).None? ==> outcome == Refused(Conflict))
            && (!outcome.Refused? ==>
                  && Current(s, device).Some? && outcome == Cleared(Current(s, device).value)
                  && ActiveIds(after.assignments, device) == []
                  && after.assignments == s.assignments[outcome.assignmentId :=
                       s.assignments[outcome.assignmentId].(active := false, supersededAt := Some(m.now))])
            && (outcome.Refused? && Current(s, device).Some? ==> IndexObjects(t, s, m))
  {
    var a := Screen(t, m.catalog, req);
    assert DeviceOk(s, a.deviceId);
    var current := Current(s, a.deviceId);
    if current.Some? {
      var was := ActiveIds(s.assignments, a.deviceId);
      assert was == [current.value];
      SupersedingOne(s.assignments, current.value, m.now, a.deviceId);
      var body := Evidence(a.administratorId, None, a.deviceId, m.eventUuid, Clear, current, req.reason);
      TakenMeans(t, s, m, body);
    }
  }

  /** A well-formed request of an administrator who may assign, for an active device, and for a
      revision that can be assigned or to end an assignment there is. */
  predicate Admissible(t: Tools, s: Store, c: Catalog, req: Request) {
    && IsUuid4(req.device) && IsUuid4(req.administrator) && (req.ReplaceWith? ==> IsUuid4(req.revision))
    && 1 <= |req.reason| <= 512 && (forall i :: 0 <= i < |req.reason| ==> t.printable(req.reason[i]))
    && req.administrator in c.assigners && req.device in c.devices && c.devices[req.device].active
    && (if req.ReplaceWith? then req.revision in c.revisions
        else exists i :: 0 <= i < |s.assignments| && s.assignments[i].deviceId == c.devices[req.device].id
                         && s.assignments[i].active)
  }

  /** Inadmissible requests are refused; an admissible one is refused only by a unique index. */
  lemma AcceptedExactly(t: Tools, s: Store, m: Moment, req: Request)
    requires Valid(t, s)
    ensures !Admissible(t, s, m.catalog, req) ==> Execute(t, s, m, req).0.Refused?
    ensures Admissible(t, s, m.catalog, req) && Execute(t, s, m, req).0.Refused? ==> IndexObjects(t, s, m)
  {
    if Screen(t, m.catalog, req).Admit? {
      if req.ReplaceWith? {
        RefusedByIndexOnly(t, s, m, req);
      } else {
        ClearingClears(t, s, m, req);
        CurrentIsActive(s, m.catalog.devices[req.device].id);
      }
    }
  }

  lemma {:induction false} ActiveIsFound(rows: seq<Assignment>, device: int, i: int)
    requires 0 <= i < |rows| && rows[i].deviceId == device && rows[i].active
    ensures ActiveIds(rows, device) != []
    decreases |rows|
  {
    if i < |rows| - 1 {
      ActiveIsFound(rows[..|rows| - 1], device, i);
    }
  }

  lemma CurrentIsActive(s: Store, device: int)
    ensures Current(s, device).Some?
       <==> exists i :: 0 <= i < |s.assignments| && s.assignments[i].deviceId == device && s.assignments[i].active
  {
    if i :| 0 <= i < |s.assignments| && s.assignments[i].deviceId == device && s.assignments[i].active {
      ActiveIsFound(s.assignments, device, i);
    }
  }

  /** A unique index of the event table refuses the event of this call. */
  ghost predicate IndexObjects(t: Tools, s: Store, m: Moment) {
    exists i :: 0 <= i < |s.events.rows|
                && (s.events.rows[i].link.body.eventUuid == m.eventUuid || MayHash(t, m, s.events.rows[i].link.hash))
  }

  lemma TakenMeans(t: Tools, s: Store, m: Moment, body: Evidence)
    requires body.eventUuid == m.eventUuid
    ensures Taken(t.digest, DeviceKey(), UuidKey(), s.events, body, m.recordedAt) ==> IndexObjects(t, s, m)
  {
    if Taken(t.digest, DeviceKey(), UuidKey(), s.events, body, m.recordedAt) {
      var i :| 0 <= i < |s.events.rows|
               && (UuidKey()(s.events.rows[i].link.body) == UuidKey()(body)
                   || s.events.rows[i].link.hash == NextLink(t.digest, DeviceKey(), s.events, body, m.recordedAt).hash);
      if s.events.rows[i].link.body.eventUuid != m.eventUuid {
        assert t.digest(body, m.recordedAt, HeadOf(s.events, body.deviceId)) == s.events.rows[i].link.hash;
        assert MayHash(t, m, s.events.rows[i].link.hash);
      }
    }
  }

  /** Some event of this call would have this hash. */
  ghost predicate MayHash(t: Tools, m: Moment, hash: Hash) {
    exists body: Evidence, previous :: body.eventUuid == m.eventUuid && t.digest(body, m.recordedAt, previous) == hash
  }

  /** An admitted replacement is refused only when its event UUID is taken or its digest is that of
      an earlier event. */
  lemma RefusedByIndexOnly(t: Tools, s: Store, m: Moment, req: Request)
    requires Valid(t, s) && req.ReplaceWith? && Screen(t, m.catalog, req).Admit?
    ensures Execute(t, s, m, req).0.Refused? ==> IndexObjects(t, s, m)
  {
    var a := Screen(t, m.catalog, req);
    assert DeviceOk(s, a.deviceId);
    var current := Current(s, a.deviceId);
    TakenMeans(t, s, m, Evidence(a.administratorId, Some(|s.assignments|), a.deviceId, m.eventUuid,
                                 if current.Some? then Replace else Assign, current, req.reason));
  }

  /** Every change is told by one new event, at the end of the table, that names who asked for it and
      why, and by the row it began or ended. */
  lemma ChangesAreTold(t: Tools, s: Store, m: Moment, req: Request)
    requires Valid(t, s) && Execute(t, s, m, req).1 != s
    ensures req.administrator in m.catalog.assigners && req.device in m.catalog.devices
    ensures var (outcome, after) := Execute(t, s, m, req);
            && |after.events.rows| == |s.events.rows| + 1 && after.events.rows[..|s.events.rows|] == s.events.rows
            && var link := after.events.rows[|s.events.rows|].link;
               && link.time == m.recordedAt && link.body.eventUuid == m.eventUuid && link.body.reason == req.reason
               && link.body.administratorId == m.catalog.assigners[req.administrator]
               && link.body.deviceId == m.catalog.devices[req.device].id
               && (outcome.Assigned? ==>
                     var row := after.assignments[|s.assignments|];
                     && row.administratorId == link.body.administratorId && row.reason == req.reason
                     && row.deviceId == link.body.deviceId && row.assignedAt == m.now
                     && link.body.assignmentId == Some(|s.assignments|))
               && (link.body.previousAssignmentId.Some? ==>
                     after.assignments[link.body.previousAssignmentId.value].supersededAt == Some(m.now))
  {
    var a := Screen(t, m.catalog, req);
    assert DeviceOk(s, a.deviceId);
  }

  /** No row is deleted or redirected, and a superseded one stays as it is. */
  ghost predicate OnlyEnds(before: seq<Assignment>, after: seq<Assignment>) {
    && |before| <= |after|
    && forall i :: 0 <= i < |before| ==>
         && (!before[i].active ==> after[i] == before[i])
         && after[i].(active := false, supersededAt := None) == before[i].(active := false, supersededAt := None)
  }

  lemma SupersedingOnlyEnds(rows: seq<Assignment>, current: Option<int>, now: int, more: seq<Assignment>)
    requires current.Some? ==> 0 <= current.value < |rows| && rows[current.value].active
    ensures OnlyEnds(rows, Superseded(rows, current, now) + more)
  {
  }

  /** Assignments are only ever added or ended. */
  lemma AssignmentsOnlyEnd(t: Tools, s: Store, m: Moment, req: Request)
    ensures OnlyEnds(s.assignments, Execute(t, s, m, req).1.assignments)
  {
    var a := Screen(t, m.catalog, req);
    if a.Admit? {
      ChangeOnlyEnds(t, s, m, req.reason, a.administratorId, a.deviceId, a.revisionId);
    }
  }

  lemma ChangeOnlyEnds(t: Tools, s: Store, m: Moment, reason: string, administrator: int, device: int,
                       revision: Option<int>)
    ensures OnlyEnds(s.assignments, Change(t, s, m, reason, administrator, device, revision).1.assignments)
  {
    var current, after := Current(s, device), Change(t, s, m, reason, administrator, device, revision).1;
    if after != s {
      if revision.None? {
        var ended := Superseded(s.assignments, current, m.now);
        SupersedingOnlyEnds(s.assignments, current, m.now, []);
        assert after.assignments == ended == ended + [];
      } else {
        SupersedingOnlyEnds(s.assignments, current, m.now,
                            [Assignment(device, revision.value, administrator, reason, true, m.now, None)]);
      }
    }
  }

  /** No call records an event under a UUID or a hash that is in use. */
  lemma ExecuteKeepsUnique(t: Tools, s: Store, m: Moment, req: Request)
    requires UniqueRows(UuidKey(), s.events.rows)
    ensures UniqueRows(UuidKey(), Execute(t, s, m, req).1.events.rows)
  {
    var a := Screen(t, m.catalog, req);
    if a.Admit? {
      ChangeKeepsUnique(t, s, m, req.reason, a.administratorId, a.deviceId, a.revisionId);
    }
  }

  lemma ChangeKeepsUnique(t: Tools, s: Store, m: Moment, reason: string, administrator: int, device: int,
                          revision: Option<int>)
    requires UniqueRows(UuidKey(), s.events.rows)
    ensures UniqueRows(UuidKey(), Change(t, s, m, reason, administrator, device, revision).1.events.rows)
  {
    if Change(t, s, m, reason, administrator, device, revision).1 != s {
      var current := Current(s, device);
      var body := if revision.None? then Evidence(administrator, None, device, m.eventUuid, Clear, current, reason)
                  else Evidence(administrator, Some(|s.assignments|), device, m.eventUuid,
                                if current.Some? then Replace else Assign, current, reason);
      AppendKeepsUnique(t.digest, DeviceKey(), UuidKey(), s.events, body, m.recordedAt);
    }
  }

  /** The event of a call is the latest of all, if the clock did not go back. */
  lemma ExecuteTimed(t: Tools, s: Store, m: Moment, req: Request)
    requires Timed(s.events, m.recordedAt)
    ensures Timed(Execute(t, s, m, req).1.events, m.recordedAt)
  {
    if Execute(t, s, m, req).1 != s {
      var a := Screen(t, m.catalog, req);
      var body := Execute(t, s, m, req).1.events.rows[|s.events.rows|].link.body;
      AppendTimed(t.digest, DeviceKey(), s.events, body, m.recordedAt);
    }
  }

  // ----- the service

  class AssignmentService {
    var assignments: seq<Assignment>
    var rows: seq<Row<Evidence>>
    var heads: map<int, Hash>
    const tools: Tools

    constructor (tools: Tools)
      ensures this.tools == tools && Tables() == EMPTY
    {
      this.tools := tools;
      assignments, rows, heads := [], [], map[];
    }

    ghost function Tables(): Store
      reads this
    {
      Store(assignments, Table(rows, heads))
    }

    /** `replace_policy_assignment`. */
    method ReplacePolicyAssignment(m: Moment, device: string, revision: string, administrator: string, reason: string)
      returns (outcome: Outcome)
      modifies this
      ensures (outcome, Tables())
              == Execute(tools, old(Tables()), m, ReplaceWith(device, administrator, reason, revision))
    {
      if !IsUuid4(device) || !IsUuid4(revision) || !IsUuid4(administrator) || !ReasonOk(tools, reason) {
        return Refused(Invalid);
      }
      if administrator !in m.catalog.assigners {
        return Refused(Forbidden);
      }
      if device !in m.catalog.devices {
        return Refused(NotFound);
      }
      if !m.catalog.devices[device].active {
        return Refused(Conflict);
      }
      if revision !in m.catalog.revisions {
        return Refused(NotFound);
      }
      outcome := ReplaceCurrent(m, m.catalog.devices[device].id, m.catalog.revisions[revision],
                                m.catalog.assigners[administrator], reason);
    }

    /** The rest of `replace_policy_assignment`, once everything named has been found. */
    method ReplaceCurrent(m: Moment, device: int, revision: int, administrator: int, reason: string)
      returns (outcome: Outcome)
      modifies this
      ensures (outcome, Tables()) == Change(tools, old(Tables()), m, reason, administrator, device, Some(revision))
    {
      var active := ActiveIds(assignments, device);
      if |active| > 1 {
        return Refused(Persistence);
      }
      var current := if active == [] then None else Some(active[0]);
      if current.Some? && assignments[current.value].revisionId == revision {
        return Assigned(current.value, false);
      }
      assert current == Current(old(Tables()), device);
      var before := assignments;
      EndCurrent(current, m.now);
      var assignmentId := |assignments|;
      assignments := assignments + [Assignment(device, revision, administrator, reason, true, m.now, None)];
      var recorded := AppendAssignmentEvent(
        Evidence(administrator, Some(assignmentId), device, m.eventUuid, if current.Some? then Replace else Assign,
                 current, reason), m.recordedAt);
      if !recorded {
        assignments := before;
        return Refused(Conflict);
      }
      outcome := Assigned(assignmentId, current.Some?);
    }

    /** The status and end of the current row, if there is one. */
    method EndCurrent(current: Option<int>, now: int)
      requires current.Some? ==> 0 <= current.value < |assignments|
      modifies this`assignments
      ensures assignments == Superseded(old(assignments), current, now)
    {
      if current.Some? {
        var ended := assignments[current.value];
        ended := ended.(active := false);
        ended := ended.(supersededAt := Some(now));
        assignments := assignments[current.value := ended];
      }
    }

    /** `clear_policy_assignment`. */
    method ClearPolicyAssignment(m: Moment, device: string, administrator: string, reason: string)
      returns (outcome: Outcome)
      modifies this
      ensures (outcome, Tables()) == Execute(tools, old(Tables()), m, ClearOf(device, administrator, reason))
    {
      if !IsUuid4(device) || !IsUuid4(administrator) || !ReasonOk(tools, reason) {
        return Refused(Invalid);
      }
      if administrator !in m.catalog.assigners {
        return Refused(Forbidden);
      }
      if device !in m.catalog.devices {
        return Refused(NotFound);
      }
      if !m.catalog.devices[device].active {
        return Refused(Conflict);
      }
      var deviceId := m.catalog.devices[device].id;
      var active := ActiveIds(assignments, deviceId);
      if |active| > 1 {
        return Refused(Persistence);
      }
      if active == [] {
        return Refused(Conflict);
      }
      var before, current := assignments, active[0];
      EndCurrent(Some(current), m.now);
      var recorded := AppendAssignmentEvent(
        Evidence(m.catalog.assigners[administrator], None, deviceId, m.eventUuid, Clear, Some(current), reason),
        m.recordedAt);
      if !recorded {
        assignments := before;
        return Refused(Conflict);
      }
      outcome := Cleared(current);
    }

    /** `_append_assignment_event`: the head is looked up, the event is linked to it and added,
        and the head is created or moved, unless a unique index objects. */
    method AppendAssignmentEvent(body: Evidence, at: int) returns (recorded: bool)
      modifies this`rows, this`heads
      ensures recorded == !Taken(tools.digest, DeviceKey(), UuidKey(), old(Tables()).events, body, at)
      ensures Tables().events
              == if recorded then Append(tools.digest, DeviceKey(), old(Tables()).events, body, at)
                 else old(Tables()).events
    {
      var previous := if body.deviceId in heads then Some(heads[body.deviceId]) else None;
      var link := Link(body, at, previous, tools.digest(body, at, previous));
      assert link == NextLink(tools.digest, DeviceKey(), Tables().events, body, at);
      if exists i :: 0 <= i < |rows| && (rows[i].link.body.eventUuid == body.eventUuid || rows[i].link.hash == link.hash) {
        return false;
      }
      rows := rows + [Row(|rows|, link)];
      heads := heads[body.deviceId := link.hash];
      recorded := true;
    }
  }
}
