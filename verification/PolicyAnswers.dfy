/** When a device is given a policy payload, and which, in terms of the tables
    (`backend/app/services/policy_sync.py`). */
module PolicyAnswers {
  import opened Wrappers
  import opened Base64Url
  import opened PolicySync
  import PA = PolicyAssignments

  /** Version numbers in range, and both identifiers or neither. */
  predicate WellFormed(report: Report) {
    && 0 <= report.version < 0x8000_0000
    && report.policy.Some? == report.revision.Some?
    && (report.policy.Some? ==> IsUuid4(report.policy.value))
    && (report.revision.Some? ==> IsUuid4(report.revision.value))
  }

  /** Row `i` is an active assignment of the device. */
  predicate ActiveRow(s: PA.Store, device: int, i: int) {
    0 <= i < |s.assignments| && s.assignments[i].deviceId == device && s.assignments[i].active
  }

  ghost predicate Unassigned(s: PA.Store, device: int) { forall i :: !ActiveRow(s, device, i) }

  ghost predicate OnlyRow(s: PA.Store, device: int, i: int) {
    ActiveRow(s, device, i) && forall j :: ActiveRow(s, device, j) ==> j == i
  }

  /** The revision of an assignment is known, sound, and of an active policy. */
  predicate Deliverable(v: View, revision: int) {
    && revision in v.revisions && v.revisions[revision].sound
    && v.revisions[revision].policy in v.statuses && v.statuses[v.revisions[revision].policy] == Active
  }

  lemma {:induction false} ActiveIdsAre(rows: seq<PA.Assignment>, device: int, i: int)
    ensures i in PA.ActiveIds(rows, device)
       <==> 0 <= i < |rows| && rows[i].deviceId == device && rows[i].active
    decreases |rows|
  {
    if |rows| > 0 {
      ActiveIdsAre(rows[..|rows| - 1], device, i);
    }
  }

  lemma {:induction false} ActiveIdsDiffer(rows: seq<PA.Assignment>, device: int)
    ensures forall i, j :: 0 <= i < j < |PA.ActiveIds(rows, device)| ==>
              PA.ActiveIds(rows, device)[i] < PA.ActiveIds(rows, device)[j]
    decreases |rows|
  {
    if |rows| > 0 {
      ActiveIdsDiffer(rows[..|rows| - 1], device);
    }
  }

  lemma NoActiveIds(s: PA.Store, device: int)
    ensures PA.ActiveIds(s.assignments, device) == [] <==> Unassigned(s, device)
  {
    var ids := PA.ActiveIds(s.assignments, device);
    if ids != [] {
      assert ActiveRow(s, device, ids[0]);
    } else {
      forall i ensures !ActiveRow(s, device, i) {
        ActiveIdsAre(s.assignments, device, i);
      }
    }
  }

  lemma OneValue(ids: seq<int>, i: int)
    requires i in ids && (forall k :: 0 <= k < |ids| ==> ids[k] == i)
    requires forall k, l :: 0 <= k < l < |ids| ==> ids[k] < ids[l]
    ensures ids == [i]
  {
    AscendingGap(ids, |ids| - 1);
  }

  lemma {:induction false} AscendingGap(ids: seq<int>, k: nat)
    requires k < |ids| && forall i, j :: 0 <= i < j < |ids| ==> ids[i] < ids[j]
    ensures ids[k] >= ids[0] + k
  {
    if k > 0 {
      AscendingGap(ids, k - 1);
    }
  }

  lemma OneActiveId(s: PA.Store, device: int, i: int)
    ensures PA.ActiveIds(s.assignments, device) == [i] <==> OnlyRow(s, device, i)
  {
    var ids := PA.ActiveIds(s.assignments, device);
    ActiveIdsDiffer(s.assignments, device);
    forall j ensures j in ids <==> ActiveRow(s, device, j) {
      ActiveIdsAre(s.assignments, device, j);
    }
    if OnlyRow(s, device, i) {
      assert i in ids && forall k :: 0 <= k < |ids| ==> ids[k] in ids;
      OneValue(ids, i);
    }
    if ids == [i] {
      assert i in ids;
    }
  }

  /** What the device is owed: nothing, or the revision of its only active assignment. */
  ghost predicate Owed(v: View, s: PA.Store, device: string, due: Option<Revision>) {
    && device in v.devices && v.devices[device].active
    && match due
       case None => Unassigned(s, v.devices[device].id)
       case Some(r) => exists i :: OnlyRow(s, v.devices[device].id, i) && Deliverable(v, s.assignments[i].revisionId)
                                   && v.revisions[s.assignments[i].revisionId] == r
  }

  /** The payload for a device that is owed nothing, and for one that is owed a revision. */
  function PayloadFor(report: Report, due: Option<Revision>): Answer {
    match due
    case None => Payload(if report == Report(0, None, None) then NoChange else Clear, 0, None)
    case Some(r) =>
      Payload(if report.revision == Some(r.uuid) || (report == Report(r.version, None, None)) then NoChange
              else if report.policy == Some(r.policy) && report.version > r.version then Rollback
              else Apply,
              r.version, Some(Document(r.policy, r.uuid, r.version, r.blockedApps)))
  }

  lemma UnassignedAnswer(v: View, s: PA.Store, device: string, report: Report)
    requires IsUuid4(device) && WellFormed(report) && Owed(v, s, device, None)
    ensures SyncPayload(v, s, device, report) == PayloadFor(report, None)
  {
    NoActiveIds(s, v.devices[device].id);
  }

  lemma AssignedAnswer(v: View, s: PA.Store, device: string, report: Report, r: Revision)
    requires IsUuid4(device) && WellFormed(report) && Owed(v, s, device, Some(r))
    ensures SyncPayload(v, s, device, report) == PayloadFor(report, Some(r))
  {
    var i :| OnlyRow(s, v.devices[device].id, i) && Deliverable(v, s.assignments[i].revisionId)
             && v.revisions[s.assignments[i].revisionId] == r;
    OneActiveId(s, v.devices[device].id, i);
    assert [i][0] == i;
  }

  lemma PayloadIsOwed(v: View, s: PA.Store, device: string, report: Report) returns (due: Option<Revision>)
    requires SyncPayload(v, s, device, report).Payload?
    ensures IsUuid4(device) && WellFormed(report) && Owed(v, s, device, due)
  {
    var d := v.devices[device].id;
    var ids := PA.ActiveIds(s.assignments, d);
    NoActiveIds(s, d);
    due := None;
    if ids != [] {
      OneActiveId(s, d, ids[0]);
      assert ids == [ids[0]];
      due := Some(v.revisions[s.assignments[ids[0]].revisionId]);
    }
  }

  /** A payload is given exactly to well-formed reports of known, active devices that are owed
      nothing or one deliverable revision, and it is the one that follows from what is owed. */
  lemma PayloadGivenExactly(v: View, s: PA.Store, device: string, report: Report)
    ensures SyncPayload(v, s, device, report).Payload?
       <==> IsUuid4(device) && WellFormed(report) && exists due :: Owed(v, s, device, due)
    ensures forall due :: IsUuid4(device) && WellFormed(report) && Owed(v, s, device, due) ==>
              SyncPayload(v, s, device, report) == PayloadFor(report, due)
  {
    forall due | IsUuid4(device) && WellFormed(report) && Owed(v, s, device, due)
      ensures SyncPayload(v, s, device, report) == PayloadFor(report, due)
    {
      if due.None? {
        UnassignedAnswer(v, s, device, report);
      } else {
        AssignedAnswer(v, s, device, report, due.value);
      }
    }
    if SyncPayload(v, s, device, report).Payload? {
      var due := PayloadIsOwed(v, s, device, report);
    }
  }

  /** Which problem is reported instead. */
  lemma ProblemReportedExactly(v: View, s: PA.Store, device: string, report: Report, d: int, n: int)
    requires IsUuid4(device) && WellFormed(report)
    ensures SyncPayload(v, s, device, report) == Failed(DeviceNotFound) <==> device !in v.devices
    ensures SyncPayload(v, s, device, report) == Failed(DeviceBlocked(d))
       <==> device in v.devices && !v.devices[device].active && v.devices[device].id == d
    ensures SyncPayload(v, s, device, report) == Failed(PolicyRevoked(d, n)) <==> Withheld(v, s, device, d, n, Revoked)
    ensures SyncPayload(v, s, device, report) == Failed(PolicyInactive(d, n))
       <==> Withheld(v, s, device, d, n, Draft) || Withheld(v, s, device, d, n, Inactive)
    ensures SyncPayload(v, s, device, report) == Failed(RevisionMismatch(d, n)) <==> Withheld(v, s, device, d, n, Active)
  {
    if device in v.devices && v.devices[device].active {
      var ids := PA.ActiveIds(s.assignments, v.devices[device].id);
      NoActiveIds(s, v.devices[device].id);
      if ids != [] {
        OneActiveId(s, v.devices[device].id, ids[0]);
        assert |ids| == 1 ==> ids == [ids[0]];
      }
      forall i | OnlyRow(s, v.devices[device].id, i) ensures ids == [i] {
        OneActiveId(s, v.devices[device].id, i);
      }
    }
  }

  /** The device's only assignment is of a revision with this number whose policy has this status,
      or, if the policy is active, whose payload is not the one that was hashed. */
  ghost predicate Withheld(v: View, s: PA.Store, device: string, d: int, version: int, status: PolicyStatus) {
    && device in v.devices && v.devices[device].active && v.devices[device].id == d
    && exists i :: OnlyRow(s, d, i) && s.assignments[i].revisionId in v.revisions
         && var r := v.revisions[s.assignments[i].revisionId];
            && r.version == version && r.policy in v.statuses && v.statuses[r.policy] == status
            && (status == Active ==> !r.sound)
  }
}
