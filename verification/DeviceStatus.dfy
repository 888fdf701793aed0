/** Check-ins and policy acknowledgements of devices (`backend/app/services/device_status.py`). */
module DeviceStatus {
  import opened Wrappers
  import opened Observations

  datatype CheckIn = CheckIn(uuid: string, observedAt: int, elapsed: int, bootCount: int, dpcVersion: int,
                             androidVersion: string, apiLevel: int, securityPatch: string, capabilities: seq<string>,
                             policy: Option<string>, revision: Option<string>, policyStatus: string, healthy: bool,
                             queuedEvents: int)

  /** The columns of `device_compliance_states` that come from a check-in. */
  datatype Compliance = Compliance(observedAt: int, bootCount: int, dpcVersion: int, androidVersion: string,
                                   apiLevel: int, securityPatch: string, capabilities: seq<string>,
                                   policy: Option<string>, revision: Option<string>, policyStatus: string,
                                   healthy: bool, queuedEvents: int)

  datatype Acknowledgement = Acknowledgement(uuid: string, observedAt: int, elapsed: int, bootCount: int,
                                             policy: Option<string>, revision: Option<string>, outcome: string,
                                             errorCode: Option<string>)

  /** The columns of `device_policy_states` that come from an acknowledgement. */
  datatype PolicyState = PolicyState(policy: Option<string>, revision: Option<string>, outcome: string,
                                     errorCode: Option<string>, observedAt: int)

  datatype Device = Device(id: int, active: bool, androidVersion: string, apiLevel: int)

  datatype Credential = Credential(id: int, active: bool)

  /** The contracts of `device_status_contract.py`, and content hashes. */
  datatype Tools = Tools(checkInOk: CheckIn -> bool, acknowledgementOk: Acknowledgement -> bool,
                         checkInHash: CheckIn -> string, acknowledgementHash: Acknowledgement -> string)

  datatype Store = Store(checkIns: Table<CheckIn, Compliance>, acknowledgements: Table<Acknowledgement, PolicyState>,
                         lastSync: map<int, int>)

  datatype Answer = Answered(outcome: Outcome) | ContractError

  function ComplianceOf(c: CheckIn): Compliance {
    Compliance(c.observedAt, c.bootCount, c.dpcVersion, c.androidVersion, c.apiLevel, c.securityPatch, c.capabilities,
               c.policy, c.revision, c.policyStatus, c.healthy, c.queuedEvents)
  }

  function CheckIns(t: Tools): Kind<CheckIn, Compliance> {
    Kind((c: CheckIn) => c.uuid, (c: CheckIn) => c.observedAt, t.checkInHash, (c: CheckIn) => ComplianceOf(c),
         (c: Compliance) => c.observedAt)
  }

  function PolicyStateOf(a: Acknowledgement): PolicyState {
    PolicyState(a.policy, a.revision, a.outcome, a.errorCode, a.observedAt)
  }

  function Acknowledgements(t: Tools): Kind<Acknowledgement, PolicyState> {
    Kind((a: Acknowledgement) => a.uuid, (a: Acknowledgement) => a.observedAt, t.acknowledgementHash,
         (a: Acknowledgement) => PolicyStateOf(a), (p: PolicyState) => p.observedAt)
  }

  /** `record_check_in`. */
  function RecordCheckIn(t: Tools, s: Store, report: CheckIn, device: Device, credential: Credential, now: int)
    : (Answer, Store)
  {
    if !t.checkInOk(report) then (ContractError, s)
    else if !device.active || !credential.active then (Answered(Conflict), s)
    else if report.apiLevel != device.apiLevel || report.androidVersion != device.androidVersion then (Answered(Conflict), s)
    else
      var (outcome, checkIns) := Record(CheckIns(t), s.checkIns, Delivery(report, device.id, credential.id, now));
      (Answered(outcome), s.(checkIns := checkIns,
                             lastSync := if outcome == Receipt(report.uuid, false) then s.lastSync[device.id := now]
                                         else s.lastSync))
  }

  /** `record_policy_acknowledgement`. A report that names a policy must name one of its revisions,
      unless it has been stored before. */
  function RecordAcknowledgement(t: Tools, s: Store, report: Acknowledgement, device: Device, credential: Credential,
                                 revisions: set<(Option<string>, Option<string>)>, now: int): (Answer, Store)
  {
    if !t.acknowledgementOk(report) then (ContractError, s)
    else if !device.active || !credential.active then (Answered(Conflict), s)
    else if Find(Acknowledgements(t), s.acknowledgements.rows, report.uuid).None? && report.policy.Some?
            && (report.policy, report.revision) !in revisions then (Answered(Conflict), s)
    else
      var (outcome, acknowledgements) :=
        Record(Acknowledgements(t), s.acknowledgements, Delivery(report, device.id, credential.id, now));
      (Answered(outcome), s.(acknowledgements := acknowledgements))
  }

  datatype Step =
    | Report(checkIn: CheckIn, device: Device, credential: Credential, now: int)
    | Acknowledge(acknowledgement: Acknowledgement, device: Device, credential: Credential,
                  revisions: set<(Option<string>, Option<string>)>, now: int)

  function Execute(t: Tools, s: Store, step: Step): (Answer, Store) {
    match step
    case Report(checkIn, device, credential, now) => RecordCheckIn(t, s, checkIn, device, credential, now)
    case Acknowledge(a, device, credential, revisions, now) =>
      RecordAcknowledgement(t, s, a, device, credential, revisions, now)
  }

  function RunAll(t: Tools, s: Store, steps: seq<Step>): Store
    decreases |steps|
  {
    if |steps| == 0 then s else RunAll(t, Execute(t, s, steps[0]).1, steps[1..])
  }

  const EMPTY := Store(Table([], map[]), Table([], map[]), map[])

  /** Compliance and policy state are what the stored reports say they should be. */
  ghost predicate Valid(t: Tools, s: Store) {
    Projected(CheckIns(t), s.checkIns) && Projected(Acknowledgements(t), s.acknowledgements)
  }

  lemma KindsAreOk(t: Tools)
    ensures KindOk(CheckIns(t)) && KindOk(Acknowledgements(t))
  {
  }

  lemma ExecuteKeepsValid(t: Tools, s: Store, step: Step)
    requires Valid(t, s)
    ensures Valid(t, Execute(t, s, step).1)
  {
    KindsAreOk(t);
    match step
    case Report(checkIn, device, credential, now) =>
      RecordKeepsProjected(CheckIns(t), s.checkIns, Delivery(checkIn, device.id, credential.id, now));
    case Acknowledge(a, device, credential, _, now) =>
      RecordKeepsProjected(Acknowledgements(t), s.acknowledgements, Delivery(a, device.id, credential.id, now));
  }

  /** After every run the compliance and policy rows are last-observed-wins projections. */
  lemma {:induction false} RunKeepsValid(t: Tools, s: Store, steps: seq<Step>)
    requires Valid(t, s)
    ensures Valid(t, RunAll(t, s, steps))
    decreases |steps|
  {
    if |steps| > 0 {
      ExecuteKeepsValid(t, s, steps[0]);
      RunKeepsValid(t, Execute(t, s, steps[0]).1, steps[1..]);
    }
  }

  /** The check-ins and acknowledgements of a run that pass the checks made before they are stored. */
  function CheckInsOf(t: Tools, steps: seq<Step>): seq<Delivery<CheckIn>>
    decreases |steps|
  {
    if |steps| == 0 then []
    else
      var step, rest := steps[0], CheckInsOf(t, steps[1..]);
      if step.Report? && t.checkInOk(step.checkIn) && step.device.active && step.credential.active
         && step.checkIn.apiLevel == step.device.apiLevel && step.checkIn.androidVersion == step.device.androidVersion
      then [Delivery(step.checkIn, step.device.id, step.credential.id, step.now)] + rest
      else rest
  }

  lemma {:induction false} CheckInsAreDeliveries(t: Tools, s: Store, steps: seq<Step>)
    ensures RunAll(t, s, steps).checkIns == Run(CheckIns(t), s.checkIns, CheckInsOf(t, steps))
    decreases |steps|
  {
    if |steps| > 0 {
      var next := Execute(t, s, steps[0]).1;
      CheckInsAreDeliveries(t, next, steps[1..]);
      var all, rest := CheckInsOf(t, steps), CheckInsOf(t, steps[1..]);
      if all != rest {
        assert all[1..] == rest;
        assert next.checkIns == Record(CheckIns(t), s.checkIns, all[0]).1;
      }
    }
  }

  /** Two runs in which the same check-ins are delivered, in whatever order, with whatever
      repetitions and other traffic, end with the same compliance of every device. */
  lemma ComplianceConverges(t: Tools, first: seq<Step>, second: seq<Step>, device: int)
    requires Delivered(CheckInsOf(t, first)) == Delivered(CheckInsOf(t, second))
    requires UuidsDetermine(CheckIns(t), Delivered(CheckInsOf(t, first)))
    requires NewestAgree(CheckIns(t), Delivered(CheckInsOf(t, first)), device)
    ensures Shown(RunAll(t, EMPTY, first).checkIns, device) == Shown(RunAll(t, EMPTY, second).checkIns, device)
  {
    KindsAreOk(t);
    CheckInsAreDeliveries(t, EMPTY, first);
    CheckInsAreDeliveries(t, EMPTY, second);
    OrderDoesNotMatter(CheckIns(t), CheckInsOf(t, first), CheckInsOf(t, second), device);
  }

  /** The check-ins are in order, and each tells the version and API level on record for its device. */
  predicate Admissible(t: Tools, devices: map<int, Device>, c: Content<CheckIn>) {
    && t.checkInOk(c.0) && c.1 in devices
    && devices[c.1] == Device(c.1, true, c.0.androidVersion, c.0.apiLevel)
  }

  function Reporting(d: Delivery<CheckIn>): Step {
    Report(d.report, Device(d.device, true, d.report.androidVersion, d.report.apiLevel), Credential(d.credential, true),
           d.now)
  }

  function ReportingAll(ds: seq<Delivery<CheckIn>>): seq<Step> {
    if |ds| == 0 then [] else [Reporting(ds[0])] + ReportingAll(ds[1..])
  }

  /** Every device of the run is as it is on record. */
  ghost predicate OnRecord(devices: map<int, Device>, steps: seq<Step>) {
    forall i :: 0 <= i < |steps| ==> steps[i].device.id in devices && devices[steps[i].device.id] == steps[i].device
  }

  lemma {:induction false} ReportingDelivers(t: Tools, devices: map<int, Device>, ds: seq<Delivery<CheckIn>>)
    requires forall c :: c in Delivered(ds) ==> Admissible(t, devices, c)
    ensures CheckInsOf(t, ReportingAll(ds)) == ds && OnRecord(devices, ReportingAll(ds))
    decreases |ds|
  {
    if |ds| > 0 {
      DeliveredHead(ds);
      assert Admissible(t, devices, (ds[0].report, ds[0].device, ds[0].credential));
      ReportingDelivers(t, devices, ds[1..]);
      OneMore(t, devices, Reporting(ds[0]), ReportingAll(ds[1..]), ds[0]);
      assert ReportingAll(ds) == [Reporting(ds[0])] + ReportingAll(ds[1..]);
      assert ds == [ds[0]] + ds[1..];
    }
  }

  lemma OneMore(t: Tools, devices: map<int, Device>, step: Step, steps: seq<Step>, d: Delivery<CheckIn>)
    requires step == Reporting(d) && Admissible(t, devices, (d.report, d.device, d.credential))
    ensures CheckInsOf(t, [step] + steps) == [d] + CheckInsOf(t, steps)
    ensures OnRecord(devices, steps) ==> OnRecord(devices, [step] + steps)
  {
    var all := [step] + steps;
    assert all[0] == step && all[1..] == steps;
  }

  /** Runs with these devices and exactly these check-ins all end with the same compliance of the device. */
  ghost predicate ComplianceIsDetermined(t: Tools, devices: map<int, Device>, cs: set<Content<CheckIn>>, device: int) {
    forall first: seq<Step>, second: seq<Step> ::
      Delivered(CheckInsOf(t, first)) == cs && Delivered(CheckInsOf(t, second)) == cs
      && OnRecord(devices, first) && OnRecord(devices, second) ==>
        Shown(RunAll(t, EMPTY, first).checkIns, device) == Shown(RunAll(t, EMPTY, second).checkIns, device)
  }

  /** A set of check-ins determines what is shown of a device exactly when its newest check-ins agree. */
  lemma ComplianceConvergesExactly(t: Tools, devices: map<int, Device>, cs: set<Content<CheckIn>>, device: int)
    requires UuidsDetermine(CheckIns(t), cs) && forall c :: c in cs ==> Admissible(t, devices, c)
    ensures ComplianceIsDetermined(t, devices, cs, device) <==> NewestAgree(CheckIns(t), cs, device)
  {
    if NewestAgree(CheckIns(t), cs, device) {
      forall first: seq<Step>, second: seq<Step>
        | Delivered(CheckInsOf(t, first)) == cs && Delivered(CheckInsOf(t, second)) == cs
        ensures Shown(RunAll(t, EMPTY, first).checkIns, device) == Shown(RunAll(t, EMPTY, second).checkIns, device)
      {
        ComplianceConverges(t, first, second, device);
      }
    } else {
      KindsAreOk(t);
      var first, second := DisagreeingRuns(CheckIns(t), cs, device);
      ReportingDelivers(t, devices, first);
      ReportingDelivers(t, devices, second);
      CheckInsAreDeliveries(t, EMPTY, ReportingAll(first));
      CheckInsAreDeliveries(t, EMPTY, ReportingAll(second));
    }
  }

  /** Every acknowledgement of the run is about a revision that is known when it arrives. */
  predicate AllKnown(steps: seq<Step>) {
    forall i :: 0 <= i < |steps| && steps[i].Acknowledge? && steps[i].acknowledgement.policy.Some? ==>
      (steps[i].acknowledgement.policy, steps[i].acknowledgement.revision) in steps[i].revisions
  }

  function AcknowledgementsOf(t: Tools, steps: seq<Step>): seq<Delivery<Acknowledgement>>
    decreases |steps|
  {
    if |steps| == 0 then []
    else
      var step, rest := steps[0], AcknowledgementsOf(t, steps[1..]);
      if step.Acknowledge? && t.acknowledgementOk(step.acknowledgement) && step.device.active && step.credential.active
      then [Delivery(step.acknowledgement, step.device.id, step.credential.id, step.now)] + rest
      else rest
  }

  lemma {:induction false} AcknowledgementsAreDeliveries(t: Tools, s: Store, steps: seq<Step>)
    requires AllKnown(steps)
    ensures RunAll(t, s, steps).acknowledgements
            == Run(Acknowledgements(t), s.acknowledgements, AcknowledgementsOf(t, steps))
    decreases |steps|
  {
    if |steps| > 0 {
      var next := Execute(t, s, steps[0]).1;
      assert AllKnown(steps[1..]) by {
        assert forall i :: 0 <= i < |steps[1..]| ==> steps[1..][i] == steps[i + 1];
      }
      AcknowledgementsAreDeliveries(t, next, steps[1..]);
      var all, rest := AcknowledgementsOf(t, steps), AcknowledgementsOf(t, steps[1..]);
      if all != rest {
        assert all[1..] == rest;
        assert next.acknowledgements == Record(Acknowledgements(t), s.acknowledgements, all[0]).1;
      }
    }
  }

  /** The same of acknowledgements and the reported policy state. */
  lemma PolicyStateConverges(t: Tools, first: seq<Step>, second: seq<Step>, device: int)
    requires AllKnown(first) && AllKnown(second)
    requires Delivered(AcknowledgementsOf(t, first)) == Delivered(AcknowledgementsOf(t, second))
    requires UuidsDetermine(Acknowledgements(t), Delivered(AcknowledgementsOf(t, first)))
    requires NewestAgree(Acknowledgements(t), Delivered(AcknowledgementsOf(t, first)), device)
    ensures Shown(RunAll(t, EMPTY, first).acknowledgements, device)
            == Shown(RunAll(t, EMPTY, second).acknowledgements, device)
  {
    KindsAreOk(t);
    AcknowledgementsAreDeliveries(t, EMPTY, first);
    AcknowledgementsAreDeliveries(t, EMPTY, second);
    OrderDoesNotMatter(Acknowledgements(t), AcknowledgementsOf(t, first), AcknowledgementsOf(t, second), device);
  }

  function Acknowledging(d: Delivery<Acknowledgement>): Step {
    Acknowledge(d.report, Device(d.device, true, "", 0), Credential(d.credential, true),
                {(d.report.policy, d.report.revision)}, d.now)
  }

  function AcknowledgingAll(ds: seq<Delivery<Acknowledgement>>): seq<Step> {
    if |ds| == 0 then [] else [Acknowledging(ds[0])] + AcknowledgingAll(ds[1..])
  }

  lemma {:induction false} AcknowledgingDelivers(t: Tools, ds: seq<Delivery<Acknowledgement>>)
    requires forall c :: c in Delivered(ds) ==> t.acknowledgementOk(c.0)
    ensures AcknowledgementsOf(t, AcknowledgingAll(ds)) == ds && AllKnown(AcknowledgingAll(ds))
    decreases |ds|
  {
    if |ds| > 0 {
      DeliveredHead(ds);
      assert t.acknowledgementOk(ds[0].report) by {
        assert (ds[0].report, ds[0].device, ds[0].credential) in Delivered(ds);
      }
      AcknowledgingDelivers(t, ds[1..]);
      assert AcknowledgingAll(ds)[1..] == AcknowledgingAll(ds[1..]);
      assert ds == [ds[0]] + ds[1..];
    }
  }

  /** Runs with exactly these acknowledgements of known revisions all end with the same policy state. */
  ghost predicate PolicyStateIsDetermined(t: Tools, cs: set<Content<Acknowledgement>>, device: int) {
    forall first: seq<Step>, second: seq<Step> ::
      Delivered(AcknowledgementsOf(t, first)) == cs && Delivered(AcknowledgementsOf(t, second)) == cs
      && AllKnown(first) && AllKnown(second) ==>
        Shown(RunAll(t, EMPTY, first).acknowledgements, device) == Shown(RunAll(t, EMPTY, second).acknowledgements, device)
  }

  /** The same of acknowledgements. */
  lemma PolicyStateConvergesExactly(t: Tools, cs: set<Content<Acknowledgement>>, device: int)
    requires UuidsDetermine(Acknowledgements(t), cs) && forall c :: c in cs ==> t.acknowledgementOk(c.0)
    ensures PolicyStateIsDetermined(t, cs, device) <==> NewestAgree(Acknowledgements(t), cs, device)
  {
    if NewestAgree(Acknowledgements(t), cs, device) {
      forall first: seq<Step>, second: seq<Step>
        | Delivered(AcknowledgementsOf(t, first)) == cs && Delivered(AcknowledgementsOf(t, second)) == cs
          && AllKnown(first) && AllKnown(second)
        ensures Shown(RunAll(t, EMPTY, first).acknowledgements, device)
                == Shown(RunAll(t, EMPTY, second).acknowledgements, device)
      {
        PolicyStateConverges(t, first, second, device);
      }
    } else {
      KindsAreOk(t);
      var first, second := DisagreeingRuns(Acknowledgements(t), cs, device);
      AcknowledgingDelivers(t, first);
      AcknowledgingDelivers(t, second);
      AcknowledgementsAreDeliveries(t, EMPTY, AcknowledgingAll(first));
      AcknowledgementsAreDeliveries(t, EMPTY, AcknowledgingAll(second));
    }
  }

  // ----- what is shown

  /** Row `i` is the check-in of the device that was observed last, of several the one stored last. */
  ghost predicate LastCheckIn(s: Store, device: int, i: int) {
    && 0 <= i < |s.checkIns.rows| && s.checkIns.rows[i].device == device
    && forall j :: 0 <= j < |s.checkIns.rows| && s.checkIns.rows[j].device == device ==>
         && s.checkIns.rows[j].report.observedAt <= s.checkIns.rows[i].report.observedAt
         && (j > i ==> s.checkIns.rows[j].report.observedAt < s.checkIns.rows[i].report.observedAt)
  }

  /** After any run the compliance row of a device says, field by field, what its last check-in said. */
  lemma ComplianceSays(t: Tools, steps: seq<Step>, device: int, i: int)
    requires LastCheckIn(RunAll(t, EMPTY, steps), device, i)
    ensures var s := RunAll(t, EMPTY, steps);
            && device in s.checkIns.states
            && var c, r := s.checkIns.states[device].columns, s.checkIns.rows[i].report;
               && c.observedAt == r.observedAt && c.bootCount == r.bootCount && c.dpcVersion == r.dpcVersion
               && c.androidVersion == r.androidVersion && c.apiLevel == r.apiLevel
               && c.securityPatch == r.securityPatch && c.capabilities == r.capabilities
               && c.policy == r.policy && c.revision == r.revision && c.policyStatus == r.policyStatus
               && c.healthy == r.healthy && c.queuedEvents == r.queuedEvents
               && s.checkIns.states[device].receivedAt == s.checkIns.rows[i].receivedAt
  {
    var s := RunAll(t, EMPTY, steps);
    RunKeepsValid(t, EMPTY, steps);
    assert Shows(CheckIns(t), s.checkIns, device);
    assert CheckIns(t).observedAt(s.checkIns.rows[i].report) == s.checkIns.rows[i].report.observedAt;
    LatestIsOne(CheckIns(t), s.checkIns.rows, device, s.checkIns.states[device].last, i);
  }

  lemma LatestIsOne<R(!new), C>(k: Kind<R, C>, rows: seq<Row<R>>, device: int, i: nat, j: nat)
    requires IsLatest(k, rows, device, i) && IsLatest(k, rows, device, j)
    ensures i == j
  {
  }

  ghost predicate LastAcknowledgement(s: Store, device: int, i: int) {
    && 0 <= i < |s.acknowledgements.rows| && s.acknowledgements.rows[i].device == device
    && forall j :: 0 <= j < |s.acknowledgements.rows| && s.acknowledgements.rows[j].device == device ==>
         && s.acknowledgements.rows[j].report.observedAt <= s.acknowledgements.rows[i].report.observedAt
         && (j > i ==> s.acknowledgements.rows[j].report.observedAt < s.acknowledgements.rows[i].report.observedAt)
  }

  /** The same of the policy state and the last acknowledgement. */
  lemma PolicyStateSays(t: Tools, steps: seq<Step>, device: int, i: int)
    requires LastAcknowledgement(RunAll(t, EMPTY, steps), device, i)
    ensures var s := RunAll(t, EMPTY, steps);
            && device in s.acknowledgements.states
            && var c, r := s.acknowledgements.states[device].columns, s.acknowledgements.rows[i].report;
               && c.observedAt == r.observedAt && c.policy == r.policy && c.revision == r.revision
               && c.outcome == r.outcome && c.errorCode == r.errorCode
               && s.acknowledgements.states[device].receivedAt == s.acknowledgements.rows[i].receivedAt
  {
    var s := RunAll(t, EMPTY, steps);
    RunKeepsValid(t, EMPTY, steps);
    assert Shows(Acknowledgements(t), s.acknowledgements, device);
    assert Acknowledgements(t).observedAt(s.acknowledgements.rows[i].report)
        == s.acknowledgements.rows[i].report.observedAt;
    LatestIsOne(Acknowledgements(t), s.acknowledgements.rows, device, s.acknowledgements.states[device].last, i);
  }

  /** A new check-in is stored exactly when it is in order, its device and credential are active, it
      tells the version and API level on record, and its UUID is new; then it is the last row, and
      the device was last heard of now. */
  lemma CheckInStoredExactly(t: Tools, s: Store, r: CheckIn, device: Device, credential: Credential, now: int)
    ensures var (answer, after) := RecordCheckIn(t, s, r, device, credential, now);
            && (answer == Answered(Receipt(r.uuid, false))
                <==> t.checkInOk(r) && device.active && credential.active && r.apiLevel == device.apiLevel
                     && r.androidVersion == device.androidVersion
                     && forall i :: 0 <= i < |s.checkIns.rows| ==> s.checkIns.rows[i].report.uuid != r.uuid)
            && (if answer == Answered(Receipt(r.uuid, false)) then
                  && after.checkIns.rows
                     == s.checkIns.rows + [Row(r, device.id, credential.id, now, t.checkInHash(r))]
                  && after.lastSync == s.lastSync[device.id := now] && after.acknowledgements == s.acknowledgements
                else after == s)
  {
    var found := Find(CheckIns(t), s.checkIns.rows, r.uuid);
    assert forall c :: CheckIns(t).uuid(c) == c.uuid;
    if found.Some? {
      assert s.checkIns.rows[found.value].report.uuid == r.uuid;
    }
  }

  /** So is a new acknowledgement when it names no policy, or a known revision of one. */
  lemma AcknowledgementStoredExactly(t: Tools, s: Store, r: Acknowledgement, device: Device, credential: Credential,
                                     revisions: set<(Option<string>, Option<string>)>, now: int)
    ensures var (answer, after) := RecordAcknowledgement(t, s, r, device, credential, revisions, now);
            && (answer == Answered(Receipt(r.uuid, false))
                <==> t.acknowledgementOk(r) && device.active && credential.active
                     && (r.policy.Some? ==> (r.policy, r.revision) in revisions)
                     && forall i :: 0 <= i < |s.acknowledgements.rows| ==> s.acknowledgements.rows[i].report.uuid != r.uuid)
            && (if answer == Answered(Receipt(r.uuid, false)) then
                  && after.acknowledgements.rows
                     == s.acknowledgements.rows + [Row(r, device.id, credential.id, now, t.acknowledgementHash(r))]
                  && after.lastSync == s.lastSync && after.checkIns == s.checkIns
                else after == s)
  {
    var found := Find(Acknowledgements(t), s.acknowledgements.rows, r.uuid);
    assert forall a :: Acknowledgements(t).uuid(a) == a.uuid;
    if found.Some? {
      assert s.acknowledgements.rows[found.value].report.uuid == r.uuid;
    }
  }

  // ----- the service

  class DeviceStatusService {
    var checkIns: seq<Row<CheckIn>>
    var compliance: map<int, State<Compliance>>
    var acknowledgements: seq<Row<Acknowledgement>>
    var policyStates: map<int, State<PolicyState>>
    var lastSync: map<int, int>
    const tools: Tools

    constructor (tools: Tools)
      ensures this.tools == tools && Tables() == EMPTY
    {
      this.tools := tools;
      checkIns, compliance, acknowledgements, policyStates, lastSync := [], map[], [], map[], map[];
    }

    ghost function Tables(): Store
      reads this
    {
      Store(Table(checkIns, compliance), Table(acknowledgements, policyStates), lastSync)
    }

    /** `record_check_in`. */
    method StoreCheckIn(report: CheckIn, device: Device, credential: Credential, now: int) returns (answer: Answer)
      modifies this`checkIns, this`compliance, this`lastSync
      ensures (answer, Tables()) == RecordCheckIn(tools, old(Tables()), report, device, credential, now)
    {
      if !tools.checkInOk(report) {
        return ContractError;
      }
      if !device.active || !credential.active {
        return Answered(Conflict);
      }
      if report.apiLevel != device.apiLevel || report.androidVersion != device.androidVersion {
        return Answered(Conflict);
      }
      var contentHash := tools.checkInHash(report);
      var existing := Find(CheckIns(tools), checkIns, report.uuid);
      if existing.Some? {
        var row := checkIns[existing.value];
        if row.device != device.id || row.credential != credential.id || row.contentHash != contentHash {
          return Answered(Conflict);
        }
        return Answered(Receipt(report.uuid, true));
      }
      var id := |checkIns|;
      checkIns := checkIns + [Row(report, device.id, credential.id, now, contentHash)];
      if device.id !in compliance || report.observedAt >= compliance[device.id].columns.observedAt {
        compliance := compliance[device.id := State(id, now, ComplianceOf(report))];
      }
      lastSync := lastSync[device.id := now];
      answer := Answered(Receipt(report.uuid, false));
    }

    /** `record_policy_acknowledgement`. */
    method StoreAcknowledgement(report: Acknowledgement, device: Device, credential: Credential,
                                revisions: set<(Option<string>, Option<string>)>, now: int) returns (answer: Answer)
      modifies this`acknowledgements, this`policyStates
      ensures (answer, Tables())
              == RecordAcknowledgement(tools, old(Tables()), report, device, credential, revisions, now)
    {
      if !tools.acknowledgementOk(report) {
        return ContractError;
      }
      if !device.active || !credential.active {
        return Answered(Conflict);
      }
      var contentHash := tools.acknowledgementHash(report);
      var existing := Find(Acknowledgements(tools), acknowledgements, report.uuid);
      if existing.Some? {
        var row := acknowledgements[existing.value];
        if row.device != device.id || row.credential != credential.id || row.contentHash != contentHash {
          return Answered(Conflict);
        }
        return Answered(Receipt(report.uuid, true));
      }
      if report.policy.Some? && (report.policy, report.revision) !in revisions {
        return Answered(Conflict);
      }
      var id := |acknowledgements|;
      acknowledgements := acknowledgements + [Row(report, device.id, credential.id, now, contentHash)];
      if device.id !in policyStates || report.observedAt >= policyStates[device.id].columns.observedAt {
        policyStates := policyStates[device.id := State(id, now, PolicyStateOf(report))];
      }
      answer := Answered(Receipt(report.uuid, false));
    }
  }
}
