/** What holds at every minute under an accepted policy: a mode is in force, exactly one, and it
    lets the emergency packages run (`backend/app/policy_contract.py`). */
module PolicySafety {
  import opened Wrappers
  import opened Reordering
  import opened PolicySchedules
  import opened PolicyContract
  import opened PolicyCanonicalForm

  /** An active schedule that no active one outranks. */
  ghost predicate Rules(schedules: seq<Schedule>, s: Schedule, day: int, minute: int) {
    && s in schedules && Active(s, day, minute)
    && forall r :: r in schedules && Active(r, day, minute) ==> r.priority <= s.priority
  }

  ghost predicate NoneActive(schedules: seq<Schedule>, day: int, minute: int) {
    forall s :: s in schedules ==> !Active(s, day, minute)
  }

  /** The mode in force: of the ruling schedule, or the default when no schedule is active. */
  ghost predicate InForce(c: Common, m: Mode, day: int, minute: int) {
    && m in c.modes
    && ((exists s :: Rules(c.schedules, s, day, minute) && s.modeId == m.id)
        || (NoneActive(c.schedules, day, minute) && m.id == c.defaultMode))
  }

  /** A mode under which the emergency packages run. */
  ghost predicate Safe(emergency: seq<string>, m: Mode) {
    && emergency != [] && (forall x :: x in emergency ==> x in m.allowed && x !in m.blocked)
    && (forall x :: x in m.lockTask ==> x in m.allowed && x !in m.blocked)
  }

  lemma {:induction false} SomeRules(schedules: seq<Schedule>, day: int, minute: int) returns (s: Schedule)
    requires !NoneActive(schedules, day, minute)
    ensures Rules(schedules, s, day, minute)
    decreases |schedules|
  {
    var first, rest := schedules[0], schedules[1..];
    assert forall r :: r in schedules <==> r == first || r in rest;
    if NoneActive(rest, day, minute) {
      s := first;
    } else {
      s := SomeRules(rest, day, minute);
      if Active(first, day, minute) && first.priority > s.priority {
        s := first;
      }
    }
  }

  lemma ModeWithId(modes: seq<Mode>, id: string) returns (m: Mode)
    requires id in Ids(modes)
    ensures m in modes && m.id == id
  {
    m :| m in modes && m.id == id;
  }

  lemma SameIdSameMode(modes: seq<Mode>, m: Mode, n: Mode)
    requires DistinctBy(ModeId(), modes) && m in modes && n in modes && m.id == n.id
    ensures m == n
  {
    var i :| 0 <= i < |modes| && modes[i] == m;
    var j :| 0 <= j < |modes| && modes[j] == n;
    assert ModeId()(modes[i]) == ModeId()(modes[j]);
  }

  lemma RulerIsOne(schedules: seq<Schedule>, ids: set<string>, s: Schedule, r: Schedule, day: int, minute: int)
    requires Acceptable(schedules, ids) && IsInstant(day, minute)
    requires Rules(schedules, s, day, minute) && Rules(schedules, r, day, minute)
    ensures s == r
  {
    var i :| 0 <= i < |schedules| && schedules[i] == s;
    var j :| 0 <= j < |schedules| && schedules[j] == r;
    HighestPriorityUnique(schedules, ids, day, minute, i, j);
  }

  lemma ModesAreSafe(c: Common, m: Mode)
    requires CommonOk(c) && m in c.modes
    ensures Safe(c.emergency, m)
  {
    var i :| 0 <= i < |c.modes| && c.modes[i] == m;
    assert ModeCheck(c.emergency)(c.modes[i]);
  }

  lemma SomeModeInForce(c: Common, day: int, minute: int) returns (m: Mode)
    requires CommonOk(c) && IsInstant(day, minute)
    ensures InForce(c, m, day, minute) && Safe(c.emergency, m)
  {
    if NoneActive(c.schedules, day, minute) {
      m := ModeWithId(c.modes, c.defaultMode);
    } else {
      var s := SomeRules(c.schedules, day, minute);
      var i :| 0 <= i < |c.schedules| && c.schedules[i] == s;
      assert FieldsOk(c.schedules[i], Ids(c.modes));
      m := ModeWithId(c.modes, s.modeId);
    }
    ModesAreSafe(c, m);
  }

  lemma ModeInForceIsOne(c: Common, m: Mode, n: Mode, day: int, minute: int)
    requires CommonOk(c) && IsInstant(day, minute) && InForce(c, m, day, minute) && InForce(c, n, day, minute)
    ensures m == n
  {
    if NoneActive(c.schedules, day, minute) {
      assert m.id == c.defaultMode == n.id;
    } else {
      var s :| Rules(c.schedules, s, day, minute) && s.modeId == m.id;
      var r :| Rules(c.schedules, r, day, minute) && r.modeId == n.id;
      RulerIsOne(c.schedules, Ids(c.modes), s, r, day, minute);
    }
    SameIdSameMode(c.modes, m, n);
  }

  lemma OutputIsOk(c: Common, settings: Option<NetworkSettings>)
    requires CommonOk(c)
    ensures var d := NormalCommon(c);
            && CommonOk(d) && ClosedCommon(c, settings) == d.(capabilities := ClosedCommon(c, settings).capabilities)
  {
    CommonFixed(c);
  }

  /** At every minute of the week exactly one mode of a validated policy is in force, and under it no
      emergency package is missing or blocked. The mode for exhausted screen time exists, too. */
  lemma ValidatedPolicyIsSafe(u: Unicode, p: Policy, day: int, minute: int)
    requires Validated(u, p).Ok? && IsInstant(day, minute)
    ensures var q := Validated(u, p).value;
            && (exists m :: InForce(q.common, m, day, minute))
            && (forall m :: InForce(q.common, m, day, minute) ==> Safe(q.common.emergency, m))
            && (forall m, n :: InForce(q.common, m, day, minute) && InForce(q.common, n, day, minute) ==> m == n)
            && exists m :: m in q.common.modes && m.id == q.screen.exhausted && Safe(q.common.emergency, m)
  {
    var q, d := Validated(u, p).value, NormalCommon(p.common);
    OutputIsOk(p.common, p.settings);
    SameForce(q.common, d, day, minute);
    var m := SomeModeInForce(d, day, minute);
    assert InForce(q.common, m, day, minute);
    forall m | InForce(q.common, m, day, minute) ensures Safe(q.common.emergency, m) {
      ModesAreSafe(d, m);
    }
    forall m, n | InForce(q.common, m, day, minute) && InForce(q.common, n, day, minute) ensures m == n {
      ModeInForceIsOne(d, m, n, day, minute);
    }
    CommonFixed(p.common);
    var e := ModeWithId(d.modes, p.screen.exhausted);
    ModesAreSafe(d, e);
  }

  lemma SameForce(c: Common, d: Common, day: int, minute: int)
    requires c == d.(capabilities := c.capabilities)
    ensures forall m :: InForce(c, m, day, minute) <==> InForce(d, m, day, minute)
  {
  }
}
