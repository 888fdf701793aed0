/** The lifecycle of an administrator account: the lockout machine of
    `backend/app/services/administrator_login.py`, and the constraint of `backend/app/models.py`. */
module AdministratorAccounts {
  import opened Wrappers

  /** Clock readings are in microseconds. */
  const SECOND := 1_000_000
  const LOCK_DURATION := 900 * SECOND

  datatype Permission = AdministratorManage | EnrollmentTokenIssue | EnrollmentTokenRevoke | DeviceCredentialRevoke
                      | PolicyAssign | DeviceControl | PolicyManage

  datatype Status = Active | Disabled | Locked

  datatype Account = Account(username: string, uuid: string, verifier: string, status: Status, failedAttempts: int,
                             lockExpiresAt: Option<int>, updatedAt: int, disabledAt: Option<int>,
                             permissions: set<Permission>)

  /** `ck_administrators_lifecycle`. */
  predicate Lifecycle(a: Account) {
    match a.status
    case Active => 0 <= a.failedAttempts <= 4 && a.lockExpiresAt.None? && a.disabledAt.None?
    case Locked =>
      a.failedAttempts == 5 && a.lockExpiresAt.Some? && a.lockExpiresAt.value > a.updatedAt && a.disabledAt.None?
    case Disabled => 0 <= a.failedAttempts <= 5 && a.lockExpiresAt.None? && a.disabledAt.Some?
  }

  predicate LockActive(a: Account, now: int) { a.lockExpiresAt.Some? && a.lockExpiresAt.value > now }

  /** What a login attempt does to the account it names, and whether it succeeds. */
  function LoginAttempt(a: Account, valid: bool, now: int): (r: (bool, Account)) {
    match a.status
    case Disabled => (false, a)
    case Locked =>
      if LockActive(a, now) then (false, a)
      else if !valid then (false, a.(lockExpiresAt := Some(now + LOCK_DURATION), updatedAt := now))
      else (true, a.(status := Active, failedAttempts := 0, lockExpiresAt := None, updatedAt := now))
    case Active =>
      if valid then (true, a.(failedAttempts := 0, updatedAt := now))
      else
        var failed := a.(failedAttempts := a.failedAttempts + 1, updatedAt := now);
        if failed.failedAttempts != 5 then (false, failed)
        else (false, failed.(status := Locked, lockExpiresAt := Some(now + LOCK_DURATION)))
  }

  function PasswordReset(a: Account, verifier: string, now: int): Account {
    a.(verifier := verifier, failedAttempts := 0, lockExpiresAt := None, updatedAt := now,
       status := if a.status == Locked then Active else a.status)
  }

  function MadeDisabled(a: Account, now: int): Account {
    a.(status := Disabled, disabledAt := Some(now), lockExpiresAt := None, updatedAt := now)
  }

  /** Logins, resets and disabling keep the lifecycle constraint; nothing but a reset or a disabling
      changes the password or disables, and no attempt revives a disabled account. */
  lemma LifecycleKept(a: Account, valid: bool, verifier: string, now: int)
    requires Lifecycle(a)
    ensures Lifecycle(LoginAttempt(a, valid, now).1)
    ensures Lifecycle(PasswordReset(a, verifier, now)) && Lifecycle(MadeDisabled(a, now))
    ensures LoginAttempt(a, valid, now).0 ==> valid && LoginAttempt(a, valid, now).1.status == Active
    ensures a.status == Disabled <==> LoginAttempt(a, valid, now).1.status == Disabled
    ensures a.status == Disabled <==> PasswordReset(a, verifier, now).status == Disabled
  {
  }

  /** Whatever changes an account is dated, and a disabling tells its time. */
  lemma ChangesAreDated(a: Account, valid: bool, verifier: string, now: int)
    ensures LoginAttempt(a, valid, now).1 == a || LoginAttempt(a, valid, now).1.updatedAt == now
    ensures a.status == Active || (a.status == Locked && !LockActive(a, now)) ==>
              LoginAttempt(a, valid, now).1.updatedAt == now
    ensures PasswordReset(a, verifier, now).updatedAt == now && MadeDisabled(a, now).updatedAt == now
    ensures MadeDisabled(a, now).disabledAt == Some(now)
  {
  }

  // ----- the lockout bound

  /** At this time the right password would have been accepted. */
  predicate Effective(a: Account, at: int) { LoginAttempt(a, true, at).0 }

  function AfterFailures(a: Account, times: seq<int>): Account
    decreases |times|
  {
    if |times| == 0 then a else AfterFailures(LoginAttempt(a, false, times[0]).1, times[1..])
  }

  /** How many of a run of attempts with a wrong password were made while the right one worked. */
  function EffectiveAttempts(a: Account, times: seq<int>): nat
    decreases |times|
  {
    if |times| == 0 then 0
    else (if Effective(a, times[0]) then 1 else 0) + EffectiveAttempts(LoginAttempt(a, false, times[0]).1, times[1..])
  }

  predicate NonDecreasing(times: seq<int>) { forall i, j :: 0 <= i < j < |times| ==> times[i] <= times[j] }

  /** What is left until `end`: the attempts before the lock, or the moments at which it runs out. */
  function Budget(a: Account, from: int, end: int): int {
    match a.status
    case Disabled => 0
    case Active => 5 - a.failedAttempts + (end - from) / LOCK_DURATION
    case Locked =>
      if a.lockExpiresAt.None? then 0
      else if end < a.lockExpiresAt.value then 0
      else 1 + (end - a.lockExpiresAt.value) / LOCK_DURATION
  }

  lemma WholePeriods(end: int, from: int, at: int)
    requires from <= at <= end
    ensures 0 <= (end - at) / LOCK_DURATION <= (end - from) / LOCK_DURATION
    ensures at + LOCK_DURATION <= end ==>
              1 + (end - (at + LOCK_DURATION)) / LOCK_DURATION == (end - at) / LOCK_DURATION
  {
  }

  lemma {:induction false} AttemptsWithinBudget(a: Account, times: seq<int>, from: int, end: int)
    requires Lifecycle(a) && NonDecreasing(times)
    requires from <= end && forall i :: 0 <= i < |times| ==> from <= times[i] <= end
    ensures EffectiveAttempts(a, times) <= Budget(a, from, end)
    decreases |times|
  {
    if |times| == 0 {
      WholePeriods(end, from, from);
    } else {
      var at := times[0];
      var next := LoginAttempt(a, false, at).1;
      AttemptsWithinBudget(next, times[1..], at, end);
      WholePeriods(end, from, at);
      if a.status == Locked && !LockActive(a, at) {
        WholePeriods(end, a.lockExpiresAt.value, at);
      }
    }
  }

  /** In any run of failed logins from a fresh account, at most 5 plus one for each whole lock
      period it spans were made while the right password would have been accepted. */
  lemma LockoutBound(a: Account, times: seq<int>)
    requires Lifecycle(a) && a.status == Active && a.failedAttempts == 0
    requires |times| > 0 && NonDecreasing(times)
    ensures EffectiveAttempts(a, times) <= 5 + (times[|times| - 1] - times[0]) / LOCK_DURATION
  {
    AttemptsWithinBudget(a, times, times[0], times[|times| - 1]);
  }

  function Periodic(start: int, k: nat): seq<int>
    decreases k
  {
    if k == 0 then [] else [start] + Periodic(start + LOCK_DURATION, k - 1)
  }

  lemma {:induction false} PeriodicAttempts(a: Account, start: int, k: nat)
    requires Lifecycle(a) && a.status == Locked && a.lockExpiresAt == Some(start)
    ensures EffectiveAttempts(a, Periodic(start, k)) == k
    decreases k
  {
    if k > 0 {
      var next := LoginAttempt(a, false, start).1;
      assert Periodic(start, k)[1..] == Periodic(start + LOCK_DURATION, k - 1);
      PeriodicAttempts(next, start + LOCK_DURATION, k - 1);
    }
  }

  /** The bound is reached: five attempts at once and one whenever the lock runs out. */
  lemma LockoutBoundIsReached(a: Account, start: int, k: nat)
    requires Lifecycle(a) && a.status == Active && a.failedAttempts == 0
    ensures EffectiveAttempts(a, [start, start, start, start, start] + Periodic(start + LOCK_DURATION, k)) == 5 + k
  {
    var late := Periodic(start + LOCK_DURATION, k);
    var four := [start] + late;
    var three := [start] + four;
    var two := [start] + three;
    var one := [start] + two;
    assert [start, start, start, start, start] + late == [start] + one;
    var a1 := OneWrong(a, start, one);
    var a2 := OneWrong(a1, start, two);
    var a3 := OneWrong(a2, start, three);
    var a4 := OneWrong(a3, start, four);
    var a5 := OneWrong(a4, start, late);
    PeriodicAttempts(a5, start + LOCK_DURATION, k);
  }

  lemma OneWrong(a: Account, at: int, times: seq<int>) returns (next: Account)
    requires Lifecycle(a) && a.status == Active
    ensures EffectiveAttempts(a, [at] + times) == 1 + EffectiveAttempts(next, times)
    ensures next.failedAttempts == a.failedAttempts + 1 && Lifecycle(next)
    ensures if next.failedAttempts < 5 then next.status == Active
            else next.status == Locked && next.lockExpiresAt == Some(at + LOCK_DURATION)
  {
    assert ([at] + times)[1..] == times;
    next := LoginAttempt(a, false, at).1;
  }

  // ----- what a history of attempts says

  /** An attempt with the right password or not, and when. */
  datatype Attempt = Attempt(valid: bool, at: int)

  function AfterAttempts(a: Account, attempts: seq<Attempt>): Account
    decreases |attempts|
  {
    if |attempts| == 0 then a
    else
      var n := |attempts| - 1;
      LoginAttempt(AfterAttempts(a, attempts[..n]), attempts[n].valid, attempts[n].at).1
  }

  predicate Succeeds(a: Account, attempts: seq<Attempt>, i: int)
    requires 0 <= i < |attempts|
  {
    LoginAttempt(AfterAttempts(a, attempts[..i]), attempts[i].valid, attempts[i].at).0
  }

  /** The last `k` attempts failed, and the one before them, if any, succeeded. */
  ghost predicate FailedSince(a: Account, attempts: seq<Attempt>, k: nat) {
    && k <= |attempts|
    && (forall i :: |attempts| - k <= i < |attempts| ==> !Succeeds(a, attempts, i))
    && (k < |attempts| ==> Succeeds(a, attempts, |attempts| - k - 1))
  }

  /** The lock began with attempt `i`, and no later attempt waited for its end. */
  ghost predicate LockedBy(attempts: seq<Attempt>, i: int, until: int) {
    && 0 <= i < |attempts| && until == attempts[i].at + 900 * SECOND
    && forall j :: i < j < |attempts| ==> attempts[j].at < until
  }

  /** The lock began with the attempt at this position or a later one. */
  ghost predicate LockedFrom(attempts: seq<Attempt>, from: int, until: Option<int>) {
    until.Some? && exists i :: from <= i && LockedBy(attempts, i, until.value)
  }

  lemma SucceedsInPrefix(a: Account, attempts: seq<Attempt>, n: nat, i: int)
    requires 0 <= i < n <= |attempts|
    ensures Succeeds(a, attempts[..n], i) == Succeeds(a, attempts, i)
  {
    assert attempts[..n][..i] == attempts[..i];
  }

  /** The row tells how many attempts in a row have failed, from a fresh account on: nothing but the
      fifth locks, every success clears the count, and the lock lasts 15 minutes from the last
      attempt at which the right password would have been accepted. */
  lemma {:induction false} AttemptsTell(a: Account, attempts: seq<Attempt>) returns (k: nat)
    requires Lifecycle(a) && a.status == Active && a.failedAttempts == 0
    ensures FailedSince(a, attempts, k)
    ensures var b := AfterAttempts(a, attempts);
            && b == a.(status := b.status, failedAttempts := b.failedAttempts, lockExpiresAt := b.lockExpiresAt,
                       updatedAt := b.updatedAt)
            && b.failedAttempts == (if k < 5 then k else 5) && (b.status == Locked <==> k >= 5)
            && (b.status == Active <==> k < 5)
            && (k < 5 ==> b.lockExpiresAt.None?)
            && (k >= 5 ==> LockedFrom(attempts, |attempts| - k + 4, b.lockExpiresAt))
            && forall valid, at :: LoginAttempt(b, valid, at).0 <==> valid && (k < 5 || b.lockExpiresAt.value <= at)
    decreases |attempts|
  {
    if |attempts| == 0 {
      k := 0;
    } else {
      var n := |attempts| - 1;
      var m := AttemptsTell(a, attempts[..n]);
      LastAttempt(AfterAttempts(a, attempts[..n]), attempts, m);
      k := if Succeeds(a, attempts, n) then 0 else m + 1;
      FailuresExtend(a, attempts, m);
    }
  }

  lemma FailuresExtend(a: Account, attempts: seq<Attempt>, m: nat)
    requires |attempts| > 0 && FailedSince(a, attempts[..|attempts| - 1], m)
    ensures FailedSince(a, attempts, if Succeeds(a, attempts, |attempts| - 1) then 0 else m + 1)
  {
    var n := |attempts| - 1;
    forall i | 0 <= i < n ensures Succeeds(a, attempts[..n], i) == Succeeds(a, attempts, i) {
      SucceedsInPrefix(a, attempts, n, i);
    }
  }

  /** The row before and after the last attempt, `m` failures in a row before it. */
  lemma LastAttempt(before: Account, attempts: seq<Attempt>, m: nat)
    requires |attempts| > 0 && m < |attempts| && before.status in {Active, Locked}
    requires before.failedAttempts == (if m < 5 then m else 5) && (before.status == Locked <==> m >= 5)
    requires m < 5 ==> before.lockExpiresAt.None?
    requires m >= 5 ==> LockedFrom(attempts[..|attempts| - 1], |attempts| - m + 3, before.lockExpiresAt)
    ensures var (succeeded, b) := LoginAttempt(before, attempts[|attempts| - 1].valid, attempts[|attempts| - 1].at);
            var k := if succeeded then 0 else m + 1;
            && b == before.(status := b.status, failedAttempts := b.failedAttempts, lockExpiresAt := b.lockExpiresAt,
                            updatedAt := b.updatedAt)
            && b.failedAttempts == (if k < 5 then k else 5) && b.status == (if k < 5 then Active else Locked)
            && (k < 5 ==> b.lockExpiresAt.None?)
            && (k >= 5 ==> LockedFrom(attempts, |attempts| - k + 4, b.lockExpiresAt))
  {
    if !LoginAttempt(before, attempts[|attempts| - 1].valid, attempts[|attempts| - 1].at).0 {
      LockAfterFailure(attempts, before, m);
    }
  }

  lemma LockAfterFailure(attempts: seq<Attempt>, before: Account, m: nat)
    requires |attempts| > 0 && m < |attempts|
    requires before.failedAttempts == (if m < 5 then m else 5) && (before.status == Locked <==> m >= 5)
    requires (before.status == Active <==> m < 5) && (m < 5 ==> before.lockExpiresAt.None?)
    requires m >= 5 ==> LockedFrom(attempts[..|attempts| - 1], |attempts| - m + 3, before.lockExpiresAt)
    requires !LoginAttempt(before, attempts[|attempts| - 1].valid, attempts[|attempts| - 1].at).0
    ensures var b := LoginAttempt(before, attempts[|attempts| - 1].valid, attempts[|attempts| - 1].at).1;
            && b.failedAttempts == (if m + 1 < 5 then m + 1 else 5) && (b.status == Locked <==> m + 1 >= 5)
            && (m + 1 < 5 ==> b.lockExpiresAt.None?)
            && (m + 1 >= 5 ==> LockedFrom(attempts, |attempts| - m + 3, b.lockExpiresAt))
  {
    var n := |attempts| - 1;
    var b := LoginAttempt(before, attempts[n].valid, attempts[n].at).1;
    if m >= 5 && LockActive(before, attempts[n].at) {
      var i :| |attempts| - m + 3 <= i && LockedBy(attempts[..n], i, before.lockExpiresAt.value);
      assert LockedBy(attempts, i, b.lockExpiresAt.value);
    } else if m >= 4 {
      assert LockedBy(attempts, n, b.lockExpiresAt.value);
    }
  }
}
