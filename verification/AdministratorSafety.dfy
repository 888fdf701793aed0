/** What every run of administrator operations keeps: lifecycles, the end of revoked sessions and
    disabled accounts, and someone who can manage administrators. */
module AdministratorSafety {
  import opened Wrappers
  import opened AdministratorAccounts
  import opened Administrators

  // ----- the constraints of the tables

  ghost predicate AccountsOk(accounts: seq<Account>) {
    && (forall i :: 0 <= i < |accounts| ==> Lifecycle(accounts[i]))
    && (forall i, j :: 0 <= i < j < |accounts| ==>
          accounts[i].username != accounts[j].username && accounts[i].uuid != accounts[j].uuid)
  }

  ghost predicate SessionsOk(s: Office) {
    && (forall k :: 0 <= k < |s.sessions| ==>
          s.sessions[k].owner < |s.accounts| && s.sessions[k].expiresAt > s.sessions[k].issuedAt)
    && (forall k, l :: 0 <= k < l < |s.sessions| ==> s.sessions[k].jtiDigest != s.sessions[l].jtiDigest)
  }

  ghost predicate Valid(s: Office) { AccountsOk(s.accounts) && SessionsOk(s) }

  /** One account may change its state, but keeps its names; one account may be added. */
  ghost predicate AccountsFollow(before: seq<Account>, after: seq<Account>) {
    && |before| <= |after|
    && forall i :: 0 <= i < |before| ==>
         && after[i].username == before[i].username && after[i].uuid == before[i].uuid
         && (before[i].status == Disabled ==> after[i].status == Disabled)
  }

  /** Sessions are only ever added or revoked. */
  predicate SessionFollows(before: Session, after: Session) {
    after == before || (before.revokedAt.None? && after.revokedAt.Some? && after == before.(revokedAt := after.revokedAt))
  }

  ghost predicate SessionsFollow(before: seq<Session>, after: seq<Session>) {
    |before| <= |after| && forall k :: 0 <= k < |before| ==> SessionFollows(before[k], after[k])
  }

  ghost predicate Follows(before: Office, after: Office) {
    AccountsFollow(before.accounts, after.accounts) && SessionsFollow(before.sessions, after.sessions)
  }

  lemma ReplacingKeeps(s: Office, i: nat, account: Account, now: int)
    requires Valid(s) && i < |s.accounts| && Lifecycle(account)
    requires account.username == s.accounts[i].username && account.uuid == s.accounts[i].uuid
    requires s.accounts[i].status == Disabled ==> account.status == Disabled
    ensures Valid(s.(accounts := s.accounts[i := account])) && Follows(s, s.(accounts := s.accounts[i := account]))
    ensures Valid(WithSessionsRevoked(s, i, account, now).1) && Follows(s, WithSessionsRevoked(s, i, account, now).1)
  {
  }

  lemma AddingKeeps(s: Office, account: Account, now: int)
    requires Valid(s) && Lifecycle(account) && Unused(s, account.username, account.uuid)
    ensures Valid(s.(accounts := s.accounts + [account])) && Follows(s, s.(accounts := s.accounts + [account]))
    ensures var after := Office(s.accounts + [account], Revoked(s.sessions, |s.accounts|, now));
            Valid(after) && Follows(s, after)
  {
  }

  lemma LoginKeeps(t: Tools, s: Office, username: string, password: string, jti: string, now: int)
    requires Valid(s)
    ensures Valid(Login(t, s, username, password, jti, now).1)
    ensures Follows(s, Login(t, s, username, password, jti, now).1)
  {
    var canonical := t.lower(username);
    if UsernameOk(canonical) && ByUsername(s, canonical).Some? {
      var i := ByUsername(s, canonical).value;
      var valid := t.check(s.accounts[i].verifier, password);
      LifecycleKept(s.accounts[i], valid, "", now);
      ReplacingKeeps(s, i, LoginAttempt(s.accounts[i], valid, now).1, now);
    }
  }

  lemma RevokingKeeps(t: Tools, s: Office, username: string, reason: string, now: int)
    requires Valid(s)
    ensures Valid(RevokeSessions(t, s, username, reason, now).1)
    ensures Follows(s, RevokeSessions(t, s, username, reason, now).1)
  {
    if ByUsername(s, username).Some? {
      var i := ByUsername(s, username).value;
      ReplacingKeeps(s, i, s.accounts[i], now);
    }
  }

  lemma DisablingKeeps(t: Tools, s: Office, username: string, reason: string, now: int)
    requires Valid(s)
    ensures Valid(DisableAdministrator(t, s, username, reason, now).1)
    ensures Follows(s, DisableAdministrator(t, s, username, reason, now).1)
  {
    if ByUsername(s, username).Some? {
      var i := ByUsername(s, username).value;
      LifecycleKept(s.accounts[i], true, "", now);
      ReplacingKeeps(s, i, MadeDisabled(s.accounts[i], now), now);
    }
  }

  lemma ResettingKeeps(t: Tools, s: Office, username: string, password: string, reason: string, now: int)
    requires Valid(s)
    ensures Valid(ResetPassword(t, s, username, password, reason, now).1)
    ensures Follows(s, ResetPassword(t, s, username, password, reason, now).1)
  {
    if ByUsername(s, username).Some? {
      var i := ByUsername(s, username).value;
      LifecycleKept(s.accounts[i], true, t.hash(password), now);
      ReplacingKeeps(s, i, PasswordReset(s.accounts[i], t.hash(password), now), now);
    }
  }

  lemma PermittingKeeps(t: Tools, s: Office, target: string, permissions: seq<Permission>, reason: string)
    requires Valid(s)
    ensures Valid(ReplacePermissions(t, s, target, permissions, reason).1)
    ensures Follows(s, ReplacePermissions(t, s, target, permissions, reason).1)
  {
    var (refusal, i) := ByUuid(t, s, target);
    if refusal.None? {
      ReplacingKeeps(s, i, s.accounts[i].(permissions := set p | p in permissions), 0);
    }
  }

  lemma NextKeeps(t: Tools, s: Office, step: Step)
    requires Valid(s)
    ensures Valid(Next(t, s, step)) && Follows(s, Next(t, s, step))
  {
    match step
    case LogIn(username, password, jti, now) => LoginKeeps(t, s, username, password, jti, now);
    case LogOut(_, _) =>
    case Administer(claims, operatorPassword, reason, action, now) =>
      ManageKeeps(t, s, claims, operatorPassword, reason, action, now);
    case HostBootstrap(username, _, password, uuid, _, now) =>
      if |s.accounts| == 0 {
        AddingKeeps(s, NewAccount(t, username, password, uuid, now), now);
      }
    case HostReset(username, password, reason, now) => ResettingKeeps(t, s, username, password, reason, now);
    case HostRevoke(username, reason, now) => RevokingKeeps(t, s, username, reason, now);
    case HostDisable(username, reason, now) => DisablingKeeps(t, s, username, reason, now);
  }

  lemma ManageKeeps(t: Tools, s: Office, claims: Claims, operatorPassword: string, reason: string, action: Action,
                    now: int)
    requires Valid(s)
    ensures Valid(Manage(t, s, claims, operatorPassword, reason, action, now).1)
    ensures Follows(s, Manage(t, s, claims, operatorPassword, reason, action, now).1)
  {
    if action.Create? {
      if Unused(s, action.username, action.uuid) {
        AddingKeeps(s, NewAccount(t, action.username, action.password, action.uuid, now), now);
      }
    } else if action.Permit? {
      PermittingKeeps(t, s, action.target, action.permissions, reason);
    } else {
      var (refusal, i) := ByUuid(t, s, action.target);
      if refusal.None? {
        var username := s.accounts[i].username;
        match action
        case Revoke(_) => RevokingKeeps(t, s, username, reason, now);
        case Disable(_) => DisablingKeeps(t, s, username, reason, now);
        case Reset(_, password) => ResettingKeeps(t, s, username, password, reason, now);
      }
    }
  }

  lemma FollowsOn(a: Office, b: Office, c: Office)
    requires Follows(a, b) && Follows(b, c)
    ensures Follows(a, c)
  {
    forall k | 0 <= k < |a.sessions| ensures SessionFollows(a.sessions[k], c.sessions[k]) {
      assert SessionFollows(a.sessions[k], b.sessions[k]) && SessionFollows(b.sessions[k], c.sessions[k]);
    }
  }

  /** Every run keeps the lifecycle constraint and the unique columns; accounts keep their names,
      disabled accounts stay disabled, and sessions are only ever added or revoked. */
  lemma {:induction false} RunKeeps(t: Tools, s: Office, steps: seq<Step>)
    requires Valid(s)
    ensures Valid(Run(t, s, steps)) && Follows(s, Run(t, s, steps))
    decreases |steps|
  {
    if |steps| > 0 {
      NextKeeps(t, s, steps[0]);
      RunKeeps(t, Next(t, s, steps[0]), steps[1..]);
      FollowsOn(s, Next(t, s, steps[0]), Run(t, s, steps));
    }
  }

  // ----- ended sessions stay out

  /** No token that was issued for session `k` is accepted. */
  ghost predicate TokenRefused(t: Tools, s: Office, k: nat, at: int)
    requires k < |s.sessions|
  {
    forall claims: Claims :: t.digest(claims.jti) == s.sessions[k].jtiDigest ==> Context(t, s, claims, at).None?
  }

  lemma DeadSessionsStayDead(t: Tools, s: Office, steps: seq<Step>, k: nat, now: int, at: int)
    requires Valid(s) && k < |s.sessions| && !Usable(s.sessions[k], now) && now <= at
    ensures k < |Run(t, s, steps).sessions| && Run(t, s, steps).sessions[k].jtiDigest == s.sessions[k].jtiDigest
    ensures TokenRefused(t, Run(t, s, steps), k, at)
  {
    RunKeeps(t, s, steps);
    var after := Run(t, s, steps);
    assert SessionFollows(s.sessions[k], after.sessions[k]);
    forall claims: Claims | t.digest(claims.jti) == after.sessions[k].jtiDigest
      ensures Context(t, after, claims, at).None?
    {
    }
  }

  function OutcomeOf(t: Tools, s: Office, step: Step): Outcome {
    match step
    case LogIn(username, password, jti, now) => Refused(Invalid)
    case LogOut(claims, now) => Logout(t, s, claims, now).0
    case Administer(claims, operatorPassword, reason, action, now) =>
      Manage(t, s, claims, operatorPassword, reason, action, now).0
    case HostBootstrap(username, displayName, password, uuid, reason, now) =>
      Bootstrap(t, s, username, displayName, password, reason, uuid, now).0
    case HostReset(username, password, reason, now) => ResetPassword(t, s, username, password, reason, now).0
    case HostRevoke(username, reason, now) => RevokeSessions(t, s, username, reason, now).0
    case HostDisable(username, reason, now) => DisableAdministrator(t, s, username, reason, now).0
  }

  /** The step is a completed disabling, password reset or session revocation of account `i`. */
  ghost predicate EndsSessionsOf(t: Tools, s: Office, step: Step, i: nat)
    requires i < |s.accounts|
  {
    && OutcomeOf(t, s, step).Done?
    && match step
       case Administer(_, _, _, action, _) =>
         (action.Revoke? || action.Disable? || action.Reset?) && t.parseUuid(action.target) == Some(s.accounts[i].uuid)
       case HostReset(username, _, _, _) => username == s.accounts[i].username
       case HostRevoke(username, _, _) => username == s.accounts[i].username
       case HostDisable(username, _, _) => username == s.accounts[i].username
       case _ => false
  }

  lemma FoundByName(s: Office, i: nat)
    requires Valid(s) && i < |s.accounts|
    ensures ByUsername(s, s.accounts[i].username) == Some(i)
  {
    var j := ByUsername(s, s.accounts[i].username);
    assert j.Some? && s.accounts[j.value].username == s.accounts[i].username;
  }

  lemma FoundByUuid(t: Tools, s: Office, target: string, i: nat)
    requires Valid(s) && i < |s.accounts| && t.parseUuid(target) == Some(s.accounts[i].uuid)
    ensures ByUuid(t, s, target) == (None, i)
  {
    var (refusal, j) := ByUuid(t, s, target);
    assert refusal.None? && s.accounts[j].uuid == s.accounts[i].uuid;
  }

  lemma StepEndsSessions(t: Tools, s: Office, step: Step, i: nat)
    requires Valid(s) && i < |s.accounts| && EndsSessionsOf(t, s, step, i)
    ensures Next(t, s, step).sessions == Revoked(s.sessions, i, step.now)
  {
    FoundByName(s, i);
    if step.Administer? {
      FoundByUuid(t, s, step.action.target, i);
    }
  }

  /** Once a disabling, a password reset or a session revocation of an account is complete, no
      token issued for the account before is accepted at any later time, whatever happens next. */
  lemma EndedSessionsStayOut(t: Tools, s: Office, step: Step, later: seq<Step>, i: nat, k: nat, at: int)
    requires Valid(s) && i < |s.accounts| && EndsSessionsOf(t, s, step, i)
    requires k < |s.sessions| && s.sessions[k].owner == i && step.now <= at
    ensures var after := Run(t, Next(t, s, step), later);
            && k < |after.sessions| && after.sessions[k].jtiDigest == s.sessions[k].jtiDigest
            && TokenRefused(t, after, k, at)
  {
    NextKeeps(t, s, step);
    StepEndsSessions(t, s, step, i);
    DeadSessionsStayDead(t, Next(t, s, step), later, k, step.now, at);
  }

  /** So does the session that logs out. */
  lemma LoggedOutStaysOut(t: Tools, s: Office, claims: Claims, now: int, later: seq<Step>, at: int)
    requires Valid(s) && Context(t, s, claims, now).Some? && now <= at
    ensures Context(t, Run(t, Next(t, s, LogOut(claims, now)), later), claims, at).None?
  {
    var step := LogOut(claims, now);
    var k := Context(t, s, claims, now).value;
    NextKeeps(t, s, step);
    DeadSessionsStayDead(t, Next(t, s, step), later, k, now, at);
  }

  /** A disabled account stays disabled: no later login succeeds, and none of its sessions, whenever
      it was issued, is accepted. */
  lemma DisabledIsFinal(t: Tools, s: Office, later: seq<Step>, i: nat, k: nat, claims: Claims, password: string,
                        jti: string, at: int)
    requires Valid(s) && i < |s.accounts| && s.accounts[i].status == Disabled
    ensures var after := Run(t, s, later);
            && i < |after.accounts| && after.accounts[i].status == Disabled
            && (Context(t, after, claims, at).Some? ==> after.sessions[Context(t, after, claims, at).value].owner != i)
            && forall username :: t.lower(username) == after.accounts[i].username ==>
                 Login(t, after, username, password, jti, at) == (LoginFailed, after)
  {
    RunKeeps(t, s, later);
    var after := Run(t, s, later);
    FoundByName(after, i);
    assert after.accounts[i := after.accounts[i]] == after.accounts;
  }

  /** The other accounts and their sessions are left alone, and the count that is reported is the
      number of sessions that were revoked. */
  lemma OthersAreLeftAlone(s: Office, i: nat, account: Account, now: int)
    requires i < |s.accounts|
    ensures var (outcome, after) := WithSessionsRevoked(s, i, account, now);
            && (forall j :: 0 <= j < |s.accounts| && j != i ==> after.accounts[j] == s.accounts[j])
            && (forall k :: 0 <= k < |s.sessions| && s.sessions[k].owner != i ==> after.sessions[k] == s.sessions[k])
            && outcome == Done(|set k | 0 <= k < |s.sessions| && after.sessions[k] != s.sessions[k]|)
  {
    CountsTheRevoked(s.sessions, i, now);
  }

  lemma {:induction false} CountsTheRevoked(sessions: seq<Session>, owner: nat, now: int)
    ensures RevokedCount(sessions, owner, now)
            == |set k | 0 <= k < |sessions| && Revoked(sessions, owner, now)[k] != sessions[k]|
    decreases |sessions|
  {
    var all := set k | 0 <= k < |sessions| && Revoked(sessions, owner, now)[k] != sessions[k];
    if |sessions| == 0 {
      assert all == {};
    } else {
      var n := |sessions| - 1;
      var some := set k | 0 <= k < n && Revoked(sessions[..n], owner, now)[k] != sessions[..n][k];
      CountsTheRevoked(sessions[..n], owner, now);
      var after, before := Revoked(sessions, owner, now), Revoked(sessions[..n], owner, now);
      assert forall k :: 0 <= k < n ==> after[k] == before[k] && sessions[..n][k] == sessions[k];
      assert after[n] != sessions[n] <==> sessions[n].owner == owner && Usable(sessions[n], now);
      if sessions[n].owner == owner && Usable(sessions[n], now) {
        assert all == some + {n};
      } else {
        assert all == some;
      }
    }
  }

  /** After a password reset the new password works at once, locked account or not, and a password
      that does not match it no longer does. */
  lemma ResetTakesEffect(t: Tools, s: Office, username: string, password: string, reason: string, now: int, tried: string,
                         jti: string, at: int)
    requires Valid(s) && ResetPassword(t, s, username, password, reason, now).0.Done?
    requires t.lower(username) == username
    ensures var after := ResetPassword(t, s, username, password, reason, now).1;
            && (Login(t, after, username, tried, jti, at).0.LoggedIn? ==> t.check(t.hash(password), tried))
            && (t.check(t.hash(password), tried) && s.accounts[ByUsername(s, username).value].status != Disabled
                && (forall k :: 0 <= k < |s.sessions| ==> s.sessions[k].jtiDigest != t.digest(jti))
                ==> Login(t, after, username, tried, jti, at).0.LoggedIn?)
  {
    var i := ByUsername(s, username).value;
    var after := ResetPassword(t, s, username, password, reason, now).1;
    ResettingKeeps(t, s, username, password, reason, now);
    FoundByName(after, i);
    LifecycleKept(after.accounts[i], t.check(t.hash(password), tried), "", at);
  }

  /** The token of a login stands for the session it added, until that expires. */
  lemma LoginIsAccepted(t: Tools, s: Office, username: string, password: string, jti: string, now: int, at: int)
    requires Valid(s) && Login(t, s, username, password, jti, now).0.LoggedIn?
    requires 1 <= |jti| <= 128 && 1 <= |Login(t, s, username, password, jti, now).0.claims.subject| <= 64
    ensures var (outcome, after) := Login(t, s, username, password, jti, now);
            Context(t, after, outcome.claims, at)
            == if at < now - now % SECOND + TOKEN_LIFETIME then Some(|s.sessions|) else None
  {
    LoginKeeps(t, s, username, password, jti, now);
    var (outcome, after) := Login(t, s, username, password, jti, now);
    LifecycleKept(s.accounts[ByUsername(s, t.lower(username)).value],
                  t.check(s.accounts[ByUsername(s, t.lower(username)).value].verifier, password), "", now);
    assert after.sessions[|s.sessions|].jtiDigest == t.digest(jti);
  }

  // ----- management is never lost

  lemma {:induction false} ManagerCounts(accounts: seq<Account>, i: nat)
    requires i < |accounts| && IsManager(accounts[i])
    ensures ManagementCount(accounts) >= 1
    decreases |accounts|
  {
    if i < |accounts| - 1 {
      ManagerCounts(accounts[..|accounts| - 1], i);
    }
  }

  lemma {:induction false} AnotherManager(accounts: seq<Account>, i: nat) returns (j: nat)
    requires i < |accounts| && ManagementCount(accounts) > (if IsManager(accounts[i]) then 1 else 0)
    ensures j < |accounts| && j != i && IsManager(accounts[j])
    decreases |accounts|
  {
    var n := |accounts| - 1;
    if i != n && IsManager(accounts[n]) {
      j := n;
    } else if i == n {
      j := SomeManager(accounts[..n]);
    } else {
      j := AnotherManager(accounts[..n], i);
    }
  }

  lemma {:induction false} SomeManager(accounts: seq<Account>) returns (j: nat)
    requires ManagementCount(accounts) >= 1
    ensures j < |accounts| && IsManager(accounts[j])
    decreases |accounts|
  {
    var n := |accounts| - 1;
    if IsManager(accounts[n]) {
      j := n;
    } else {
      j := SomeManager(accounts[..n]);
    }
  }

  ghost predicate HasManager(s: Office) { exists i :: 0 <= i < |s.accounts| && IsManager(s.accounts[i]) }

  predicate IsHolder(a: Account) { a.status != Disabled && AdministratorManage in a.permissions }

  /** Someone who is not disabled, though perhaps locked out for now, may manage administrators. */
  ghost predicate HasHolder(s: Office) { exists i :: 0 <= i < |s.accounts| && IsHolder(s.accounts[i]) }

  /** The operator manages; the guards see to it that someone does afterwards. */
  lemma OneChangeLeavesManager(s: Office, operator: nat, i: nat, account: Account, sessions: seq<Session>)
    requires operator < |s.accounts| && i < |s.accounts| && IsManager(s.accounts[operator])
    requires IsManager(account) || !IsManager(s.accounts[i]) || ManagementCount(s.accounts) > 1
    ensures HasManager(Office(s.accounts[i := account], sessions))
  {
    var after := s.accounts[i := account];
    if i != operator {
      assert IsManager(after[operator]);
    } else if IsManager(account) {
      assert IsManager(after[i]);
    } else {
      var j := AnotherManager(s.accounts, i);
      assert IsManager(after[j]);
    }
  }

  /** A completed replacement of permissions or guarded disabling leaves an active account that may
      manage administrators. */
  lemma ManagementSurvives(t: Tools, s: Office, claims: Claims, operatorPassword: string, reason: string, action: Action,
                           now: int)
    requires Valid(s) && (action.Permit? || action.Disable?)
    requires Manage(t, s, claims, operatorPassword, reason, action, now).0.Done?
    ensures HasManager(Manage(t, s, claims, operatorPassword, reason, action, now).1)
  {
    var operator := s.sessions[Context(t, s, claims, now).value].owner;
    var (refusal, i) := ByUuid(t, s, action.target);
    if action.Permit? {
      var account := s.accounts[i].(permissions := set p | p in action.permissions);
      OneChangeLeavesManager(s, operator, i, account, s.sessions);
    } else {
      FoundByName(s, i);
      OneChangeLeavesManager(s, operator, i, MadeDisabled(s.accounts[i], now), Revoked(s.sessions, i, now));
    }
  }

  /** Everything but a replacement of permissions or a disabling leaves permissions alone. */
  predicate LeavesHolders(step: Step) {
    !step.HostDisable? && (step.Administer? ==> !step.action.Permit? && !step.action.Disable?)
  }

  lemma HoldersStay(t: Tools, s: Office, step: Step, i: nat)
    requires Valid(s) && LeavesHolders(step) && i < |s.accounts| && IsHolder(s.accounts[i])
    ensures i < |Next(t, s, step).accounts| && IsHolder(Next(t, s, step).accounts[i])
  {
    if step.Administer? {
      ManagedHoldersStay(t, s, step.claims, step.operatorPassword, step.reason, step.action, step.now, i);
    }
  }

  lemma ManagedHoldersStay(t: Tools, s: Office, claims: Claims, operatorPassword: string, reason: string,
                           action: Action, now: int, i: nat)
    requires i < |s.accounts| && IsHolder(s.accounts[i]) && !action.Permit? && !action.Disable?
    ensures var after := Manage(t, s, claims, operatorPassword, reason, action, now).1;
            i < |after.accounts| && IsHolder(after.accounts[i])
  {
  }

  /** After any run of requests, logins and shell operations other than the unguarded disabling,
      someone who is not disabled still holds `administrator.manage`. */
  lemma {:induction false} ManagementIsNeverLost(t: Tools, s: Office, steps: seq<Step>)
    requires Valid(s) && HasHolder(s)
    requires forall k :: 0 <= k < |steps| ==> !steps[k].HostDisable?
    ensures HasHolder(Run(t, s, steps))
    decreases |steps|
  {
    if |steps| > 0 {
      var step := steps[0];
      NextKeeps(t, s, step);
      if LeavesHolders(step) {
        var i :| 0 <= i < |s.accounts| && IsHolder(s.accounts[i]);
        HoldersStay(t, s, step, i);
      } else if OutcomeOf(t, s, step).Done? {
        ManagementSurvives(t, s, step.claims, step.operatorPassword, step.reason, step.action, step.now);
        var j :| 0 <= j < |Next(t, s, step).accounts| && IsManager(Next(t, s, step).accounts[j]);
        assert IsHolder(Next(t, s, step).accounts[j]);
      } else {
        RefusedChangesNothing(t, s, step);
      }
      ManagementIsNeverLost(t, Next(t, s, step), steps[1..]);
    }
  }

  /** A refused operation changes nothing; only a login attempt may count a failure. */
  lemma RefusedChangesNothing(t: Tools, s: Office, step: Step)
    requires !step.LogIn? && OutcomeOf(t, s, step).Refused?
    ensures Next(t, s, step) == s
  {
  }

  lemma FirstAccount(a: Account)
    requires Lifecycle(a) && IsHolder(a)
    ensures Valid(Office([a], [])) && HasHolder(Office([a], []))
  {
    assert IsHolder(Office([a], []).accounts[0]);
  }

  /** From the first start: once the first administrator has been created, management is there to stay. */
  lemma BootstrapStartsManagement(t: Tools, username: string, displayName: string, password: string, reason: string,
                                  uuid: string, now: int, steps: seq<Step>)
    requires Bootstrap(t, Office([], []), username, displayName, password, reason, uuid, now).0.Done?
    requires forall k :: 0 <= k < |steps| ==> !steps[k].HostDisable?
    ensures HasHolder(Run(t, Bootstrap(t, Office([], []), username, displayName, password, reason, uuid, now).1, steps))
  {
    var account := NewAccount(t, username, password, uuid, now);
    FirstAccount(account);
    ManagementIsNeverLost(t, Office([account], []), steps);
  }
}
