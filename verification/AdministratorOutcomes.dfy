/** Exactly when each operation on administrators is carried out, and what it then does
    (`backend/app/services/administrator_authentication.py`, `backend/app/services/administrator_login.py`,
    `backend/app/administrator_authorization.py`). */
module AdministratorOutcomes {
  import opened Wrappers
  import opened AdministratorAccounts
  import opened Administrators
  import opened AdministratorSafety

  // ----- inputs

  predicate IsUsername(u: string) {
    && 2 < |u| < 65
    && forall i :: 0 <= i < |u| ==>
         'a' <= u[i] <= 'z' || '0' <= u[i] <= '9' || u[i] == '.' || u[i] == '_' || u[i] == '-'
  }

  predicate IsText(t: Tools, s: string, most: nat) { 0 < |s| <= most && forall i :: 0 <= i < |s| ==> t.printable(s[i]) }

  predicate IsPassword(t: Tools, password: string, username: string) {
    && 11 < |password| < 129 && t.casefold(password) != username
    && t.casefold(password) != "administrator" && t.casefold(password) != "changemechangeme"
    && t.casefold(password) != "password1234" && t.casefold(password) != "passwordpassword"
  }

  lemma InputsExactly(t: Tools, username: string, text: string, most: nat, password: string)
    ensures UsernameOk(username) <==> IsUsername(username)
    ensures TextOk(t, text, most) <==> IsText(t, text, most)
    ensures PasswordOk(t, password, username) <==> IsPassword(t, password, username)
  {
    assert forall i :: 0 <= i < |username| ==> username[i] in username;
    assert forall i :: 0 <= i < |text| ==> text[i] in text;
  }

  /** Account `i` is replaced, its sessions that were still good end now, and nothing else changes. */
  ghost predicate Becomes(s: Office, after: Office, i: nat, account: Account, now: int) {
    && i < |s.accounts| && after.accounts == s.accounts[i := account] && |after.sessions| == |s.sessions|
    && forall k :: 0 <= k < |s.sessions| ==>
         after.sessions[k] == if s.sessions[k].owner == i && s.sessions[k].revokedAt == None && now < s.sessions[k].expiresAt
                              then s.sessions[k].(revokedAt := Some(now)) else s.sessions[k]
  }

  lemma RevokedBecomes(s: Office, i: nat, account: Account, now: int)
    requires i < |s.accounts|
    ensures Becomes(s, Office(s.accounts[i := account], Revoked(s.sessions, i, now)), i, account, now)
  {
  }

  lemma FoundOrNot(s: Office, username: string)
    requires Valid(s)
    ensures ByUsername(s, username).None? <==> forall i :: 0 <= i < |s.accounts| ==> s.accounts[i].username != username
    ensures forall i: nat :: i < |s.accounts| && s.accounts[i].username == username ==> ByUsername(s, username) == Some(i)
  {
    forall i: nat | i < |s.accounts| && s.accounts[i].username == username ensures ByUsername(s, username) == Some(i) {
      FoundByName(s, i);
    }
  }

  // ----- operations by name

  lemma RevocationExactly(t: Tools, s: Office, i: nat, reason: string, now: int)
    requires Valid(s) && i < |s.accounts|
    ensures var (outcome, after) := RevokeSessions(t, s, s.accounts[i].username, reason, now);
            && (outcome.Done? <==> IsUsername(s.accounts[i].username) && IsText(t, reason, 512))
            && (if outcome.Done? then Becomes(s, after, i, s.accounts[i], now) else after == s)
  {
    FoundByName(s, i);
    InputsExactly(t, s.accounts[i].username, reason, 512, "");
    RevokedBecomes(s, i, s.accounts[i], now);
  }

  /** Only an account that is not disabled yet can be disabled. */
  lemma DisablingExactly(t: Tools, s: Office, i: nat, reason: string, now: int)
    requires Valid(s) && i < |s.accounts|
    ensures var a := s.accounts[i];
            var (outcome, after) := DisableAdministrator(t, s, a.username, reason, now);
            && (outcome.Done? <==> IsUsername(a.username) && IsText(t, reason, 512) && a.status != Disabled)
            && (if outcome.Done?
                then Becomes(s, after, i, a.(status := Disabled, disabledAt := Some(now), lockExpiresAt := None,
                                             updatedAt := now), now)
                else after == s)
  {
    FoundByName(s, i);
    InputsExactly(t, s.accounts[i].username, reason, 512, "");
    RevokedBecomes(s, i, MadeDisabled(s.accounts[i], now), now);
  }

  /** A reset unlocks, but revives nothing. */
  lemma ResettingExactly(t: Tools, s: Office, i: nat, password: string, reason: string, now: int)
    requires Valid(s) && i < |s.accounts|
    ensures var a := s.accounts[i];
            var (outcome, after) := ResetPassword(t, s, a.username, password, reason, now);
            && (outcome.Done? <==>
                  IsUsername(a.username) && IsText(t, reason, 512) && IsPassword(t, password, a.username))
            && (if outcome.Done?
                then Becomes(s, after, i, a.(verifier := t.hash(password), failedAttempts := 0, lockExpiresAt := None,
                                             updatedAt := now,
                                             status := if a.status == Disabled then Disabled else Active), now)
                else after == s)
  {
    FoundByName(s, i);
    InputsExactly(t, s.accounts[i].username, reason, 512, password);
    RevokedBecomes(s, i, PasswordReset(s.accounts[i], t.hash(password), now), now);
  }

  /** A name that nobody has is not found, once the input is in order. */
  lemma UnknownIsNotFound(t: Tools, s: Office, username: string, password: string, reason: string, now: int)
    requires Valid(s) && forall i :: 0 <= i < |s.accounts| ==> s.accounts[i].username != username
    requires IsUsername(username) && IsText(t, reason, 512) && IsPassword(t, password, username)
    ensures RevokeSessions(t, s, username, reason, now) == (Refused(NotFound), s)
    ensures DisableAdministrator(t, s, username, reason, now) == (Refused(NotFound), s)
    ensures ResetPassword(t, s, username, password, reason, now) == (Refused(NotFound), s)
  {
    FoundOrNot(s, username);
    InputsExactly(t, username, reason, 512, password);
  }

  // ----- permissions

  predicate Manages(a: Account) { a.status == Active && AdministratorManage in a.permissions }

  /** Somebody other than account `i` is active and may manage administrators. */
  ghost predicate OtherManager(s: Office, i: nat) { exists j :: 0 <= j < |s.accounts| && j != i && Manages(s.accounts[j]) }

  lemma {:induction false} TwoManagers(accounts: seq<Account>, i: nat, j: nat)
    requires i < |accounts| && j < |accounts| && i != j && IsManager(accounts[i]) && IsManager(accounts[j])
    ensures ManagementCount(accounts) >= 2
    decreases |accounts|
  {
    var n := |accounts| - 1;
    if i == n {
      ManagerCounts(accounts[..n], j);
    } else if j == n {
      ManagerCounts(accounts[..n], i);
    } else {
      TwoManagers(accounts[..n], i, j);
    }
  }

  lemma LastManagerExactly(s: Office, i: nat)
    requires i < |s.accounts| && Manages(s.accounts[i])
    ensures ManagementCount(s.accounts) <= 1 <==> !OtherManager(s, i)
  {
    if ManagementCount(s.accounts) > 1 {
      var j := AnotherManager(s.accounts, i);
      assert Manages(s.accounts[j]);
    }
    if j :| 0 <= j < |s.accounts| && j != i && Manages(s.accounts[j]) {
      TwoManagers(s.accounts, i, j);
    }
  }

  predicate NoneTwice(permissions: seq<Permission>) {
    forall i, j :: 0 <= i < |permissions| && 0 <= j < |permissions| && i != j ==> permissions[i] != permissions[j]
  }

  /** Permissions can be replaced unless the last manager would give up managing. */
  lemma ReplacingExactly(t: Tools, s: Office, i: nat, target: string, permissions: seq<Permission>, reason: string)
    requires Valid(s) && i < |s.accounts| && t.parseUuid(target) == Some(s.accounts[i].uuid)
    ensures var (outcome, after) := ReplacePermissions(t, s, target, permissions, reason);
            && (outcome.Done? <==>
                  && IsText(t, reason, 512) && NoneTwice(permissions)
                  && (Manages(s.accounts[i]) && AdministratorManage !in permissions ==> OtherManager(s, i)))
            && (outcome.Done? ==> after == s.(accounts := s.accounts[i := s.accounts[i].(permissions := set p | p in permissions)]))
            && (!outcome.Done? ==> after == s)
  {
    FoundByUuid(t, s, target, i);
    InputsExactly(t, "", reason, 512, "");
    assert Repeats(permissions) <==> !NoneTwice(permissions);
    assert AdministratorManage in (set p | p in permissions) <==> AdministratorManage in permissions;
    if Manages(s.accounts[i]) {
      LastManagerExactly(s, i);
    }
  }

  /** The guard of the route lets an account be disabled unless it is already, or the last manager. */
  lemma GuardExactly(t: Tools, s: Office, i: nat, target: string)
    requires Valid(s) && i < |s.accounts| && t.parseUuid(target) == Some(s.accounts[i].uuid)
    ensures DisableGuard(t, s, target).None?
       <==> s.accounts[i].status != Disabled && (Manages(s.accounts[i]) ==> OtherManager(s, i))
  {
    FoundByUuid(t, s, target, i);
    if Manages(s.accounts[i]) {
      LastManagerExactly(s, i);
    }
  }

  // ----- new accounts

  /** A fresh account with every permission. */
  ghost predicate IsNew(t: Tools, a: Account, username: string, password: string, uuid: string, now: int) {
    && a.username == username && a.uuid == uuid && a.verifier == t.hash(password) && a.status == Active
    && a.failedAttempts == 0 && a.lockExpiresAt.None? && a.disabledAt.None? && a.updatedAt == now
    && forall p: Permission :: p in a.permissions
  }

  lemma NewAccountIsNew(t: Tools, username: string, password: string, uuid: string, now: int)
    ensures IsNew(t, NewAccount(t, username, password, uuid, now), username, password, uuid, now)
  {
    forall p: Permission ensures p in ALL_PERMISSIONS {
      match p case AdministratorManage => case _ =>
    }
  }

  /** An account is created exactly under a new name and UUID, by an active manager who proves the
      password again. */
  lemma CreatingExactly(t: Tools, s: Office, username: string, displayName: string, password: string, operator: nat,
                        operatorPassword: string, reason: string, uuid: string, now: int)
    requires Valid(s) && operator < |s.accounts|
    ensures var (outcome, after) := CreateAdministrator(t, s, username, displayName, password, operator,
                                                        operatorPassword, reason, uuid, now);
            && (outcome.Done? <==>
                  && IsUsername(username) && IsText(t, displayName, 120) && IsText(t, reason, 512)
                  && IsPassword(t, password, username)
                  && operatorPassword != "" && Manages(s.accounts[operator])
                  && t.check(s.accounts[operator].verifier, operatorPassword)
                  && forall i :: 0 <= i < |s.accounts| ==> s.accounts[i].username != username && s.accounts[i].uuid != uuid)
            && (if outcome.Done?
                then && after.sessions == s.sessions && |after.accounts| == |s.accounts| + 1
                     && after.accounts[..|s.accounts|] == s.accounts
                     && IsNew(t, after.accounts[|s.accounts|], username, password, uuid, now)
                else after == s)
  {
    InputsExactly(t, username, displayName, 120, password);
    InputsExactly(t, username, reason, 512, password);
    NewAccountIsNew(t, username, password, uuid, now);
    assert Revoked(s.sessions, |s.accounts|, now) == s.sessions;
  }

  /** The first account is created exactly on empty tables. */
  lemma BootstrappingExactly(t: Tools, s: Office, username: string, displayName: string, password: string,
                             reason: string, uuid: string, now: int)
    ensures var (outcome, after) := Bootstrap(t, s, username, displayName, password, reason, uuid, now);
            && (outcome.Done? <==>
                  && IsUsername(username) && IsText(t, displayName, 120) && IsText(t, reason, 512)
                  && IsPassword(t, password, username) && |s.accounts| == 0)
            && (if outcome.Done? then after.sessions == s.sessions && |after.accounts| == 1
                                      && IsNew(t, after.accounts[0], username, password, uuid, now)
                else after == s)
  {
    InputsExactly(t, username, displayName, 120, password);
    InputsExactly(t, username, reason, 512, password);
    NewAccountIsNew(t, username, password, uuid, now);
  }

  // ----- sessions

  /** The token names session `k`, which is good, of an active account that is its subject. */
  predicate StandsFor(t: Tools, s: Office, claims: Claims, k: nat, now: int) {
    && k < |s.sessions| && s.sessions[k].owner < |s.accounts|
    && 0 < |claims.jti| < 129 && 0 < |claims.subject| < 65
    && s.sessions[k].jtiDigest == t.digest(claims.jti) && s.sessions[k].revokedAt == None
    && now < s.sessions[k].expiresAt
    && s.accounts[s.sessions[k].owner].uuid == claims.subject && s.accounts[s.sessions[k].owner].status == Active
  }

  /** A token is accepted exactly as the session that it stands for. */
  lemma ContextExactly(t: Tools, s: Office, claims: Claims, now: int, k: nat)
    requires Valid(s)
    ensures Context(t, s, claims, now) == Some(k) <==> StandsFor(t, s, claims, k, now)
  {
    var found := IndexOf(s.sessions, (e: Session) => e.jtiDigest == t.digest(claims.jti));
    if k < |s.sessions| && s.sessions[k].jtiDigest == t.digest(claims.jti) {
      assert found.Some? && s.sessions[found.value].jtiDigest == s.sessions[k].jtiDigest;
      assert found == Some(k);
    }
  }

  /** A login succeeds exactly with the password of an account that is active or whose lock has run
      out, and a token identifier that no session has; it then adds the one session of the token. */
  lemma LoggingInExactly(t: Tools, s: Office, i: nat, username: string, password: string, jti: string, now: int)
    requires Valid(s) && i < |s.accounts| && t.lower(username) == s.accounts[i].username
    ensures var a := s.accounts[i];
            var (outcome, after) := Login(t, s, username, password, jti, now);
            && (outcome.LoggedIn? <==>
                  && IsUsername(a.username) && t.check(a.verifier, password)
                  && (a.status == Active || (a.status == Locked && a.lockExpiresAt.value <= now))
                  && forall k :: 0 <= k < |s.sessions| ==> s.sessions[k].jtiDigest != t.digest(jti))
            && (outcome.LoggedIn? ==>
                  && outcome.claims == Claims(jti, a.uuid)
                  && after.accounts == s.accounts[i := a.(status := Active, failedAttempts := 0, lockExpiresAt := None,
                                                          updatedAt := now)]
                  && |after.sessions| == |s.sessions| + 1 && after.sessions[..|s.sessions|] == s.sessions
                  && var added := after.sessions[|s.sessions|];
                     && added.owner == i && added.jtiDigest == t.digest(jti) && added.revokedAt.None?
                     && added.issuedAt <= now < added.issuedAt + 1_000_000 && added.issuedAt % 1_000_000 == 0
                     && added.expiresAt == added.issuedAt + 15 * 60 * 1_000_000)
            && (!outcome.LoggedIn? ==> after.sessions == s.sessions)
  {
    FoundByName(s, i);
    InputsExactly(t, s.accounts[i].username, "", 0, "");
    assert Lifecycle(s.accounts[i]);
  }

  // ----- requests

  /** The token stands for a session of a manager, who proves the password again. */
  predicate Authorized(t: Tools, s: Office, claims: Claims, operatorPassword: string, k: nat, now: int) {
    && StandsFor(t, s, claims, k, now) && Manages(s.accounts[s.sessions[k].owner])
    && operatorPassword != "" && t.check(s.accounts[s.sessions[k].owner].verifier, operatorPassword)
  }

  /** Nothing is carried out without that, and a refused request changes nothing. */
  lemma OnlyTheAuthorized(t: Tools, s: Office, claims: Claims, operatorPassword: string, reason: string,
                          action: Action, now: int)
    requires Valid(s)
    ensures var (outcome, after) := Manage(t, s, claims, operatorPassword, reason, action, now);
            && (outcome.Done? ==> exists k :: Authorized(t, s, claims, operatorPassword, k, now))
            && (!outcome.Done? ==> after == s)
  {
    var context := Context(t, s, claims, now);
    if context.Some? {
      ContextExactly(t, s, claims, now, context.value);
      if Manage(t, s, claims, operatorPassword, reason, action, now).0.Done? {
        assert Authorized(t, s, claims, operatorPassword, context.value, now);
      }
    }
  }

  /** With it, the request has the effect of its operation on the account that it names; a disabling
      also needs the guard. */
  lemma AuthorizedRequest(t: Tools, s: Office, claims: Claims, operatorPassword: string, reason: string,
                          action: Action, now: int, k: nat, i: nat)
    requires Valid(s) && Authorized(t, s, claims, operatorPassword, k, now) && i < |s.accounts|
    requires !action.Create? ==> t.parseUuid(action.target) == Some(s.accounts[i].uuid)
    ensures var name := s.accounts[i].username;
            Manage(t, s, claims, operatorPassword, reason, action, now)
            == match action
               case Create(username, displayName, password, uuid) =>
                 CreateAdministrator(t, s, username, displayName, password, s.sessions[k].owner, operatorPassword,
                                     reason, uuid, now)
               case Permit(target, permissions) => ReplacePermissions(t, s, target, permissions, reason)
               case Revoke(_) => RevokeSessions(t, s, name, reason, now)
               case Disable(_) =>
                 if s.accounts[i].status == Disabled || (Manages(s.accounts[i]) && !OtherManager(s, i))
                 then (Refused(Conflict), s) else DisableAdministrator(t, s, name, reason, now)
               case Reset(_, password) => ResetPassword(t, s, name, password, reason, now)
  {
    ContextExactly(t, s, claims, now, k);
    if !action.Create? {
      FoundByUuid(t, s, action.target, i);
      GuardExactly(t, s, i, action.target);
    }
  }
}
