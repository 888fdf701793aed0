/** Administrators and their sessions (`backend/app/services/administrator_login.py`,
    `backend/app/services/administrator_authentication.py`, `backend/app/administrator_authorization.py`,
    `backend/app/routes/auth.py`): every operation, and what whole runs keep. */
module Administrators {
  import opened Wrappers
  import opened AdministratorAccounts

  const TOKEN_LIFETIME := 900 * SECOND

  /** A session row; its owner is the position of an account, its own identifier its position. */
  datatype Session = Session(owner: nat, jtiDigest: string, issuedAt: int, expiresAt: int, revokedAt: Option<int>)

  datatype Office = Office(accounts: seq<Account>, sessions: seq<Session>)

  const ALL_PERMISSIONS := {AdministratorManage, EnrollmentTokenIssue, EnrollmentTokenRevoke, DeviceCredentialRevoke,
                            PolicyAssign, DeviceControl, PolicyManage}

  datatype Refusal = Unauthenticated | Denied | Invalid | NotFound | Conflict | Database

  datatype Outcome = Done(revokedSessions: nat) | Refused(why: Refusal)

  /** Password hashing, digests of token identifiers, Unicode case, and the reading of UUIDs. */
  datatype Tools = Tools(check: (string, string) -> bool, hash: string -> string, digest: string -> string,
                         lower: string -> string, casefold: string -> string, printable: char -> bool,
                         parseUuid: string -> Option<string>)

  function ByUsername(s: Office, username: string): (r: Option<nat>)
    ensures r.Some? ==> r.value < |s.accounts|
  {
    IndexOf(s.accounts, (a: Account) => a.username == username)
  }

  /** `_find_administrator_uuid`. */
  function ByUuid(t: Tools, s: Office, text: string): (r: (Option<Refusal>, nat))
    ensures r.0.None? ==> r.1 < |s.accounts|
  {
    var uuid := t.parseUuid(text);
    if uuid.None? then (Some(Invalid), 0)
    else
      var i := IndexOf(s.accounts, (a: Account) => a.uuid == uuid.value);
      if i.None? then (Some(NotFound), 0) else (None, i.value)
  }

  predicate UsernameChar(c: char) { 'a' <= c <= 'z' || '0' <= c <= '9' || c in "._-" }

  predicate UsernameOk(u: string) { 3 <= |u| <= 64 && forall c :: c in u ==> UsernameChar(c) }

  predicate TextOk(t: Tools, s: string, maximum: nat) { 1 <= |s| <= maximum && forall c :: c in s ==> t.printable(c) }

  predicate PasswordOk(t: Tools, password: string, username: string) {
    && 12 <= |password| <= 128
    && t.casefold(password) !in ["administrator", "changemechangeme", "password1234", "passwordpassword"]
    && t.casefold(password) != username
  }

  predicate IsManager(a: Account) { a.status == Active && AdministratorManage in a.permissions }

  function ManagementCount(accounts: seq<Account>): nat {
    if |accounts| == 0 then 0
    else ManagementCount(accounts[..|accounts| - 1]) + if IsManager(accounts[|accounts| - 1]) then 1 else 0
  }

  // ----- sessions

  datatype Claims = Claims(jti: string, subject: string)

  predicate Usable(session: Session, now: int) { session.revokedAt.None? && session.expiresAt > now }

  /** `_load_current_administrator_context`: the session that a verified token stands for. */
  function Context(t: Tools, s: Office, claims: Claims, now: int): (r: Option<nat>)
    ensures r.Some? ==> r.value < |s.sessions| && Usable(s.sessions[r.value], now)
    ensures r.Some? ==> var owner := s.sessions[r.value].owner; owner < |s.accounts| && s.accounts[owner].status == Active
  {
    if !(1 <= |claims.jti| <= 128) || !(1 <= |claims.subject| <= 64) then None
    else
      var digest := t.digest(claims.jti);
      var i := IndexOf(s.sessions, (e: Session) => e.jtiDigest == digest);
      if i.None? || s.sessions[i.value].owner >= |s.accounts| then None
      else
        var session := s.sessions[i.value];
        var account := s.accounts[session.owner];
        if claims.subject == account.uuid && Usable(session, now) && account.status == Active then i else None
  }

  function RevokedSession(e: Session, owner: nat, now: int): Session {
    if e.owner == owner && Usable(e, now) then e.(revokedAt := Some(now)) else e
  }

  function Revoked(sessions: seq<Session>, owner: nat, now: int): (r: seq<Session>)
    ensures |r| == |sessions| && forall i :: 0 <= i < |r| ==> r[i] == RevokedSession(sessions[i], owner, now)
  {
    seq(|sessions|, i requires 0 <= i < |sessions| => RevokedSession(sessions[i], owner, now))
  }

  function RevokedCount(sessions: seq<Session>, owner: nat, now: int): nat {
    if |sessions| == 0 then 0
    else
      var last := sessions[|sessions| - 1];
      RevokedCount(sessions[..|sessions| - 1], owner, now) + if last.owner == owner && Usable(last, now) then 1 else 0
  }

  // ----- the operations

  datatype LoginOutcome = LoggedIn(claims: Claims) | LoginFailed | LoginUnavailable

  /** `authenticate_administrator`. The token carries whole seconds. */
  function Login(t: Tools, s: Office, username: string, password: string, jti: string, now: int)
    : (LoginOutcome, Office)
  {
    var canonical := t.lower(username);
    var found := if UsernameOk(canonical) then ByUsername(s, canonical) else None;
    if found.None? then (LoginFailed, s)
    else
      var i := found.value;
      var (ok, account) := LoginAttempt(s.accounts[i], t.check(s.accounts[i].verifier, password), now);
      var accounts := s.accounts[i := account];
      if !ok then (LoginFailed, s.(accounts := accounts))
      else if IndexOf(s.sessions, (e: Session) => e.jtiDigest == t.digest(jti)).Some? then (LoginUnavailable, s)
      else
        var issued := now - now % SECOND;
        (LoggedIn(Claims(jti, account.uuid)),
         Office(accounts, s.sessions + [Session(i, t.digest(jti), issued, issued + TOKEN_LIFETIME, None)]))
  }

  /** `logout_administrator`, of the session that authenticated the request. */
  function Logout(t: Tools, s: Office, claims: Claims, now: int): (Outcome, Office) {
    var context := Context(t, s, claims, now);
    if context.None? then (Refused(Unauthenticated), s)
    else (Done(1), s.(sessions := s.sessions[context.value := s.sessions[context.value].(revokedAt := Some(now))]))
  }

  /** A logout done at `now` leaves the accounts alone and ends the one token with this identifier:
      it is refused at every time, and every other token stands for what it stood for. */
  ghost predicate EndsOneToken(t: Tools, s: Office, after: Office, claims: Claims) {
    && after.accounts == s.accounts && |after.sessions| == |s.sessions|
    && (forall i :: 0 <= i < |s.sessions| ==> after.sessions[i] == s.sessions[i].(revokedAt := after.sessions[i].revokedAt))
    && forall other: Claims, at: int ::
         Context(t, after, other, at) == if t.digest(other.jti) == t.digest(claims.jti) then None
                                         else Context(t, s, other, at)
  }

  lemma LogoutEndsOneToken(t: Tools, s: Office, claims: Claims, now: int)
    ensures var (outcome, after) := Logout(t, s, claims, now);
            if Context(t, s, claims, now).Some? then outcome == Done(1) && EndsOneToken(t, s, after, claims)
            else outcome == Refused(Unauthenticated) && after == s
  {
    var context, after := Context(t, s, claims, now), Logout(t, s, claims, now).1;
    if context.Some? {
      forall other: Claims, at: int
        ensures Context(t, after, other, at) == if t.digest(other.jti) == t.digest(claims.jti) then None
                                                else Context(t, s, other, at)
      {
        SessionFoundAgain(s, context.value, now, t.digest(other.jti));
      }
    }
  }

  lemma SessionFoundAgain(s: Office, i: nat, now: int, digest: string)
    requires i < |s.sessions|
    ensures IndexOf(s.sessions[i := s.sessions[i].(revokedAt := Some(now))], (e: Session) => e.jtiDigest == digest)
         == IndexOf(s.sessions, (e: Session) => e.jtiDigest == digest)
  {
    var after := s.sessions[i := s.sessions[i].(revokedAt := Some(now))];
    var found, again := IndexOf(s.sessions, (e: Session) => e.jtiDigest == digest),
                        IndexOf(after, (e: Session) => e.jtiDigest == digest);
    assert forall j :: 0 <= j < |after| ==> after[j].jtiDigest == s.sessions[j].jtiDigest;
    if found.Some? {
      assert after[found.value].jtiDigest == digest;
    }
    if again.Some? {
      assert s.sessions[again.value].jtiDigest == digest;
    }
  }

  /** An account is replaced and its usable sessions are revoked. */
  function WithSessionsRevoked(s: Office, i: nat, account: Account, now: int): (Outcome, Office)
    requires i < |s.accounts|
  {
    (Done(RevokedCount(s.sessions, i, now)), Office(s.accounts[i := account], Revoked(s.sessions, i, now)))
  }

  function RevokeSessions(t: Tools, s: Office, username: string, reason: string, now: int): (Outcome, Office) {
    if !UsernameOk(username) || !TextOk(t, reason, 512) then (Refused(Invalid), s)
    else if ByUsername(s, username).None? then (Refused(NotFound), s)
    else
      var i := ByUsername(s, username).value;
      WithSessionsRevoked(s, i, s.accounts[i], now)
  }

  function DisableAdministrator(t: Tools, s: Office, username: string, reason: string, now: int): (Outcome, Office) {
    if !UsernameOk(username) || !TextOk(t, reason, 512) then (Refused(Invalid), s)
    else if ByUsername(s, username).None? then (Refused(NotFound), s)
    else
      var i := ByUsername(s, username).value;
      if s.accounts[i].status == Disabled then (Refused(Conflict), s)
      else WithSessionsRevoked(s, i, MadeDisabled(s.accounts[i], now), now)
  }

  function ResetPassword(t: Tools, s: Office, username: string, password: string, reason: string, now: int)
    : (Outcome, Office)
  {
    if !UsernameOk(username) || !TextOk(t, reason, 512) || !PasswordOk(t, password, username) then (Refused(Invalid), s)
    else if ByUsername(s, username).None? then (Refused(NotFound), s)
    else
      var i := ByUsername(s, username).value;
      WithSessionsRevoked(s, i, PasswordReset(s.accounts[i], t.hash(password), now), now)
  }

  predicate Repeats<T(==)>(xs: seq<T>) { exists i, j :: 0 <= i < j < |xs| && xs[i] == xs[j] }

  function ReplacePermissions(t: Tools, s: Office, target: string, permissions: seq<Permission>, reason: string)
    : (Outcome, Office)
  {
    var (refusal, i) := ByUuid(t, s, target);
    if !TextOk(t, reason, 512) || Repeats(permissions) then (Refused(Invalid), s)
    else if refusal.Some? then (Refused(refusal.value), s)
    else
      var requested := set p | p in permissions;
      if IsManager(s.accounts[i]) && AdministratorManage !in requested && ManagementCount(s.accounts) <= 1 then
        (Refused(Conflict), s)
      else (Done(0), s.(accounts := s.accounts[i := s.accounts[i].(permissions := requested)]))
  }

  /** `assert_administrator_may_be_disabled`. */
  function DisableGuard(t: Tools, s: Office, target: string): (r: Option<Refusal>)
    ensures r.None? ==> ByUuid(t, s, target).0.None?
  {
    var (refusal, i) := ByUuid(t, s, target);
    if refusal.Some? then refusal
    else if s.accounts[i].status == Disabled then Some(Conflict)
    else if IsManager(s.accounts[i]) && ManagementCount(s.accounts) <= 1 then Some(Conflict)
    else None
  }

  function NewAccount(t: Tools, username: string, password: string, uuid: string, now: int): Account {
    Account(username, uuid, t.hash(password), Active, 0, None, now, None, ALL_PERMISSIONS)
  }

  predicate Unused(s: Office, username: string, uuid: string) {
    forall i :: 0 <= i < |s.accounts| ==> s.accounts[i].username != username && s.accounts[i].uuid != uuid
  }

  /** `bootstrap_administrator`. */
  function Bootstrap(t: Tools, s: Office, username: string, displayName: string, password: string, reason: string,
                     uuid: string, now: int): (Outcome, Office)
  {
    if !UsernameOk(username) || !TextOk(t, displayName, 120) || !TextOk(t, reason, 512)
       || !PasswordOk(t, password, username) then (Refused(Invalid), s)
    else if |s.accounts| > 0 then (Refused(Conflict), s)
    else (Done(0), s.(accounts := [NewAccount(t, username, password, uuid, now)]))
  }

  /** The operator proves the password again. */
  predicate OperatorOk(t: Tools, operator: Account, password: string) {
    password != "" && IsManager(operator) && t.check(operator.verifier, password)
  }

  function CreateAdministrator(t: Tools, s: Office, username: string, displayName: string, password: string,
                               operator: nat, operatorPassword: string, reason: string, uuid: string, now: int)
    : (Outcome, Office)
    requires operator < |s.accounts|
  {
    if !UsernameOk(username) || !TextOk(t, displayName, 120) || !TextOk(t, reason, 512)
       || !PasswordOk(t, password, username) then (Refused(Invalid), s)
    else if !OperatorOk(t, s.accounts[operator], operatorPassword) then (Refused(Denied), s)
    else if !Unused(s, username, uuid) then (Refused(Conflict), s)
    else
      var i := |s.accounts|;
      var accounts := s.accounts + [NewAccount(t, username, password, uuid, now)];
      (Done(RevokedCount(s.sessions, i, now)), Office(accounts, Revoked(s.sessions, i, now)))
  }

  // ----- requests

  datatype Action =
    | Create(username: string, displayName: string, password: string, uuid: string)
    | Permit(target: string, permissions: seq<Permission>)
    | Revoke(target: string)
    | Disable(target: string)
    | Reset(target: string, newPassword: string)

  /** The account-management routes: a bearer token of a manager, the manager's password once more,
      and the operation. */
  function Manage(t: Tools, s: Office, claims: Claims, operatorPassword: string, reason: string, action: Action,
                  now: int): (Outcome, Office)
  {
    var context := Context(t, s, claims, now);
    if context.None? then (Refused(Unauthenticated), s)
    else
      var operator := s.sessions[context.value].owner;
      if !IsManager(s.accounts[operator]) then (Refused(Denied), s)
      else if action.Create? then
        CreateAdministrator(t, s, action.username, action.displayName, action.password, operator, operatorPassword,
                            reason, action.uuid, now)
      else if !OperatorOk(t, s.accounts[operator], operatorPassword) then (Refused(Denied), s)
      else if action.Permit? then ReplacePermissions(t, s, action.target, action.permissions, reason)
      else if action.Disable? && DisableGuard(t, s, action.target).Some? then
        (Refused(DisableGuard(t, s, action.target).value), s)
      else
        var (refusal, i) := ByUuid(t, s, action.target);
        if refusal.Some? then (Refused(refusal.value), s)
        else
          var username := s.accounts[i].username;
          match action
          case Revoke(_) => RevokeSessions(t, s, username, reason, now)
          case Disable(_) => DisableAdministrator(t, s, username, reason, now)
          case Reset(_, password) => ResetPassword(t, s, username, password, reason, now)
  }

  /** Everything that happens to accounts and sessions; the last four come from the host's shell. */
  datatype Step =
    | LogIn(username: string, password: string, jti: string, now: int)
    | LogOut(claims: Claims, now: int)
    | Administer(claims: Claims, operatorPassword: string, reason: string, action: Action, now: int)
    | HostBootstrap(username: string, displayName: string, password: string, uuid: string, reason: string, now: int)
    | HostReset(username: string, password: string, reason: string, now: int)
    | HostRevoke(username: string, reason: string, now: int)
    | HostDisable(username: string, reason: string, now: int)

  function Next(t: Tools, s: Office, step: Step): Office {
    match step
    case LogIn(username, password, jti, now) => Login(t, s, username, password, jti, now).1
    case LogOut(claims, now) => Logout(t, s, claims, now).1
    case Administer(claims, operatorPassword, reason, action, now) =>
      Manage(t, s, claims, operatorPassword, reason, action, now).1
    case HostBootstrap(username, displayName, password, uuid, reason, now) =>
      Bootstrap(t, s, username, displayName, password, reason, uuid, now).1
    case HostReset(username, password, reason, now) => ResetPassword(t, s, username, password, reason, now).1
    case HostRevoke(username, reason, now) => RevokeSessions(t, s, username, reason, now).1
    case HostDisable(username, reason, now) => DisableAdministrator(t, s, username, reason, now).1
  }

  function Run(t: Tools, s: Office, steps: seq<Step>): Office
    decreases |steps|
  {
    if |steps| == 0 then s else Run(t, Next(t, s, steps[0]), steps[1..])
  }

  // ----- the services

  class AdministratorService {
    var accounts: seq<Account>
    var sessions: seq<Session>
    const tools: Tools

    constructor (tools: Tools)
      ensures this.tools == tools && Tables() == Office([], [])
    {
      this.tools := tools;
      accounts, sessions := [], [];
    }

    ghost function Tables(): Office
      reads this
    {
      Office(accounts, sessions)
    }

    /** `authenticate_administrator`. */
    method AuthenticateAdministrator(username: string, password: string, jti: string, now: int)
      returns (outcome: LoginOutcome)
      modifies this
      ensures (outcome, Tables()) == Login(tools, old(Tables()), username, password, jti, now)
    {
      var canonical := tools.lower(username);
      if !UsernameOk(canonical) {
        return LoginFailed;
      }
      var found := IndexOf(accounts, (a: Account) => a.username == canonical);
      if found.None? {
        return LoginFailed;
      }
      var i, before := found.value, accounts;
      var ok := CountAttempt(i, tools.check(accounts[i].verifier, password), now);
      if !ok {
        return LoginFailed;
      }
      var digest := tools.digest(jti);
      if IndexOf(sessions, (e: Session) => e.jtiDigest == digest).Some? {
        accounts := before;
        return LoginUnavailable;
      }
      var issued := now - now % SECOND;
      sessions := sessions + [Session(i, digest, issued, issued + TOKEN_LIFETIME, None)];
      outcome := LoggedIn(Claims(jti, accounts[i].uuid));
    }

    /** The lockout machine, on the row of the account. */
    method CountAttempt(i: nat, valid: bool, now: int) returns (ok: bool)
      requires i < |accounts|
      modifies this`accounts
      ensures accounts == old(accounts)[i := LoginAttempt(old(accounts)[i], valid, now).1]
      ensures ok == LoginAttempt(old(accounts)[i], valid, now).0
    {
      var a := accounts[i];
      if a.status == Disabled {
        return false;
      }
      if a.status == Locked {
        var lockActive := a.lockExpiresAt.Some? && a.lockExpiresAt.value > now;
        if lockActive || !valid {
          if !lockActive {
            a := a.(lockExpiresAt := Some(now + LOCK_DURATION));
            a := a.(updatedAt := now);
          }
          accounts := accounts[i := a];
          return false;
        }
        a := a.(status := Active);
        a := a.(failedAttempts := 0);
        a := a.(lockExpiresAt := None);
      } else if !valid {
        a := a.(failedAttempts := a.failedAttempts + 1);
        a := a.(updatedAt := now);
        if a.failedAttempts == 5 {
          a := a.(status := Locked);
          a := a.(lockExpiresAt := Some(now + LOCK_DURATION));
        }
        accounts := accounts[i := a];
        return false;
      }
      a := a.(failedAttempts := 0);
      a := a.(updatedAt := now);
      accounts := accounts[i := a];
      ok := true;
    }

    /** `_revoke_active_sessions`: every usable session of the account is marked and counted. */
    method RevokeActiveSessions(owner: nat, now: int) returns (count: nat)
      modifies this`sessions
      ensures sessions == Revoked(old(sessions), owner, now)
      ensures count == RevokedCount(old(sessions), owner, now)
    {
      count := 0;
      var i := 0;
      while i < |sessions|
        invariant 0 <= i <= |sessions| == |old(sessions)|
        invariant forall k :: 0 <= k < i ==> sessions[k] == RevokedSession(old(sessions)[k], owner, now)
        invariant forall k :: i <= k < |sessions| ==> sessions[k] == old(sessions)[k]
        invariant count == RevokedCount(old(sessions)[..i], owner, now)
      {
        assert old(sessions)[..i + 1][..i] == old(sessions)[..i];
        if sessions[i].owner == owner && sessions[i].revokedAt.None? && sessions[i].expiresAt > now {
          sessions := sessions[i := sessions[i].(revokedAt := Some(now))];
          count := count + 1;
        }
        i := i + 1;
      }
      assert old(sessions)[..i] == old(sessions);
    }

    /** `revoke_administrator_sessions`. */
    method Revoke(username: string, reason: string, now: int) returns (outcome: Outcome)
      modifies this
      ensures (outcome, Tables()) == RevokeSessions(tools, old(Tables()), username, reason, now)
    {
      if !UsernameOk(username) || !TextOk(tools, reason, 512) {
        return Refused(Invalid);
      }
      var found := IndexOf(accounts, (a: Account) => a.username == username);
      if found.None? {
        return Refused(NotFound);
      }
      var count := RevokeActiveSessions(found.value, now);
      assert accounts == old(accounts)[found.value := old(accounts)[found.value]];
      outcome := Done(count);
    }

    /** `create_administrator`, once the operator has been looked up. */
    method Create(username: string, displayName: string, password: string, operator: nat, operatorPassword: string,
                  reason: string, uuid: string, now: int) returns (outcome: Outcome)
      requires operator < |accounts|
      modifies this
      ensures (outcome, Tables())
              == CreateAdministrator(tools, old(Tables()), username, displayName, password, operator, operatorPassword,
                                     reason, uuid, now)
    {
      if !UsernameOk(username) || !TextOk(tools, displayName, 120) || !TextOk(tools, reason, 512)
         || !PasswordOk(tools, password, username) {
        return Refused(Invalid);
      }
      if !OperatorOk(tools, accounts[operator], operatorPassword) {
        return Refused(Denied);
      }
      if exists i :: 0 <= i < |accounts| && (accounts[i].username == username || accounts[i].uuid == uuid) {
        return Refused(Conflict);
      }
      var i := |accounts|;
      accounts := accounts + [Account(username, uuid, tools.hash(password), Active, 0, None, now, None, ALL_PERMISSIONS)];
      var count := RevokeActiveSessions(i, now);
      outcome := Done(count);
    }

    /** `disable_administrator`. */
    method Disable(username: string, reason: string, now: int) returns (outcome: Outcome)
      modifies this
      ensures (outcome, Tables()) == DisableAdministrator(tools, old(Tables()), username, reason, now)
    {
      if !UsernameOk(username) || !TextOk(tools, reason, 512) {
        return Refused(Invalid);
      }
      var found := IndexOf(accounts, (a: Account) => a.username == username);
      if found.None? {
        return Refused(NotFound);
      }
      var i := found.value;
      if accounts[i].status == Disabled {
        return Refused(Conflict);
      }
      var a := accounts[i];
      a := a.(status := Disabled);
      a := a.(disabledAt := Some(now));
      a := a.(lockExpiresAt := None);
      a := a.(updatedAt := now);
      accounts := accounts[i := a];
      var count := RevokeActiveSessions(i, now);
      outcome := Done(count);
    }

    /** `reset_administrator_password`. */
    method Reset(username: string, password: string, reason: string, now: int) returns (outcome: Outcome)
      modifies this
      ensures (outcome, Tables()) == ResetPassword(tools, old(Tables()), username, password, reason, now)
    {
      if !UsernameOk(username) || !TextOk(tools, reason, 512) || !PasswordOk(tools, password, username) {
        return Refused(Invalid);
      }
      var found := IndexOf(accounts, (a: Account) => a.username == username);
      if found.None? {
        return Refused(NotFound);
      }
      var i := found.value;
      var a := accounts[i];
      a := a.(verifier := tools.hash(password));
      a := a.(failedAttempts := 0);
      a := a.(lockExpiresAt := None);
      if a.status == Locked {
        a := a.(status := Active);
      }
      a := a.(updatedAt := now);
      accounts := accounts[i := a];
      var count := RevokeActiveSessions(i, now);
      outcome := Done(count);
    }

    /** `replace_administrator_permissions`. */
    method Replace(target: string, permissions: seq<Permission>, reason: string) returns (outcome: Outcome)
      modifies this
      ensures (outcome, Tables()) == ReplacePermissions(tools, old(Tables()), target, permissions, reason)
    {
      if !TextOk(tools, reason, 512) || Repeats(permissions) {
        return Refused(Invalid);
      }
      var uuid := tools.parseUuid(target);
      if uuid.None? {
        return Refused(Invalid);
      }
      var found := IndexOf(accounts, (a: Account) => a.uuid == uuid.value);
      if found.None? {
        return Refused(NotFound);
      }
      var i := found.value;
      var requested := set p | p in permissions;
      if accounts[i].status == Active && AdministratorManage in accounts[i].permissions
         && AdministratorManage !in requested && ManagementCount(accounts) <= 1 {
        return Refused(Conflict);
      }
      accounts := accounts[i := accounts[i].(permissions := requested)];
      outcome := Done(0);
    }

    /** `logout_administrator`. */
    method LogOutSession(claims: Claims, now: int) returns (outcome: Outcome)
      modifies this
      ensures (outcome, Tables()) == Logout(tools, old(Tables()), claims, now)
      ensures if old(Context(tools, Tables(), claims, now)).None?
              then outcome == Refused(Unauthenticated) && Tables() == old(Tables())
              else outcome == Done(1) && EndsOneToken(tools, old(Tables()), Tables(), claims)
    {
      LogoutEndsOneToken(tools, Tables(), claims, now);
      var context := Context(tools, Office(accounts, sessions), claims, now);
      if context.None? {
        return Refused(Unauthenticated);
      }
      sessions := sessions[context.value := sessions[context.value].(revokedAt := Some(now))];
      outcome := Done(1);
    }
  }
}
