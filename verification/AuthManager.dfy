/**
  The account mutators of `AuthManager` in place, together with the session file: the ones
  that take a password away from somebody also end every session of that user.
*/
module AuthManagers {
  import opened Wrappers
  import opened AccountEffects
  import opened Accounts
  import opened Sessions

  /** The session log after every session of `id` has been ended, and no other. */
  function WithoutUser(log: Entries, id: string): (left: Entries)
    ensures forall token :: token in left <==> token in log && UserOf(log[token]) != id
  {
    log - TokensOf(log, id)
  }

  /** A call succeeds when the mutator does, and otherwise raises the same error. */
  predicate Ends<T>(r: Result<T, AuthError>, o: Outcome) {
    match o
    case Success(_) => r.Success?
    case Failure(e) => r.Failure? && r.error == e
  }

  /** A record without an id has no sessions of its own to end. */
  function RecoveredLog(log: Entries, id: string): Entries {
    if id == "" then log else WithoutUser(log, id)
  }

  class AuthManager {
    var users: seq<User>
    var legacyHash: Option<string>
    const sessions: PersistentSessions
    const hashing: Hashing

    ghost function Value(): Store
      reads this
    {
      Store(users, legacyHash)
    }

    ghost predicate Valid()
      reads this, sessions
    {
      Inv(Value()) && sessions.Valid()
    }

    constructor (hashing: Hashing)
      ensures Valid() && fresh(sessions) && Value() == EMPTY_STORE && sessions.log == map[]
    {
      users, legacyHash := [], None;
      sessions := new PersistentSessions();
      this.hashing := hashing;
    }

    method FindUser(name: string) returns (i: nat)
      ensures i == FirstNamed(users, name)
    {
      i := 0;
      while i < |users| && users[i].username != name
        invariant 0 <= i <= |users|
        invariant FirstNamed(users, name) == i + FirstNamed(users[i..], name)
      {
        assert users[i..][1..] == users[i + 1..];
        i := i + 1;
      }
    }

    /** The first admin check of the admin-only mutators. */
    method CallerIsAdmin(admin: string) returns (ok: bool)
      ensures ok == IsAdminName(users, admin)
    {
      var i := FindUser(admin);
      ok := i < |users| && users[i].isAdmin;
    }

    method SetupUser(username: string, fullName: string, email: string, password: string, id: string, hash: string)
      returns (r: Result<(), AuthError>)
      requires Valid() && FreshId(Value(), SetupOp(username, fullName, email, password, id, hash))
      modifies this
      ensures Valid()
      ensures Value() == Accounts.Apply(hashing, old(Value()), SetupOp(username, fullName, email, password, id, hash))
      ensures forall e :: r == Failure(e) <==>
        Refusal(hashing, old(Value()), SetupOp(username, fullName, email, password, id, hash), e)
      ensures r.Success? ==> Effect(old(Value()), SetupOp(username, fullName, email, password, id, hash), Value())
      ensures Ends(r, Setup(old(Value()), username, fullName, email, password, id, hash))
    {
      OpKeepsInv(hashing, Value(), SetupOp(username, fullName, email, password, id, hash));
      MutatorEffect(hashing, Value(), SetupOp(username, fullName, email, password, id, hash));
      if users != [] {
        return Failure(AlreadyConfigured);
      }
      if username == "" {
        return Failure(MissingUsername);
      }
      if |password| < MIN_PASSWORD {
        return Failure(PasswordTooShort);
      }
      users := [User(id, username, true, Some(hash), None, Some(fullName), Some(email))];
      return Success(());
    }

    method AddUserInvite(username: string, id: string, code: string) returns (r: Result<string, AuthError>)
      requires Valid() && FreshId(Value(), InviteOp(username, id, code))
      modifies this
      ensures Valid()
      ensures Value() == Accounts.Apply(hashing, old(Value()), InviteOp(username, id, code))
      ensures forall e :: r == Failure(e) <==> Refusal(hashing, old(Value()), InviteOp(username, id, code), e)
      ensures r.Success? ==> Effect(old(Value()), InviteOp(username, id, code), Value())
      ensures Ends(r, Invite(old(Value()), username, id, code))
      ensures r.Success? ==> r.value == code
    {
      OpKeepsInv(hashing, Value(), InviteOp(username, id, code));
      MutatorEffect(hashing, Value(), InviteOp(username, id, code));
      if username == "" {
        return Failure(MissingUsername);
      }
      var i := FindUser(username);
      if i < |users| {
        return Failure(UsernameTaken);
      }
      users := users + [User(id, username, false, None, Some(code), None, None)];
      return Success(code);
    }

    /** The loop over the records that looks for the pending one. */
    method FindInvited(username: string, code: string) returns (i: nat)
      ensures i == FirstInvited(users, username, code)
    {
      i := 0;
      while i < |users| && !(users[i].username == username && users[i].pendingInvite == Some(code))
        invariant 0 <= i <= |users|
        invariant FirstInvited(users, username, code) == i + FirstInvited(users[i..], username, code)
      {
        assert users[i..][1..] == users[i + 1..];
        i := i + 1;
      }
    }

    method CompleteInvite(username: string, code: string, fullName: string, email: string, password: string, hash: string)
      returns (r: Result<(), AuthError>)
      requires Valid()
      modifies this
      ensures Valid()
      ensures Value() == Accounts.Apply(hashing, old(Value()), CompleteOp(username, code, fullName, email, password, hash))
      ensures forall e :: r == Failure(e) <==>
        Refusal(hashing, old(Value()), CompleteOp(username, code, fullName, email, password, hash), e)
      ensures r.Success? ==> Effect(old(Value()), CompleteOp(username, code, fullName, email, password, hash), Value())
      ensures Ends(r, Complete(old(Value()), username, code, fullName, email, password, hash))
    {
      OpKeepsInv(hashing, Value(), CompleteOp(username, code, fullName, email, password, hash));
      MutatorEffect(hashing, Value(), CompleteOp(username, code, fullName, email, password, hash));
      if |password| < MIN_PASSWORD {
        return Failure(PasswordTooShort);
      }
      var i := FindInvited(username, code);
      if i == |users| {
        return Failure(InvalidInvite);
      }
      users := users[i := users[i].(pendingInvite := None, passwordHash := Some(hash),
                                    fullName := Some(fullName), email := Some(email))];
      return Success(());
    }

    /** Back to a pending invite; whoever was logged in as that user no longer is. */
    method AdminResetPassword(username: string, admin: string, code: string) returns (r: Result<string, AuthError>)
      requires Valid()
      modifies this, sessions
      ensures Valid()
      ensures Value() == Accounts.Apply(hashing, old(Value()), AdminResetOp(username, admin, code))
      ensures forall e :: r == Failure(e) <==> Refusal(hashing, old(Value()), AdminResetOp(username, admin, code), e)
      ensures r.Success? ==> Effect(old(Value()), AdminResetOp(username, admin, code), Value())
      ensures Ends(r, AdminReset(old(Value()), username, admin, code))
      ensures sessions.log == if r.Failure? then old(sessions.log)
                              else WithoutUser(old(sessions.log), old(users)[FirstNamed(old(users), username)].id)
    {
      OpKeepsInv(hashing, Value(), AdminResetOp(username, admin, code));
      MutatorEffect(hashing, Value(), AdminResetOp(username, admin, code));
      var allowed := CallerIsAdmin(admin);
      if !allowed {
        return Failure(NotAdmin);
      }
      if username == admin {
        return Failure(OwnAccount);
      }
      var i := FindUser(username);
      if i == |users| {
        return Failure(NotFound);
      }
      var u := users[i];
      if u.passwordHash.None? && u.pendingInvite.None? {
        return Failure(Malformed);
      }
      users := users[i := u.(passwordHash := None, pendingInvite := Some(code))];
      sessions.RevokeUserSessions(u.id);
      return Success(code);
    }

    /** The record of that name, or the only one there is. */
    method FindTarget(username: string) returns (r: Result<nat, AuthError>)
      requires users != []
      ensures r == RecoverTarget(users, username) && (r.Success? ==> r.value < |users|)
    {
      var i := 0;
      if username != "" {
        i := FindUser(username);
        if i == |users| {
          return Failure(NotFound);
        }
      } else if |users| != 1 {
        return Failure(Ambiguous);
      }
      return Success(i);
    }

    method RecoverPassword(username: string, hash: string) returns (r: Result<string, AuthError>)
      requires Valid()
      modifies this, sessions
      ensures Valid()
      ensures Value() == Accounts.Apply(hashing, old(Value()), RecoverOp(username, hash))
      ensures forall e :: r == Failure(e) <==> Refusal(hashing, old(Value()), RecoverOp(username, hash), e)
      ensures r.Success? ==> Effect(old(Value()), RecoverOp(username, hash), Value())
      ensures Ends(r, Recover(old(Value()), username, hash))
      ensures sessions.log == if old(users) == [] || r.Failure? then old(sessions.log)
                              else RecoveredLog(old(sessions.log), old(users)[RecoverTarget(old(users), username).value].id)
    {
      OpKeepsInv(hashing, Value(), RecoverOp(username, hash));
      MutatorEffect(hashing, Value(), RecoverOp(username, hash));
      if users == [] {
        legacyHash := Some(hash);
        return Success("(legacy)");
      }
      var target := FindTarget(username);
      if target.Failure? {
        return Failure(target.error);
      }
      var i := target.value;
      var u := users[i];
      users := users[i := u.(passwordHash := Some(hash), pendingInvite := None)];
      if u.id != "" {
        sessions.RevokeUserSessions(u.id);
      }
      return Success(u.username);
    }

    method ChangeOwnPassword(username: string, current: string, password: string, hash: string) returns (ok: bool)
      requires Valid()
      modifies this
      ensures Valid()
      ensures Value() == Accounts.Apply(hashing, old(Value()), ChangeOp(username, current, password, hash))
      ensures ok <==> |password| >= 8 && KnowsPassword(hashing, old(users), username, current)
      ensures ok ==> Effect(old(Value()), ChangeOp(username, current, password, hash), Value())
      ensures ok <==> ChangePassword(hashing, old(Value()), username, current, password, hash).Success?
    {
      OpKeepsInv(hashing, Value(), ChangeOp(username, current, password, hash));
      MutatorEffect(hashing, Value(), ChangeOp(username, current, password, hash));
      ChangeSucceedsIff(hashing, Value(), username, current, password, hash);
      if |password| < MIN_PASSWORD {
        return false;
      }
      var i := FindUser(username);
      if i == |users| {
        return false;
      }
      var stored := if users[i].passwordHash.Some? then users[i].passwordHash.value else "";
      if !VerifyPassword(hashing, current, stored) {
        return false;
      }
      users := users[i := users[i].(passwordHash := Some(hash))];
      return true;
    }

    method UpdateOwnProfile(username: string, fullName: Option<string>, email: Option<string>)
      returns (r: Result<(), AuthError>)
      requires Valid()
      modifies this
      ensures Valid()
      ensures Value() == Accounts.Apply(hashing, old(Value()), ProfileOp(username, fullName, email))
      ensures forall e :: r == Failure(e) <==> Refusal(hashing, old(Value()), ProfileOp(username, fullName, email), e)
      ensures r.Success? ==> Effect(old(Value()), ProfileOp(username, fullName, email), Value())
      ensures Ends(r, UpdateProfile(old(Value()), username, fullName, email))
    {
      OpKeepsInv(hashing, Value(), ProfileOp(username, fullName, email));
      MutatorEffect(hashing, Value(), ProfileOp(username, fullName, email));
      var i := FindUser(username);
      if i == |users| {
        return Failure(NotFound);
      }
      var u := users[i];
      if fullName.Some? {
        u := u.(fullName := fullName);
      }
      if email.Some? {
        u := u.(email := email);
      }
      users := users[i := u];
      return Success(());
    }

    method DeleteUser(username: string, admin: string) returns (r: Result<(), AuthError>)
      requires Valid()
      modifies this, sessions
      ensures Valid()
      ensures Value() == Accounts.Apply(hashing, old(Value()), DeleteOp(username, admin))
      ensures forall e :: r == Failure(e) <==> Refusal(hashing, old(Value()), DeleteOp(username, admin), e)
      ensures r.Success? ==> Effect(old(Value()), DeleteOp(username, admin), Value())
      ensures Ends(r, Delete(old(Value()), username, admin))
      ensures sessions.log == if r.Failure? then old(sessions.log)
                              else WithoutUser(old(sessions.log), old(users)[FirstNamed(old(users), username)].id)
    {
      OpKeepsInv(hashing, Value(), DeleteOp(username, admin));
      MutatorEffect(hashing, Value(), DeleteOp(username, admin));
      var allowed := CallerIsAdmin(admin);
      if !allowed {
        return Failure(NotAdmin);
      }
      if username == admin {
        return Failure(OwnAccount);
      }
      var i := FindUser(username);
      if i == |users| {
        return Failure(NotFound);
      }
      if users[i].isAdmin && !OtherAdmin(users, username) {
        return Failure(LastAdmin);
      }
      sessions.RevokeUserSessions(users[i].id);
      var kept := AllBut(username);
      users := kept;
      return Success(());
    }

    method AllBut(username: string) returns (kept: seq<User>)
      ensures kept == Without(users, username)
    {
      kept := [];
      for k := 0 to |users|
        invariant kept + Without(users[k..], username) == Without(users, username)
      {
        WithoutFrom(users, username, k);
        if users[k].username != username {
          Regroup(kept, [users[k]], Without(users[k + 1..], username));
          kept := kept + [users[k]];
        }
      }
    }
  }

  lemma WithoutFrom(users: seq<User>, name: string, k: nat)
    requires k < |users|
    ensures Without(users[k..], name)
         == if users[k].username == name then Without(users[k + 1..], name) else [users[k]] + Without(users[k + 1..], name)
  {
    assert users[k..][0] == users[k] && users[k..][1..] == users[k + 1..];
  }
}
