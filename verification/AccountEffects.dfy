/**
  What each account mutator of tinyagentos/auth.py does, user by user: when it is refused and why,
  whose record it changes and how, and that every other record stays as it is.
*/
module AccountEffects {
  import opened Wrappers
  import opened Accounts

  predicate Named(users: seq<User>, name: string) {
    exists k :: 0 <= k < |users| && users[k].username == name
  }

  predicate AdminNamed(users: seq<User>, name: string) {
    exists k :: 0 <= k < |users| && users[k].username == name && users[k].isAdmin
  }

  predicate InvitedWith(users: seq<User>, name: string, code: string) {
    exists k :: 0 <= k < |users| && users[k].username == name && users[k].pendingInvite == Some(code)
  }

  // ---- which passwords are accepted ------------------------------------------------------------

  /** A legacy hash is a salt without colons, a colon and the digest of salt, colon and password. */
  ghost predicate Salted(h: Hashing, password: string, stored: string, salt: string) {
    ':' !in salt && stored == salt + ":" + h.sha256Hex(salt + ":" + password)
  }

  ghost predicate Accepts(h: Hashing, password: string, stored: string) {
    if "$argon2" <= stored then h.argon2Verifies(stored, password)
    else exists salt :: Salted(h, password, stored, salt)
  }

  lemma {:induction false} FirstColonIs(salt: string, rest: string)
    requires ':' !in salt
    ensures FirstColon(salt + ":" + rest) == |salt|
  {
    var s := salt + ":" + rest;
    if salt != "" {
      FirstColonIs(salt[1..], rest);
      assert s[1..] == salt[1..] + ":" + rest;
      assert s[0] == salt[0] && salt[0] in salt;
    }
  }

  lemma PasswordIsAcceptedIff(h: Hashing, password: string, stored: string)
    ensures VerifyPassword(h, password, stored) <==> Accepts(h, password, stored)
  {
    if !("$argon2" <= stored) {
      if VerifyPassword(h, password, stored) {
        assert Salted(h, password, stored, stored[..FirstColon(stored)]);
      }
      if salt :| Salted(h, password, stored, salt) {
        FirstColonIs(salt, h.sha256Hex(salt + ":" + password));
        assert stored[..|salt|] == salt;
      }
    }
  }

  /** The named user has a password, and `password` is it. */
  ghost predicate KnowsPassword(h: Hashing, users: seq<User>, name: string, password: string) {
    exists k :: 0 <= k < |users| && users[k].username == name
      && users[k].passwordHash.Some? && Accepts(h, password, users[k].passwordHash.value)
  }

  // ---- why a call is refused -------------------------------------------------------------------

  ghost predicate Refusal(h: Hashing, s: Store, op: Op, e: AuthError) {
    match op
    case SetupOp(username, _, _, password, _, _) =>
      (match e
       case AlreadyConfigured => s.users != []
       case MissingUsername => s.users == [] && username == ""
       case PasswordTooShort => s.users == [] && username != "" && |password| < 8
       case _ => false)
    case InviteOp(username, _, _) =>
      (match e
       case MissingUsername => username == ""
       case UsernameTaken => username != "" && Named(s.users, username)
       case _ => false)
    case CompleteOp(username, code, _, _, password, _) =>
      (match e
       case PasswordTooShort => |password| < 8
       case InvalidInvite => |password| >= 8 && !InvitedWith(s.users, username, code)
       case _ => false)
    case AdminResetOp(username, admin, _) =>
      (match e
       case NotAdmin => !AdminNamed(s.users, admin)
       case OwnAccount => AdminNamed(s.users, admin) && username == admin
       case NotFound => AdminNamed(s.users, admin) && !Named(s.users, username)
       case _ => false)
    case RecoverOp(username, _) =>
      (match e
       case NotFound => s.users != [] && username != "" && !Named(s.users, username)
       case Ambiguous => |s.users| > 1 && username == ""
       case _ => false)
    case ChangeOp(username, current, password, _) =>
      (match e
       case PasswordTooShort => |password| < 8
       case NotFound => |password| >= 8 && !Named(s.users, username)
       case WrongPassword =>
         |password| >= 8 && Named(s.users, username) && !KnowsPassword(h, s.users, username, current)
       case _ => false)
    case ProfileOp(username, _, _) => e.NotFound? && !Named(s.users, username)
    case DeleteOp(username, admin) =>
      (match e
       case NotAdmin => !AdminNamed(s.users, admin)
       case OwnAccount => AdminNamed(s.users, admin) && username == admin
       case NotFound => AdminNamed(s.users, admin) && !Named(s.users, username)
       case _ => false)  // the only admin is the caller
    case LegacyOp(_) => false
    case UpgradeOp(i, _) => e.NotFound? && !(i < |s.users| && s.users[i].passwordHash.Some?)
  }

  // ---- what an accepted call does --------------------------------------------------------------

  /** Only users of that name are touched, and they stay who they are. */
  predicate OnlyTouches(s: Store, t: Store, name: string) {
    && |t.users| == |s.users| && t.legacyHash == s.legacyHash
    && forall k :: 0 <= k < |s.users| ==>
      && t.users[k].id == s.users[k].id && t.users[k].username == s.users[k].username
      && t.users[k].isAdmin == s.users[k].isAdmin
      && (s.users[k].username != name ==> t.users[k] == s.users[k])
  }

  predicate SameProfile(u: User, v: User) {
    v.fullName == u.fullName && v.email == u.email
  }

  /** Everybody of that name has this hash and this invite now. */
  predicate Holds(t: Store, name: string, hash: Option<string>, invite: Option<string>) {
    forall k :: 0 <= k < |t.users| && t.users[k].username == name ==>
      t.users[k].passwordHash == hash && t.users[k].pendingInvite == invite
  }

  predicate KeepsProfiles(s: Store, t: Store) {
    |t.users| == |s.users| && forall k :: 0 <= k < |s.users| ==> SameProfile(s.users[k], t.users[k])
  }

  /** One user of that name is gone, and all others are in their old order. */
  ghost predicate Removes(users: seq<User>, left: seq<User>, name: string) {
    exists k :: 0 <= k < |users| && users[k].username == name && left == users[..k] + users[k + 1..]
  }

  ghost predicate Effect(s: Store, op: Op, t: Store) {
    match op
    case SetupOp(username, fullName, email, _, id, hash) =>
      && t.legacyHash == s.legacyHash && |t.users| == 1
      && t.users[0].id == id && t.users[0].username == username && t.users[0].isAdmin
      && t.users[0].passwordHash == Some(hash) && t.users[0].pendingInvite == None
      && t.users[0].fullName == Some(fullName) && t.users[0].email == Some(email)
    case InviteOp(username, id, code) =>
      && t.legacyHash == s.legacyHash && |t.users| == |s.users| + 1 && t.users[..|s.users|] == s.users
      && var u := t.users[|s.users|];
      && u.id == id && u.username == username && !u.isAdmin
      && u.passwordHash == None && u.pendingInvite == Some(code)
    case CompleteOp(username, _, fullName, email, _, hash) =>
      && OnlyTouches(s, t, username) && Holds(t, username, Some(hash), None)
      && forall k :: 0 <= k < |t.users| && t.users[k].username == username ==>
        t.users[k].fullName == Some(fullName) && t.users[k].email == Some(email)
    case AdminResetOp(username, _, code) =>
      OnlyTouches(s, t, username) && KeepsProfiles(s, t) && Holds(t, username, None, Some(code))
    case RecoverOp(username, hash) =>
      if s.users == [] then t == Store([], Some(hash))
      else if username == "" then OnlyTouches(s, t, s.users[0].username) && KeepsProfiles(s, t)
        && Holds(t, s.users[0].username, Some(hash), None)
      else OnlyTouches(s, t, username) && KeepsProfiles(s, t) && Holds(t, username, Some(hash), None)
    case ChangeOp(username, _, _, hash) =>
      && OnlyTouches(s, t, username) && KeepsProfiles(s, t)
      && forall k :: 0 <= k < |t.users| && t.users[k].username == username ==>
        t.users[k].passwordHash == Some(hash) && t.users[k].pendingInvite == s.users[k].pendingInvite
    case ProfileOp(username, newName, newEmail) =>
      && OnlyTouches(s, t, username)
      && forall k :: 0 <= k < |t.users| && t.users[k].username == username ==>
        && t.users[k].passwordHash == s.users[k].passwordHash
        && t.users[k].pendingInvite == s.users[k].pendingInvite
        && t.users[k].fullName == (if newName.Some? then newName else s.users[k].fullName)
        && t.users[k].email == (if newEmail.Some? then newEmail else s.users[k].email)
    case DeleteOp(username, _) =>
      t.legacyHash == s.legacyHash && Removes(s.users, t.users, username)
    case LegacyOp(hash) => t == Store(s.users, Some(hash))
    case UpgradeOp(i, hash) =>
      && i < |s.users| && OnlyTouches(s, t, s.users[i].username) && KeepsProfiles(s, t)
      && t.users[i].passwordHash == Some(hash) && t.users[i].pendingInvite == s.users[i].pendingInvite
  }

  // ---- proofs, mutator by mutator --------------------------------------------------------------

  lemma FoundIffNamed(users: seq<User>, name: string)
    ensures FirstNamed(users, name) < |users| <==> Named(users, name)
  {
  }

  lemma AdminFoundIffNamed(users: seq<User>, name: string)
    requires DistinctNames(users)
    ensures IsAdminName(users, name) <==> AdminNamed(users, name)
  {
    if k :| 0 <= k < |users| && users[k].username == name && users[k].isAdmin {
      assert FirstNamed(users, name) == k;
    }
  }

  /** With distinct names, changing the record at one position touches nobody of another name. */
  lemma UpdateTouches(s: Store, i: nat, u: User)
    requires DistinctNames(s.users) && i < |s.users|
    requires u.id == s.users[i].id && u.username == s.users[i].username && u.isAdmin == s.users[i].isAdmin
    ensures OnlyTouches(s, s.(users := s.users[i := u]), s.users[i].username)
    ensures forall k :: 0 <= k < |s.users| && s.users[k].username == s.users[i].username ==> k == i
  {
  }

  lemma InviteEffect(h: Hashing, s: Store, username: string, id: string, code: string)
    ensures forall e :: Invite(s, username, id, code) == Failure(e) <==> Refusal(h, s, InviteOp(username, id, code), e)
    ensures Invite(s, username, id, code).Success? ==>
      Effect(s, InviteOp(username, id, code), Invite(s, username, id, code).value)
  {
    FoundIffNamed(s.users, username);
  }

  lemma CompleteEffect(h: Hashing, s: Store, username: string, code: string, fullName: string, email: string,
                       password: string, hash: string)
    requires DistinctNames(s.users)
    ensures var op := CompleteOp(username, code, fullName, email, password, hash);
      && (forall e :: Outcomes(h, s, op) == Failure(e) <==> Refusal(h, s, op, e))
      && (Outcomes(h, s, op).Success? ==> Effect(s, op, Outcomes(h, s, op).value))
  {
    var i := FirstInvited(s.users, username, code);
    if i < |s.users| {
      UpdateTouches(s, i, s.users[i].(pendingInvite := None, passwordHash := Some(hash),
                                      fullName := Some(fullName), email := Some(email)));
    }
  }

  lemma AdminResetEffect(h: Hashing, s: Store, username: string, admin: string, code: string)
    requires Sound(s.users)
    ensures var op := AdminResetOp(username, admin, code);
      && (forall e :: Outcomes(h, s, op) == Failure(e) <==> Refusal(h, s, op, e))
      && (Outcomes(h, s, op).Success? ==> Effect(s, op, Outcomes(h, s, op).value))
  {
    FoundIffNamed(s.users, username);
    AdminFoundIffNamed(s.users, admin);
    FoundIffNamed(s.users, admin);
    var i := FirstNamed(s.users, username);
    if i < |s.users| {
      UpdateTouches(s, i, s.users[i].(passwordHash := None, pendingInvite := Some(code)));
    }
  }

  lemma RecoverEffect(h: Hashing, s: Store, username: string, hash: string)
    requires DistinctNames(s.users)
    ensures var op := RecoverOp(username, hash);
      && (forall e :: Outcomes(h, s, op) == Failure(e) <==> Refusal(h, s, op, e))
      && (Outcomes(h, s, op).Success? ==> Effect(s, op, Outcomes(h, s, op).value))
  {
    FoundIffNamed(s.users, username);
    if s.users != [] && RecoverTarget(s.users, username).Success? {
      var i := RecoverTarget(s.users, username).value;
      UpdateTouches(s, i, s.users[i].(passwordHash := Some(hash), pendingInvite := None));
    }
  }

  lemma ChangeEffect(h: Hashing, s: Store, username: string, current: string, password: string, hash: string)
    requires DistinctNames(s.users)
    ensures var op := ChangeOp(username, current, password, hash);
      && (forall e :: Outcomes(h, s, op) == Failure(e) <==> Refusal(h, s, op, e))
      && (Outcomes(h, s, op).Success? ==> Effect(s, op, Outcomes(h, s, op).value))
  {
    FoundIffNamed(s.users, username);
    var i := FirstNamed(s.users, username);
    if i < |s.users| {
      UpdateTouches(s, i, s.users[i].(passwordHash := Some(hash)));
      EmptyNeverVerifies(h, current);
      if s.users[i].passwordHash.Some? {
        PasswordIsAcceptedIff(h, current, s.users[i].passwordHash.value);
      }
    }
  }

  /** A password is changed exactly by whoever knows it. */
  lemma ChangeSucceedsIff(h: Hashing, s: Store, username: string, current: string, password: string, hash: string)
    requires DistinctNames(s.users)
    ensures ChangePassword(h, s, username, current, password, hash).Success? <==>
      |password| >= 8 && KnowsPassword(h, s.users, username, current)
  {
    ChangeEffect(h, s, username, current, password, hash);
    var op := ChangeOp(username, current, password, hash);
    var e := if |password| < 8 then PasswordTooShort else if !Named(s.users, username) then NotFound else WrongPassword;
    assert Outcomes(h, s, op) == Failure(e) <==> Refusal(h, s, op, e);
    assert !Refusal(h, s, op, e) ==> forall other :: !Refusal(h, s, op, other);
  }

  lemma ProfileEffect(h: Hashing, s: Store, username: string, newName: Option<string>, newEmail: Option<string>)
    requires DistinctNames(s.users)
    ensures var op := ProfileOp(username, newName, newEmail);
      && (forall e :: Outcomes(h, s, op) == Failure(e) <==> Refusal(h, s, op, e))
      && (Outcomes(h, s, op).Success? ==> Effect(s, op, Outcomes(h, s, op).value))
  {
    FoundIffNamed(s.users, username);
    var i := FirstNamed(s.users, username);
    if i < |s.users| {
      UpdateTouches(s, i, UpdateProfile(s, username, newName, newEmail).value.users[i]);
    }
  }

  lemma {:induction false} WithoutNobody(users: seq<User>, name: string)
    requires forall j :: 0 <= j < |users| ==> users[j].username != name
    ensures Without(users, name) == users
  {
    if users != [] {
      WithoutNobody(users[1..], name);
    }
  }

  lemma WithoutStep(all: seq<User>, u: User, rest: seq<User>, name: string)
    requires all == [u] + rest
    ensures Without(all, name) == if u.username == name then Without(rest, name) else [u] + Without(rest, name)
  {
    assert all[1..] == rest;
  }

  lemma {:induction false} WithoutConcat(a: seq<User>, b: seq<User>, name: string)
    ensures Without(a + b, name) == Without(a, name) + Without(b, name)
  {
    if a == [] {
      assert a + b == b;
    } else {
      var u, rest := a[0], a[1..];
      WithoutConcat(rest, b, name);
      Regroup([u], rest, b);
      WithoutStep(a, u, rest, name);
      WithoutStep(a + b, u, rest + b, name);
      Regroup([u], Without(rest, name), Without(b, name));
    }
  }

  /** Where one user has the name, the others stay in their order. */
  lemma WithoutOne(front: seq<User>, one: seq<User>, back: seq<User>, name: string)
    requires |one| == 1 && one[0].username == name
    requires forall k :: 0 <= k < |front| ==> front[k].username != name
    requires forall k :: 0 <= k < |back| ==> back[k].username != name
    ensures Without(front + (one + back), name) == front + back
  {
    WithoutConcat(front, one + back, name);
    WithoutConcat(one, back, name);
    WithoutNobody(front, name);
    WithoutNobody(back, name);
    assert Without(one, name) == Without(one[1..], name) == [];
    assert [] + back == back;
  }

  lemma SplitAtOne(users: seq<User>, k: nat) returns (front: seq<User>, one: seq<User>, back: seq<User>)
    requires DistinctNames(users) && k < |users|
    ensures front == users[..k] && one == [users[k]] && back == users[k + 1..] && users == front + (one + back)
    ensures forall j :: 0 <= j < |front| ==> front[j].username != users[k].username
    ensures forall j :: 0 <= j < |back| ==> back[j].username != users[k].username
  {
    front, one, back := users[..k], [users[k]], users[k + 1..];
  }

  lemma DeleteRemoves(users: seq<User>, name: string, k: nat)
    requires DistinctNames(users) && k < |users| && users[k].username == name
    ensures Removes(users, Without(users, name), name)
  {
    var front, one, back := SplitAtOne(users, k);
    WithoutOne(front, one, back, name);
  }

  lemma DeleteRefusal(h: Hashing, s: Store, username: string, admin: string, e: AuthError)
    requires Sound(s.users)
    ensures Delete(s, username, admin) == Failure(e) <==> Refusal(h, s, DeleteOp(username, admin), e)
  {
    FoundIffNamed(s.users, username);
    FoundIffNamed(s.users, admin);
    AdminFoundIffNamed(s.users, admin);
    if IsAdminName(s.users, admin) {
      AdminIsFirst(s, admin);
    }
  }

  lemma DeleteEffect(h: Hashing, s: Store, username: string, admin: string)
    requires Sound(s.users)
    ensures forall e :: Delete(s, username, admin) == Failure(e) <==> Refusal(h, s, DeleteOp(username, admin), e)
    ensures Delete(s, username, admin).Success? ==> Effect(s, DeleteOp(username, admin), Delete(s, username, admin).value)
  {
    forall e
      ensures Delete(s, username, admin) == Failure(e) <==> Refusal(h, s, DeleteOp(username, admin), e)
    {
      DeleteRefusal(h, s, username, admin, e);
    }
    if Delete(s, username, admin).Success? {
      DeleteRemoves(s.users, username, FirstNamed(s.users, username));
    }
  }

  lemma UpgradeEffect(h: Hashing, s: Store, i: nat, hash: string)
    requires Sound(s.users)
    ensures var op := UpgradeOp(i, hash);
      && (forall e :: Outcomes(h, s, op) == Failure(e) <==> Refusal(h, s, op, e))
      && (Outcomes(h, s, op).Success? ==> Effect(s, op, Outcomes(h, s, op).value))
  {
    if i < |s.users| {
      assert FirstWithId(s.users, s.users[i].id) == i;
      UpdateTouches(s, i, s.users[i].(passwordHash := Some(hash)));
    }
  }

  /**
    On a sound store every mutator is refused for exactly the stated reasons; otherwise it changes
    exactly what is stated, of exactly the user it is about.
  */
  lemma MutatorEffect(h: Hashing, s: Store, op: Op)
    requires Sound(s.users)
    ensures forall e :: Outcomes(h, s, op) == Failure(e) <==> Refusal(h, s, op, e)
    ensures Outcomes(h, s, op).Success? ==> Effect(s, op, Outcomes(h, s, op).value)
    ensures Outcomes(h, s, op).Failure? ==> Accounts.Apply(h, s, op) == s
  {
    match op {
      case SetupOp(_, _, _, _, _, _) =>
      case InviteOp(username, id, code) => InviteEffect(h, s, username, id, code);
      case CompleteOp(username, code, fullName, email, password, hash) =>
        CompleteEffect(h, s, username, code, fullName, email, password, hash);
      case AdminResetOp(username, admin, code) => AdminResetEffect(h, s, username, admin, code);
      case RecoverOp(username, hash) => RecoverEffect(h, s, username, hash);
      case ChangeOp(username, current, password, hash) => ChangeEffect(h, s, username, current, password, hash);
      case ProfileOp(username, newName, newEmail) => ProfileEffect(h, s, username, newName, newEmail);
      case DeleteOp(username, admin) => DeleteEffect(h, s, username, admin);
      case LegacyOp(_) =>
      case UpgradeOp(i, hash) => UpgradeEffect(h, s, i, hash);
    }
  }
}
