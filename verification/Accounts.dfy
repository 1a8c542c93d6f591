/**
  The account store of `AuthManager` (tinyagentos/auth.py): what each mutator does to the
  list of users and to the legacy password file, and what every sequence of them keeps.

  Random ids, invite codes and password hashes are drawn by the caller and passed in.
*/
module Accounts {
  import opened Wrappers

  datatype User = User(
    id: string,
    username: string,
    isAdmin: bool,
    passwordHash: Option<string>,
    pendingInvite: Option<string>,
    fullName: Option<string>,
    email: Option<string>)

  datatype Store = Store(users: seq<User>, legacyHash: Option<string>)

  const EMPTY_STORE: Store := Store([], None)

  datatype AuthError =
    | AlreadyConfigured
    | MissingUsername
    | PasswordTooShort
    | UsernameTaken
    | InvalidInvite
    | NotAdmin
    | OwnAccount
    | Malformed
    | NotFound
    | Ambiguous
    | WrongPassword
    | LastAdmin

  type Outcome = Result<Store, AuthError>

  const MIN_PASSWORD := 8

  // ---- passwords ---------------------------------------------------------------------------

  /** The two hash functions, as black boxes. */
  datatype Hashing = Hashing(argon2Verifies: (string, string) -> bool, sha256Hex: string -> string)

  const ARGON2_PREFIX := "$argon2"

  /** Where the first colon of `s` is, or its length. */
  function FirstColon(s: string): (n: nat)
    ensures n <= |s|
    ensures forall k :: 0 <= k < n ==> s[k] != ':'
    ensures n < |s| ==> s[n] == ':'
  {
    if s == "" || s[0] == ':' then 0 else 1 + FirstColon(s[1..])
  }

  predicate VerifyPassword(h: Hashing, password: string, stored: string) {
    if ARGON2_PREFIX <= stored then h.argon2Verifies(stored, password)
    else
      var n := FirstColon(stored);
      n < |stored| && stored[..n] + ":" + h.sha256Hex(stored[..n] + ":" + password) == stored
  }

  // ---- lookups -------------------------------------------------------------------------------

  /** The position of the first user of that name, or the number of users. */
  function FirstNamed(users: seq<User>, name: string): (i: nat)
    ensures i <= |users|
    ensures i < |users| ==> users[i].username == name
    ensures forall k :: 0 <= k < i ==> users[k].username != name
  {
    if users == [] || users[0].username == name then 0 else 1 + FirstNamed(users[1..], name)
  }

  function FirstInvited(users: seq<User>, name: string, code: string): (i: nat)
    ensures i <= |users|
    ensures i < |users| ==> users[i].username == name && users[i].pendingInvite == Some(code)
    ensures forall k :: 0 <= k < i ==> !(users[k].username == name && users[k].pendingInvite == Some(code))
  {
    if users == [] || (users[0].username == name && users[0].pendingInvite == Some(code)) then 0
    else 1 + FirstInvited(users[1..], name, code)
  }

  function FirstWithId(users: seq<User>, id: string): (i: nat)
    ensures i <= |users|
    ensures i < |users| ==> users[i].id == id
    ensures forall k :: 0 <= k < i ==> users[k].id != id
  {
    if users == [] || users[0].id == id then 0 else 1 + FirstWithId(users[1..], id)
  }

  predicate IsAdminName(users: seq<User>, name: string) {
    var i := FirstNamed(users, name);
    i < |users| && users[i].isAdmin
  }

  function Without(users: seq<User>, name: string): (r: seq<User>)
    ensures forall u :: u in r <==> u in users && u.username != name
  {
    if users == [] then []
    else if users[0].username == name then Without(users[1..], name)
    else [users[0]] + Without(users[1..], name)
  }

  predicate NeedsOnboarding(s: Store) {
    s.users == [] && s.legacyHash.None?
  }

  // ---- the mutators ----------------------------------------------------------------------------

  function Setup(s: Store, username: string, fullName: string, email: string, password: string,
                 id: string, hash: string): Outcome
  {
    if s.users != [] then Failure(AlreadyConfigured)
    else if username == "" then Failure(MissingUsername)
    else if |password| < MIN_PASSWORD then Failure(PasswordTooShort)
    else Success(s.(users := [User(id, username, true, Some(hash), None, Some(fullName), Some(email))]))
  }

  function Invite(s: Store, username: string, id: string, code: string): Outcome {
    if username == "" then Failure(MissingUsername)
    else if FirstNamed(s.users, username) < |s.users| then Failure(UsernameTaken)
    else Success(s.(users := s.users + [User(id, username, false, None, Some(code), None, None)]))
  }

  function Complete(s: Store, username: string, code: string, fullName: string, email: string,
                    password: string, hash: string): Outcome
  {
    if |password| < MIN_PASSWORD then Failure(PasswordTooShort) else
      var i := FirstInvited(s.users, username, code);
      if i == |s.users| then Failure(InvalidInvite)
      else
        var u := s.users[i].(pendingInvite := None, passwordHash := Some(hash),
                             fullName := Some(fullName), email := Some(email));
        Success(s.(users := s.users[i := u]))
  }

  function AdminReset(s: Store, username: string, admin: string, code: string): Outcome {
    if !IsAdminName(s.users, admin) then Failure(NotAdmin)
    else if username == admin then Failure(OwnAccount) else
      var i := FirstNamed(s.users, username);
      if i == |s.users| then Failure(NotFound)
      else if s.users[i].passwordHash.None? && s.users[i].pendingInvite.None? then Failure(Malformed)
      else Success(s.(users := s.users[i := s.users[i].(passwordHash := None, pendingInvite := Some(code))]))
  }

  /** The user `recover_password` is about; there is none in a legacy store. */
  function RecoverTarget(users: seq<User>, username: string): Result<nat, AuthError> {
    if username != "" then
      var i := FirstNamed(users, username);
      if i == |users| then Failure(NotFound) else Success(i)
    else if |users| == 1 then Success(0)
    else Failure(Ambiguous)
  }

  function Recover(s: Store, username: string, hash: string): Outcome {
    if s.users == [] then Success(s.(legacyHash := Some(hash))) else
      match RecoverTarget(s.users, username)
      case Failure(e) => Failure(e)
      case Success(i) =>
        if i < |s.users|
        then Success(s.(users := s.users[i := s.users[i].(passwordHash := Some(hash), pendingInvite := None)]))
        else Failure(NotFound)
  }

  function ChangePassword(h: Hashing, s: Store, username: string, current: string, password: string, hash: string): Outcome {
    if |password| < MIN_PASSWORD then Failure(PasswordTooShort) else
      var i := FirstNamed(s.users, username);
      if i == |s.users| then Failure(NotFound)
      else
        var stored := if s.users[i].passwordHash.Some? then s.users[i].passwordHash.value else "";
        if !VerifyPassword(h, current, stored) then Failure(WrongPassword)
        else Success(s.(users := s.users[i := s.users[i].(passwordHash := Some(hash))]))
  }

  function UpdateProfile(s: Store, username: string, fullName: Option<string>, email: Option<string>): Outcome {
    var i := FirstNamed(s.users, username);
    if i == |s.users| then Failure(NotFound) else
      var u := s.users[i];
      var named := if fullName.Some? then u.(fullName := fullName) else u;
      Success(s.(users := s.users[i := if email.Some? then named.(email := email) else named]))
  }

  predicate OtherAdmin(users: seq<User>, name: string) {
    exists k :: 0 <= k < |users| && users[k].isAdmin && users[k].username != name
  }

  function Delete(s: Store, username: string, admin: string): Outcome {
    if !IsAdminName(s.users, admin) then Failure(NotAdmin)
    else if username == admin then Failure(OwnAccount) else
      var i := FirstNamed(s.users, username);
      if i == |s.users| then Failure(NotFound)
      else if s.users[i].isAdmin && !OtherAdmin(s.users, username) then Failure(LastAdmin)
      else Success(s.(users := Without(s.users, username)))
  }

  /** The hash upgrade of `check_password`, after user number `i` has logged in. */
  function Upgrade(s: Store, i: nat, hash: string): Outcome {
    if i < |s.users| && s.users[i].passwordHash.Some? then
      var j := FirstWithId(s.users, s.users[i].id);
      Success(s.(users := s.users[j := s.users[j].(passwordHash := Some(hash))]))
    else Failure(NotFound)
  }

  datatype Op =
    | SetupOp(username: string, fullName: string, email: string, password: string, id: string, hash: string)
    | InviteOp(username: string, id: string, code: string)
    | CompleteOp(username: string, code: string, fullName: string, email: string, password: string, hash: string)
    | AdminResetOp(username: string, admin: string, code: string)
    | RecoverOp(username: string, hash: string)
    | ChangeOp(username: string, current: string, password: string, hash: string)
    | ProfileOp(username: string, newName: Option<string>, newEmail: Option<string>)
    | DeleteOp(username: string, admin: string)
    | LegacyOp(hash: string)
    | UpgradeOp(i: nat, hash: string)

  function Outcomes(h: Hashing, s: Store, op: Op): Outcome {
    match op
    case SetupOp(username, fullName, email, password, id, hash) =>
      Setup(s, username, fullName, email, password, id, hash)
    case InviteOp(username, id, code) => Invite(s, username, id, code)
    case CompleteOp(username, code, fullName, email, password, hash) =>
      Complete(s, username, code, fullName, email, password, hash)
    case AdminResetOp(username, admin, code) => AdminReset(s, username, admin, code)
    case RecoverOp(username, hash) => Recover(s, username, hash)
    case ChangeOp(username, current, password, hash) => ChangePassword(h, s, username, current, password, hash)
    case ProfileOp(username, newName, newEmail) => UpdateProfile(s, username, newName, newEmail)
    case DeleteOp(username, admin) => Delete(s, username, admin)
    case LegacyOp(hash) => Success(s.(legacyHash := Some(hash)))
    case UpgradeOp(i, hash) => Upgrade(s, i, hash)
  }

  /** A refused call leaves the store as it was. */
  function Apply(h: Hashing, s: Store, op: Op): Store {
    match Outcomes(h, s, op)
    case Success(s') => s'
    case Failure(_) => s
  }

  // ---- the invariant -----------------------------------------------------------------------------

  predicate DistinctNames(users: seq<User>) {
    forall i, j :: 0 <= i < j < |users| ==> users[i].username != users[j].username
  }

  predicate DistinctIds(users: seq<User>) {
    forall i, j :: 0 <= i < j < |users| ==> users[i].id != users[j].id
  }

  /** Either a full account or a pending invite, never both and never neither. */
  predicate FullOrPending(u: User) {
    u.passwordHash.Some? != u.pendingInvite.Some?
  }

  predicate NoAdmin(users: seq<User>) {
    forall i :: 0 <= i < |users| ==> !users[i].isAdmin
  }

  /** Exactly one admin, first in the list, with a password. */
  predicate OneAdminFirst(users: seq<User>) {
    && users != [] && users[0].isAdmin && users[0].passwordHash.Some?
    && forall i :: 1 <= i < |users| ==> !users[i].isAdmin
  }

  predicate Enrolled(u: User) {
    u.passwordHash.Some? || u.pendingInvite.Some?
  }

  /** What holds of the list even when the hash upgrade of a login runs beside the mutators. */
  predicate Sound(users: seq<User>) {
    && DistinctNames(users) && DistinctIds(users)
    && (forall i :: 0 <= i < |users| ==> Enrolled(users[i]))
    && (NoAdmin(users) || OneAdminFirst(users))
  }

  predicate AllFullOrPending(users: seq<User>) {
    forall i :: 0 <= i < |users| ==> FullOrPending(users[i])
  }

  predicate Inv(s: Store) {
    Sound(s.users) && AllFullOrPending(s.users)
  }

  /** Ids are random: a new one is not in the store. */
  predicate FreshId(s: Store, op: Op) {
    op.SetupOp? || op.InviteOp? ==> FirstWithId(s.users, op.id) == |s.users|
  }

  lemma UpdateKeepsSound(s: Store, i: nat, u: User)
    requires Sound(s.users) && i < |s.users| && Enrolled(u)
    requires u.id == s.users[i].id && u.username == s.users[i].username && u.isAdmin == s.users[i].isAdmin
    requires u.isAdmin ==> u.passwordHash.Some?
    ensures Sound(s.users[i := u])
    ensures OneAdminFirst(s.users) ==> OneAdminFirst(s.users[i := u])
  {
  }

  /** The one admin of the store is the user `IsAdminName` finds. */
  lemma AdminIsFirst(s: Store, name: string)
    requires Sound(s.users) && IsAdminName(s.users, name)
    ensures OneAdminFirst(s.users) && s.users[0].username == name
  {
  }

  lemma UnlikeFirst(users: seq<User>, u: User)
    requires DistinctNames(users) && DistinctIds(users) && users != [] && u in users[1..]
    ensures u.username != users[0].username && u.id != users[0].id
  {
    var j :| 0 <= j < |users[1..]| && users[1..][j] == u;
    assert users[j + 1] == u;
  }

  lemma DistinctInFront(u: User, rest: seq<User>)
    requires DistinctNames(rest) && DistinctIds(rest)
    requires forall k :: 0 <= k < |rest| ==> rest[k].username != u.username && rest[k].id != u.id
    ensures DistinctNames([u] + rest) && DistinctIds([u] + rest)
  {
    var all := [u] + rest;
    forall i, j | 0 <= i < j < |all|
      ensures all[i].username != all[j].username && all[i].id != all[j].id
    {
      assert all[j] == rest[j - 1];
      assert i > 0 ==> all[i] == rest[i - 1];
    }
  }

  lemma UnlikeRest(users: seq<User>, name: string, k: nat)
    requires DistinctNames(users) && DistinctIds(users) && users != []
    requires k < |Without(users[1..], name)|
    ensures var u := Without(users[1..], name)[k];
      u.username != users[0].username && u.id != users[0].id
  {
    var u := Without(users[1..], name)[k];
    assert u in Without(users[1..], name);
    UnlikeFirst(users, u);
  }

  lemma {:induction false} WithoutKeeps(users: seq<User>, name: string)
    requires DistinctNames(users) && DistinctIds(users)
    ensures DistinctNames(Without(users, name)) && DistinctIds(Without(users, name))
    ensures users != [] && users[0].username != name ==> Without(users, name) != [] && Without(users, name)[0] == users[0]
  {
    if users != [] {
      WithoutKeeps(users[1..], name);
      if users[0].username != name {
        var rest := Without(users[1..], name);
        forall k | 0 <= k < |rest|
          ensures rest[k].username != users[0].username && rest[k].id != users[0].id
        {
          UnlikeRest(users, name, k);
        }
        DistinctInFront(users[0], rest);
      }
    }
  }

  lemma DeleteKeepsSound(s: Store, username: string, admin: string)
    requires Sound(s.users) && Delete(s, username, admin).Success?
    ensures var s' := Delete(s, username, admin).value;
      Sound(s'.users) && OneAdminFirst(s.users) && OneAdminFirst(s'.users)
  {
    AdminIsFirst(s, admin);
    WithoutKeeps(s.users, username);
    var left := Without(s.users, username);
    forall k | 1 <= k < |left|
      ensures !left[k].isAdmin
    {
      assert left[k] in s.users;
      assert left[k].username != left[0].username;
    }
    forall k | 0 <= k < |left|
      ensures Enrolled(left[k])
    {
      assert left[k] in s.users;
    }
  }

  /** `t` is as sound as `s`, with its admin still in place and the first run still over. */
  predicate Kept(s: Store, t: Store) {
    && Sound(t.users)
    && (OneAdminFirst(s.users) ==> OneAdminFirst(t.users))
    && (!NeedsOnboarding(s) ==> !NeedsOnboarding(t))
  }

  lemma UpdateKeeps(s: Store, i: nat, u: User)
    requires Sound(s.users) && i < |s.users| && Enrolled(u)
    requires u.id == s.users[i].id && u.username == s.users[i].username && u.isAdmin == s.users[i].isAdmin
    requires u.isAdmin ==> u.passwordHash.Some?
    ensures Kept(s, s.(users := s.users[i := u]))
  {
    UpdateKeepsSound(s, i, u);
    assert s.users[i := u] != [];
  }

  lemma InviteKeeps(s: Store, username: string, id: string, code: string)
    requires Sound(s.users) && FirstWithId(s.users, id) == |s.users| && Invite(s, username, id, code).Success?
    ensures Kept(s, Invite(s, username, id, code).value)
  {
    assert forall k :: 0 <= k < |s.users| ==> s.users[k].username != username && s.users[k].id != id;
  }

  lemma CompleteKeeps(s: Store, username: string, code: string, fullName: string, email: string,
                      password: string, hash: string)
    requires Sound(s.users) && Complete(s, username, code, fullName, email, password, hash).Success?
    ensures Kept(s, Complete(s, username, code, fullName, email, password, hash).value)
  {
    var i := FirstInvited(s.users, username, code);
    UpdateKeeps(s, i, s.users[i].(pendingInvite := None, passwordHash := Some(hash),
                                  fullName := Some(fullName), email := Some(email)));
  }

  lemma AdminResetKeeps(s: Store, username: string, admin: string, code: string)
    requires Sound(s.users) && AdminReset(s, username, admin, code).Success?
    ensures Kept(s, AdminReset(s, username, admin, code).value)
  {
    AdminIsFirst(s, admin);
    var i := FirstNamed(s.users, username);
    UpdateKeeps(s, i, s.users[i].(passwordHash := None, pendingInvite := Some(code)));
  }

  lemma RecoverKeeps(s: Store, username: string, hash: string)
    requires Sound(s.users) && Recover(s, username, hash).Success?
    ensures Kept(s, Recover(s, username, hash).value)
  {
    if s.users != [] {
      var i := RecoverTarget(s.users, username).value;
      UpdateKeeps(s, i, s.users[i].(passwordHash := Some(hash), pendingInvite := None));
    }
  }

  lemma ChangeKeeps(h: Hashing, s: Store, username: string, current: string, password: string, hash: string)
    requires Sound(s.users) && ChangePassword(h, s, username, current, password, hash).Success?
    ensures Kept(s, ChangePassword(h, s, username, current, password, hash).value)
  {
    var i := FirstNamed(s.users, username);
    EmptyNeverVerifies(h, current);
    UpdateKeeps(s, i, s.users[i].(passwordHash := Some(hash)));
  }

  lemma EmptyNeverVerifies(h: Hashing, password: string)
    ensures !VerifyPassword(h, password, "")
  {
  }

  lemma ProfileKeeps(s: Store, username: string, newName: Option<string>, newEmail: Option<string>)
    requires Sound(s.users) && UpdateProfile(s, username, newName, newEmail).Success?
    ensures Kept(s, UpdateProfile(s, username, newName, newEmail).value)
  {
    var i := FirstNamed(s.users, username);
    UpdateKeeps(s, i, UpdateProfile(s, username, newName, newEmail).value.users[i]);
  }

  lemma UpgradeKeeps(s: Store, i: nat, hash: string)
    requires Sound(s.users) && Upgrade(s, i, hash).Success?
    ensures Kept(s, Upgrade(s, i, hash).value)
  {
    assert FirstWithId(s.users, s.users[i].id) == i;
    UpdateKeeps(s, i, s.users[i].(passwordHash := Some(hash)));
  }

  /** Every mutator keeps the list sound, and none undoes the first-run setup. */
  lemma OpKeepsSound(h: Hashing, s: Store, op: Op)
    requires Sound(s.users) && FreshId(s, op)
    ensures Kept(s, Apply(h, s, op))
  {
    if Outcomes(h, s, op).Success? {
      match op {
        case SetupOp(_, _, _, _, _, _) =>
        case InviteOp(username, id, code) => InviteKeeps(s, username, id, code);
        case CompleteOp(username, code, fullName, email, password, hash) =>
          CompleteKeeps(s, username, code, fullName, email, password, hash);
        case AdminResetOp(username, admin, code) => AdminResetKeeps(s, username, admin, code);
        case RecoverOp(username, hash) => RecoverKeeps(s, username, hash);
        case ChangeOp(username, current, password, hash) => ChangeKeeps(h, s, username, current, password, hash);
        case ProfileOp(username, newName, newEmail) => ProfileKeeps(s, username, newName, newEmail);
        case DeleteOp(username, admin) => DeleteKeepsSound(s, username, admin);
        case LegacyOp(_) =>
        case UpgradeOp(i, hash) => UpgradeKeeps(s, i, hash);
      }
    }
  }

  lemma WithoutStaysFullOrPending(users: seq<User>, name: string)
    requires AllFullOrPending(users)
    ensures AllFullOrPending(Without(users, name))
  {
    var left := Without(users, name);
    forall k | 0 <= k < |left|
      ensures FullOrPending(left[k])
    {
      assert left[k] in users;
    }
  }

  lemma PasswordOpStaysFullOrPending(h: Hashing, s: Store, op: Op)
    requires Inv(s) && (op.ChangeOp? || op.UpgradeOp?) && Outcomes(h, s, op).Success?
    ensures AllFullOrPending(Apply(h, s, op).users)
  {
    if op.ChangeOp? {
      EmptyNeverVerifies(h, op.current);
    } else {
      assert FirstWithId(s.users, s.users[op.i].id) == op.i;
    }
  }

  lemma OtherOpStaysFullOrPending(h: Hashing, s: Store, op: Op)
    requires AllFullOrPending(s.users) && !op.ChangeOp? && !op.UpgradeOp? && !op.DeleteOp?
    ensures AllFullOrPending(Apply(h, s, op).users)
  {
  }

  lemma OpStaysFullOrPending(h: Hashing, s: Store, op: Op)
    requires Inv(s)
    ensures AllFullOrPending(Apply(h, s, op).users)
  {
    if op.DeleteOp? {
      WithoutStaysFullOrPending(s.users, op.username);
    } else if op.ChangeOp? || op.UpgradeOp? {
      if Outcomes(h, s, op).Success? {
        PasswordOpStaysFullOrPending(h, s, op);
      }
    } else {
      OtherOpStaysFullOrPending(h, s, op);
    }
  }

  /** Every mutator keeps the full invariant as well. */
  lemma OpKeepsInv(h: Hashing, s: Store, op: Op)
    requires Inv(s) && FreshId(s, op)
    ensures Inv(Apply(h, s, op)) && Kept(s, Apply(h, s, op))
  {
    OpKeepsSound(h, s, op);
    OpStaysFullOrPending(h, s, op);
  }

  // ---- runs -----------------------------------------------------------------------------------------

  function Run(h: Hashing, s: Store, ops: seq<Op>): Store
    decreases |ops|
  {
    if ops == [] then s else Run(h, Apply(h, s, ops[0]), ops[1..])
  }

  predicate FreshIds(h: Hashing, s: Store, ops: seq<Op>)
    decreases |ops|
  {
    ops == [] || (FreshId(s, ops[0]) && FreshIds(h, Apply(h, s, ops[0]), ops[1..]))
  }

  lemma {:induction false} RunKeepsInv(h: Hashing, s: Store, ops: seq<Op>)
    requires Inv(s) && FreshIds(h, s, ops)
    ensures Inv(Run(h, s, ops))
    ensures OneAdminFirst(s.users) ==> OneAdminFirst(Run(h, s, ops).users)
    ensures !NeedsOnboarding(s) ==> !NeedsOnboarding(Run(h, s, ops))
    decreases |ops|
  {
    if ops != [] {
      OpKeepsInv(h, s, ops[0]);
      RunKeepsInv(h, Apply(h, s, ops[0]), ops[1..]);
    }
  }

  function Admins(users: seq<User>): set<string> {
    set i | 0 <= i < |users| && users[i].isAdmin :: users[i].username
  }

  /**
    Over every run from an empty store names and ids stay unique, each record is full or pending,
    and there is no admin or exactly one, first in the list and holding a password.
  */
  lemma StoreStaysConsistent(h: Hashing, ops: seq<Op>)
    requires FreshIds(h, EMPTY_STORE, ops)
    ensures var s := Run(h, EMPTY_STORE, ops);
      && DistinctNames(s.users) && DistinctIds(s.users)
      && (forall i :: 0 <= i < |s.users| ==> FullOrPending(s.users[i]))
      && |Admins(s.users)| <= 1
      && (Admins(s.users) != {} ==> OneAdminFirst(s.users) && Admins(s.users) == {s.users[0].username})
  {
    RunKeepsInv(h, EMPTY_STORE, ops);
    var s := Run(h, EMPTY_STORE, ops);
    if OneAdminFirst(s.users) {
      assert Admins(s.users) == {s.users[0].username};
    } else {
      assert Admins(s.users) == {};
    }
  }

  /**
    Once `setup_user` has succeeded there is, for good, exactly one admin, first in the list
    and able to log in; onboarding is never offered again and setup never succeeds again.
  */
  lemma SetupIsForGood(h: Hashing, before: seq<Op>, setup: Op, after: seq<Op>)
    requires FreshIds(h, EMPTY_STORE, before + [setup] + after) && setup.SetupOp?
    requires Outcomes(h, Run(h, EMPTY_STORE, before), setup).Success?
    ensures var s := Run(h, EMPTY_STORE, before + [setup] + after);
      && OneAdminFirst(s.users) && Admins(s.users) == {s.users[0].username}
      && !NeedsOnboarding(s)
      && (forall again: Op :: again.SetupOp? ==> Outcomes(h, s, again) == Failure(AlreadyConfigured))
  {
    assert before + [setup] + after == before + ([setup] + after);
    RunSplits(h, EMPTY_STORE, before, [setup] + after);
    RunKeepsInv(h, EMPTY_STORE, before);
    var s1 := Run(h, EMPTY_STORE, before);
    assert ([setup] + after)[1..] == after;
    OpKeepsInv(h, s1, setup);
    RunKeepsInv(h, Apply(h, s1, setup), after);
  }

  lemma {:induction false} RunSplits(h: Hashing, s: Store, a: seq<Op>, b: seq<Op>)
    requires FreshIds(h, s, a + b)
    ensures FreshIds(h, s, a) && FreshIds(h, Run(h, s, a), b)
    ensures Run(h, s, a + b) == Run(h, Run(h, s, a), b)
    decreases |a|
  {
    if a == [] {
      assert a + b == b;
    } else {
      assert (a + b)[1..] == a[1..] + b;
      RunSplits(h, Apply(h, s, a[0]), a[1..], b);
    }
  }

  /** A pending user has no password to change; only the invite code lets them in. */
  lemma PendingCannotChangePassword(h: Hashing, s: Store, username: string, current: string, password: string, hash: string)
    requires FirstNamed(s.users, username) < |s.users|
    requires s.users[FirstNamed(s.users, username)].passwordHash.None?
    ensures ChangePassword(h, s, username, current, password, hash).Failure?
  {
    assert FirstColon("") == 0;
  }

  /** Once there are users and none of them is an admin, no run ever has an admin. */
  lemma {:induction false} NoAdminForGood(h: Hashing, s: Store, ops: seq<Op>)
    requires Inv(s) && FreshIds(h, s, ops) && s.users != [] && NoAdmin(s.users)
    ensures Run(h, s, ops).users != [] && NoAdmin(Run(h, s, ops).users)
    decreases |ops|
  {
    if ops != [] {
      OpKeepsInv(h, s, ops[0]);
      NoAdminStep(h, s, ops[0]);
      NoAdminForGood(h, Apply(h, s, ops[0]), ops[1..]);
    }
  }

  lemma FirstInvite(h: Hashing, username: string, id: string, code: string) returns (s: Store)
    requires username != ""
    ensures Invite(EMPTY_STORE, username, id, code).Success?
    ensures s == Apply(h, EMPTY_STORE, InviteOp(username, id, code))
    ensures Inv(s) && s.users != [] && NoAdmin(s.users)
  {
    s := Apply(h, EMPTY_STORE, InviteOp(username, id, code));
    assert s.users == [User(id, username, false, None, Some(code), None, None)];
  }

  /** An invite on the empty store is accepted, and from then on setup is refused and no run has an admin. */
  lemma InviteBeforeSetupLocksOut(h: Hashing, username: string, id: string, code: string, ops: seq<Op>)
    requires username != "" && FreshIds(h, EMPTY_STORE, [InviteOp(username, id, code)] + ops)
    ensures Invite(EMPTY_STORE, username, id, code).Success?
    ensures var s := Run(h, EMPTY_STORE, [InviteOp(username, id, code)] + ops);
      && s.users != [] && NoAdmin(s.users)
      && forall setup: Op :: setup.SetupOp? ==> Outcomes(h, s, setup) == Failure(AlreadyConfigured)
  {
    var invite := InviteOp(username, id, code);
    assert ([invite] + ops)[1..] == ops;
    var s := FirstInvite(h, username, id, code);
    NoAdminForGood(h, s, ops);
  }

  /** The run ends with an admin. */
  predicate EndsWithAdmin(h: Hashing, s: Store, ops: seq<Op>) {
    FreshIds(h, s, ops) && !NoAdmin(Run(h, s, ops).users)
  }

  lemma SetupOnEmpty(h: Hashing, s: Store) returns (ops: seq<Op>)
    requires s.users == []
    ensures EndsWithAdmin(h, s, ops)
  {
    var setup := SetupOp("admin", "", "", "password", "id", "hash");
    ops := [setup];
    assert ops[1..] == [];
    assert Apply(h, s, setup).users[0].isAdmin;
  }

  /** From a consistent store some run has an admin exactly when there is no user at all, or an admin already. */
  lemma AdminCanAppearIff(h: Hashing, s: Store)
    requires Inv(s)
    ensures (exists ops :: EndsWithAdmin(h, s, ops)) <==> s.users == [] || OneAdminFirst(s.users)
  {
    if s.users == [] {
      var ops := SetupOnEmpty(h, s);
    } else if OneAdminFirst(s.users) {
      assert EndsWithAdmin(h, s, []);
    } else {
      forall ops
        ensures !EndsWithAdmin(h, s, ops)
      {
        if FreshIds(h, s, ops) {
          NoAdminForGood(h, s, ops);
        }
      }
    }
  }

  /** Nobody may delete or reset anybody. */
  lemma NoAdminRefuses(h: Hashing, s: Store, op: Op)
    requires NoAdmin(s.users) && (op.DeleteOp? || op.AdminResetOp?)
    ensures Apply(h, s, op) == s
  {
    NoAdminNamed(s.users, op.admin);
  }

  lemma NoAdminNamed(users: seq<User>, name: string)
    requires NoAdmin(users)
    ensures !IsAdminName(users, name)
  {
    var i := FirstNamed(users, name);
    assert i < |users| ==> !users[i].isAdmin;
  }

  lemma NoAdminStep(h: Hashing, s: Store, op: Op)
    requires Sound(s.users) && s.users != [] && NoAdmin(s.users)
    ensures Apply(h, s, op).users != [] && NoAdmin(Apply(h, s, op).users)
  {
    if op.DeleteOp? || op.AdminResetOp? {
      NoAdminRefuses(h, s, op);
    }
  }
}
