/**
  The hash upgrade of a login (`check_password` of tinyagentos/auth.py) beside the mutators.  The
  password is checked against one reading of the store.  Then, under a lock of its own, which no
  mutator takes, the store is read again and written back with the new hash.  The mutators are
  serialised among themselves and change the store in one step each.
*/
module LoginUpgrades {
  import opened Wrappers
  import opened Accounts

  /** A new hash of the password that a login was checked with. */
  datatype Rehash = Rehash(id: string, hash: string)

  datatype World = World(
    store: Store,
    waiting: seq<Rehash>,     // logins checked, but not yet holding the lock
    held: Option<seq<User>>)  // what the login with the lock has read, with its new hash

  const START: World := World(EMPTY_STORE, [], None)

  datatype Step =
    | Mutate(op: Op)
    | Check(i: nat, hash: string)
    | Reread(k: nat)
    | WriteBack

  /** The list with the new hash, if the user is still there. */
  function Rehashed(users: seq<User>, r: Rehash): (done: seq<User>)
    ensures |done| == |users|
    ensures forall k :: 0 <= k < |users| ==> done[k] == users[k].(passwordHash := done[k].passwordHash)
  {
    var j := FirstWithId(users, r.id);
    if j == |users| then users else users[j := users[j].(passwordHash := Some(r.hash))]
  }

  predicate Enabled(w: World, s: Step) {
    match s
    case Mutate(op) => !op.UpgradeOp? && FreshId(w.store, op)
    case Check(i, _) => i < |w.store.users| && w.store.users[i].passwordHash.Some?
    case Reread(k) => w.held.None? && k < |w.waiting|
    case WriteBack => w.held.Some?
  }

  function Apply(h: Hashing, w: World, s: Step): World
    requires Enabled(w, s)
  {
    match s
    case Mutate(op) => w.(store := Accounts.Apply(h, w.store, op))
    case Check(i, hash) => w.(waiting := w.waiting + [Rehash(w.store.users[i].id, hash)])
    case Reread(k) =>
      w.(waiting := w.waiting[..k] + w.waiting[k + 1..], held := Some(Rehashed(w.store.users, w.waiting[k])))
    case WriteBack => w.(store := w.store.(users := w.held.value), held := None)
  }

  predicate Runnable(h: Hashing, w: World, steps: seq<Step>)
    decreases |steps|
  {
    steps == [] || (Enabled(w, steps[0]) && Runnable(h, Apply(h, w, steps[0]), steps[1..]))
  }

  function Run(h: Hashing, w: World, steps: seq<Step>): World
    requires Runnable(h, w, steps)
    decreases |steps|
  {
    if steps == [] then w else Run(h, Apply(h, w, steps[0]), steps[1..])
  }

  // ---- what no interleaving breaks -----------------------------------------------------------------

  /** A login has seen a user, and a copy held back has an admin exactly when the store has one. */
  predicate Steady(w: World) {
    && Sound(w.store.users)
    && (w.waiting != [] || w.held.Some? ==> w.store.users != [])
    && (w.held.Some? ==>
          w.held.value != [] && Sound(w.held.value) && (NoAdmin(w.held.value) <==> NoAdmin(w.store.users)))
  }

  lemma RehashedIsSound(users: seq<User>, r: Rehash)
    requires Sound(users)
    ensures Sound(Rehashed(users, r)) && (NoAdmin(Rehashed(users, r)) <==> NoAdmin(users))
  {
    var j := FirstWithId(users, r.id);
    if j < |users| {
      UpdateKeepsSound(Store(users, None), j, users[j].(passwordHash := Some(r.hash)));
    }
  }

  /** A mutator neither empties the list nor gives a list without an admin one. */
  lemma MutatorKeepsAdmin(h: Hashing, s: Store, op: Op)
    requires Sound(s.users) && FreshId(s, op) && s.users != []
    ensures var t := Accounts.Apply(h, s, op);
      Sound(t.users) && t.users != [] && (NoAdmin(t.users) <==> NoAdmin(s.users))
  {
    OpKeepsSound(h, s, op);
    if NoAdmin(s.users) {
      NoAdminStep(h, s, op);
    }
  }

  lemma StepKeepsSteady(h: Hashing, w: World, s: Step)
    requires Steady(w) && Enabled(w, s)
    ensures Steady(Apply(h, w, s))
    ensures OneAdminFirst(w.store.users) ==> OneAdminFirst(Apply(h, w, s).store.users)
  {
    match s {
      case Mutate(op) =>
        OpKeepsSound(h, w.store, op);
        if w.store.users != [] {
          MutatorKeepsAdmin(h, w.store, op);
        }
      case Check(_, _) =>
      case Reread(k) => RehashedIsSound(w.store.users, w.waiting[k]);
      case WriteBack =>
    }
  }

  lemma {:induction false} RunKeepsSteady(h: Hashing, w: World, steps: seq<Step>)
    requires Steady(w) && Runnable(h, w, steps)
    ensures Steady(Run(h, w, steps))
    ensures OneAdminFirst(w.store.users) ==> OneAdminFirst(Run(h, w, steps).store.users)
    decreases |steps|
  {
    if steps != [] {
      StepKeepsSteady(h, w, steps[0]);
      RunKeepsSteady(h, Apply(h, w, steps[0]), steps[1..]);
    }
  }

  /**
    Over every interleaving of mutators and logins from an empty store: names and ids are unique,
    each record has a password or an invite, and there is no admin or exactly one, first in the
    list and with a password.
  */
  lemma StoreStaysSound(h: Hashing, steps: seq<Step>)
    requires Runnable(h, START, steps)
    ensures Sound(Run(h, START, steps).store.users)
  {
    RunKeepsSteady(h, START, steps);
  }

  /** And once `setup_user` has succeeded, no later step of any interleaving undoes it. */
  lemma SetupIsForGood(h: Hashing, before: seq<Step>, setup: Op, after: seq<Step>)
    requires setup.SetupOp? && Runnable(h, START, before) && Enabled(Run(h, START, before), Mutate(setup))
    requires Outcomes(h, Run(h, START, before).store, setup).Success?
    requires Runnable(h, Apply(h, Run(h, START, before), Mutate(setup)), after)
    ensures var s := Run(h, Apply(h, Run(h, START, before), Mutate(setup)), after).store;
      && OneAdminFirst(s.users) && !NeedsOnboarding(s)
      && forall again: Op :: again.SetupOp? ==> Outcomes(h, s, again) == Failure(AlreadyConfigured)
  {
    RunKeepsSteady(h, START, before);
    var w := Run(h, START, before);
    StepKeepsSteady(h, w, Mutate(setup));
    RunKeepsSteady(h, Apply(h, w, Mutate(setup)), after);
  }

  // ---- what a write-back undoes -----------------------------------------------------------------------

  /** Steps that can be taken between a re-read and its write-back. */
  predicate Between(steps: seq<Step>) {
    forall k :: 0 <= k < |steps| ==> steps[k].Mutate? || steps[k].Check?
  }

  lemma {:induction false} HeldStays(h: Hashing, w: World, steps: seq<Step>)
    requires w.held.Some? && Runnable(h, w, steps)
    requires Between(steps)
    ensures Run(h, w, steps).held == w.held
    decreases |steps|
  {
    if steps != [] {
      assert steps[0].Mutate? || steps[0].Check?;
      assert forall k :: 0 <= k < |steps[1..]| ==> steps[1..][k] == steps[k + 1];
      HeldStays(h, Apply(h, w, steps[0]), steps[1..]);
    }
  }

  /** The upgrade of login `k` from its re-read on, with `steps` of others before it writes. */
  function Upgraded(h: Hashing, w: World, k: nat, steps: seq<Step>): (done: seq<User>)
    requires Enabled(w, Reread(k)) && Runnable(h, Apply(h, w, Reread(k)), steps) && Between(steps)
    ensures |done| == |w.store.users|
  {
    var mid := Run(h, Apply(h, w, Reread(k)), steps);
    HeldStays(h, Apply(h, w, Reread(k)), steps);
    Apply(h, mid, WriteBack).store.users
  }

  /** Whatever the mutators did in between, the list is the one that was re-read, with the new hash. */
  lemma WriteBackUndoes(h: Hashing, w: World, k: nat, steps: seq<Step>)
    requires Enabled(w, Reread(k)) && Runnable(h, Apply(h, w, Reread(k)), steps) && Between(steps)
    ensures Upgraded(h, w, k, steps) == Rehashed(w.store.users, w.waiting[k])
  {
    HeldStays(h, Apply(h, w, Reread(k)), steps);
  }

  /** The two lists differ at most in the password of the user with this id. */
  predicate AlikeBut(a: seq<User>, b: seq<User>, id: string) {
    && |a| == |b|
    && forall k :: 0 <= k < |a| ==>
         a[k] == b[k] || (a[k].id == id && a[k] == b[k].(passwordHash := a[k].passwordHash))
  }

  lemma {:induction false} FirstWithIdAlike(a: seq<User>, b: seq<User>, id: string)
    requires |a| == |b| && forall k :: 0 <= k < |a| ==> a[k].id == b[k].id
    ensures FirstWithId(a, id) == FirstWithId(b, id)
    decreases |a|
  {
    if a != [] {
      assert a[0].id == b[0].id;
      FirstWithIdAlike(a[1..], b[1..], id);
    }
  }

  lemma SameRehashedIff(a: seq<User>, b: seq<User>, r: Rehash)
    requires DistinctIds(a) && DistinctIds(b)
    ensures Rehashed(a, r) == Rehashed(b, r) <==> AlikeBut(a, b, r.id)
  {
    var ra, rb := Rehashed(a, r), Rehashed(b, r);
    if ra == rb {
      assert forall k :: 0 <= k < |a| ==> a[k].id == ra[k].id == b[k].id;
      FirstWithIdAlike(a, b, r.id);
      assert forall k :: 0 <= k < |a| && k != FirstWithId(a, r.id) ==> a[k] == ra[k] == b[k];
    }
    if AlikeBut(a, b, r.id) {
      FirstWithIdAlike(a, b, r.id);
      assert forall k :: 0 <= k < |a| && k != FirstWithId(a, r.id) ==> a[k] == b[k];
    }
  }

  /**
    The write-back leaves what an upgrade in one step would have left exactly when the list it
    overwrites differs from the one it has read at most in the password it replaces: every other
    change committed in between is lost.
  */
  lemma NothingIsLostIff(h: Hashing, w: World, k: nat, steps: seq<Step>)
    requires Steady(w)
    requires Enabled(w, Reread(k)) && Runnable(h, Apply(h, w, Reread(k)), steps) && Between(steps)
    ensures var found := Run(h, Apply(h, w, Reread(k)), steps).store.users;
      Upgraded(h, w, k, steps) == Rehashed(found, w.waiting[k]) <==> AlikeBut(w.store.users, found, w.waiting[k].id)
  {
    WriteBackUndoes(h, w, k, steps);
    StepKeepsSteady(h, w, Reread(k));
    RunKeepsSteady(h, Apply(h, w, Reread(k)), steps);
    SameRehashedIff(w.store.users, Run(h, Apply(h, w, Reread(k)), steps).store.users, w.waiting[k]);
  }

  lemma OneStep(h: Hashing, w: World, s: Step)
    requires Enabled(w, s)
    ensures Runnable(h, w, [s]) && Run(h, w, [s]) == Apply(h, w, s)
  {
    assert [s][1..] == [];
    assert Run(h, Apply(h, w, s), []) == Apply(h, w, s);
  }

  predicate HasUser(users: seq<User>, name: string) {
    exists k :: 0 <= k < |users| && users[k].username == name
  }

  lemma DeletedIsGone(h: Hashing, w: World, username: string, admin: string)
    requires Delete(w.store, username, admin).Success?
    ensures var delete := Mutate(DeleteOp(username, admin));
      Runnable(h, w, [delete]) && !HasUser(Run(h, w, [delete]).store.users, username)
  {
    var delete := Mutate(DeleteOp(username, admin));
    OneStep(h, w, delete);
    var left := Without(w.store.users, username);
    assert forall k :: 0 <= k < |left| ==> left[k] in left;
  }

  /** So a user deleted in between comes back. */
  lemma DeletedUserComesBack(h: Hashing, w: World, k: nat, username: string, admin: string)
    requires Enabled(w, Reread(k)) && Delete(w.store, username, admin).Success?
    ensures var delete := Mutate(DeleteOp(username, admin));
      && Runnable(h, Apply(h, w, Reread(k)), [delete])
      && !HasUser(Run(h, Apply(h, w, Reread(k)), [delete]).store.users, username)
      && HasUser(Upgraded(h, w, k, [delete]), username)
  {
    var delete := Mutate(DeleteOp(username, admin));
    DeletedIsGone(h, Apply(h, w, Reread(k)), username, admin);
    WriteBackUndoes(h, w, k, [delete]);
    var i := FirstNamed(w.store.users, username);
    assert Upgraded(h, w, k, [delete])[i].username == username;
  }

  // ---- what a late re-read undoes ------------------------------------------------------------------------

  /** However the password changed since the check, the user has the one of the check again. */
  lemma CheckedPasswordIsBack(h: Hashing, w: World, k: nat, steps: seq<Step>)
    requires Enabled(w, Reread(k)) && Runnable(h, Apply(h, w, Reread(k)), steps) && Between(steps)
    requires FirstWithId(w.store.users, w.waiting[k].id) < |w.store.users|
    ensures var i := FirstWithId(w.store.users, w.waiting[k].id);
      Upgraded(h, w, k, steps)[i] == w.store.users[i].(passwordHash := Some(w.waiting[k].hash))
  {
    WriteBackUndoes(h, w, k, steps);
  }

  /** Each record stays full or pending exactly when the user has not been made pending since the check. */
  lemma StaysFullOrPendingIff(h: Hashing, w: World, k: nat, steps: seq<Step>)
    requires Enabled(w, Reread(k)) && Runnable(h, Apply(h, w, Reread(k)), steps) && Between(steps)
    requires AllFullOrPending(w.store.users)
    ensures var i := FirstWithId(w.store.users, w.waiting[k].id);
      AllFullOrPending(Upgraded(h, w, k, steps)) <==> i == |w.store.users| || w.store.users[i].passwordHash.Some?
  {
    WriteBackUndoes(h, w, k, steps);
    var i, r := FirstWithId(w.store.users, w.waiting[k].id), w.waiting[k];
    if i < |w.store.users| {
      assert Rehashed(w.store.users, r)[i] == w.store.users[i].(passwordHash := Some(r.hash));
    }
  }

  /** The store after a login's check, an admin's reset of that user, and the rest of the login. */
  function AfterReset(h: Hashing, w: World, i: nat, hash: string, admin: string, code: string): World
    requires w.held.None? && Enabled(w, Check(i, hash))
  {
    var checked := Apply(h, w, Check(i, hash));
    var reset := Apply(h, checked, Mutate(AdminResetOp(w.store.users[i].username, admin, code)));
    Apply(h, Apply(h, reset, Reread(|w.waiting|)), WriteBack)
  }

  lemma RehashPending(users: seq<User>, i: nat, u: User, hash: string)
    requires DistinctIds(users) && i < |users| && u.id == users[i].id
    ensures Rehashed(users[i := u], Rehash(users[i].id, hash))[i] == u.(passwordHash := Some(hash))
  {
    FirstWithIdAlike(users, users[i := u], users[i].id);
    assert FirstWithId(users, users[i].id) == i;
  }

  lemma ResetIs(s: Store, i: nat, admin: string, code: string)
    requires DistinctNames(s.users) && i < |s.users| && AdminReset(s, s.users[i].username, admin, code).Success?
    ensures AdminReset(s, s.users[i].username, admin, code).value.users
         == s.users[i := s.users[i].(passwordHash := None, pendingInvite := Some(code))]
  {
    assert FirstNamed(s.users, s.users[i].username) == i;
  }

  /** A reset that falls between them does not lock the user out: the checked password works on, beside the new invite. */
  lemma ResetIsUndone(h: Hashing, w: World, i: nat, hash: string, admin: string, code: string)
    requires Sound(w.store.users) && w.held.None? && Enabled(w, Check(i, hash))
    requires AdminReset(w.store, w.store.users[i].username, admin, code).Success?
    ensures var user := AfterReset(h, w, i, hash, admin, code).store.users[i];
      user.passwordHash == Some(hash) && user.pendingInvite == Some(code)
  {
    ResetIs(w.store, i, admin, code);
    RehashPending(w.store.users, i, w.store.users[i].(passwordHash := None, pendingInvite := Some(code)), hash);
  }
}
