/**
  `revoke_user_sessions` and the late delete of `validate_session` (tinyagentos/auth.py) among
  other threads.  Each read-modify-write of the session file holds the lock; between listing a
  user's tokens and dropping them one by one, and between finding an entry expired and deleting
  it, anything may happen.
*/
module SessionRaces {
  import opened Wrappers
  import opened Sessions

  // ---- one token at a time -------------------------------------------------------------------------

  /** What an operation makes of one token's entry in the log. */
  function EntryAfter(entry: Option<Entry>, op: Op, token: Token): Option<Entry> {
    match op
    case Create(t, e) => if t == token then Some(e) else entry
    case Revoke(t) => if t == token then None else entry
    case RevokeUser(user) => if entry.Some? && UserOf(entry.value) == user then None else entry
    case Check(_) => entry
    case Startup => entry
  }

  lemma LogIsPointwise(log: Entries, op: Op, token: Token)
    ensures Lookup(LogAfter(log, op), token) == EntryAfter(Lookup(log, token), op, token)
  {
  }

  /** Both entries are the same, or neither answers for its token any more. */
  predicate Alike(a: Option<Entry>, b: Option<Entry>, now: Time) {
    a == b || ((a.Some? ==> now >= a.value.expiresAt) && (b.Some? ==> now >= b.value.expiresAt))
  }

  predicate RevokedIn(es: seq<Event>, token: Token) {
    exists k :: 0 <= k < |es| && es[k].op == Revoke(token)
  }

  /** Two logs that the same events happen to agree on every token they agreed on, and on every token revoked since. */
  lemma {:induction false} TokenConverges(s: State, t: State, es: seq<Event>, token: Token)
    requires s.now == t.now && ClockRuns(s.now, es)
    requires Alike(Lookup(s.log, token), Lookup(t.log, token), s.now) || RevokedIn(es, token)
    ensures Run(s, es).now == Run(t, es).now
    ensures Alike(Lookup(Run(s, es).log, token), Lookup(Run(t, es).log, token), Run(s, es).now)
    decreases |es|
  {
    if es != [] {
      var e := es[0];
      LogIsPointwise(s.log, e.op, token);
      LogIsPointwise(t.log, e.op, token);
      if RevokedIn(es, token) && e.op != Revoke(token) {
        var k :| 0 <= k < |es| && es[k].op == Revoke(token);
        assert es[1..][k - 1] == es[k];
      }
      TokenConverges(Apply(s, e), Apply(t, e), es[1..], token);
    }
  }

  // ---- dropping a user's sessions one by one -----------------------------------------------------------

  /** The call has listed the user's tokens at `listed` and drops each of them during `es`. */
  predicate Drops(s: State, user: string, listed: Time, es: seq<Event>) {
    s.now <= listed && ClockRuns(listed, es)
    && forall token :: token in TokensOf(Prune(s.file, listed), user) ==> RevokedIn(es, token)
  }

  /** The same events after all the user's sessions had ended in one step, at the moment of the listing. */
  function AtOnce(s: State, user: string, listed: Time, es: seq<Event>): State {
    Run(Apply(s, Event(RevokeUser(user), listed, listed)), es)
  }

  lemma NotListedIsDead(s: State, user: string, listed: Time, token: Token)
    requires Agrees(s.file, s.log, listed) && token !in TokensOf(Prune(s.file, listed), user)
    ensures Alike(Lookup(s.log, token), Lookup(LogAfter(s.log, RevokeUser(user)), token), listed)
  {
    FoundAlike(s.file, s.log, listed, token);
  }

  /**
    Whatever happens in between, once the last token is dropped every token is answered for as if
    all the sessions listed had ended together, at the moment of the listing; sessions created
    since then are answered for.
  */
  lemma DroppingIsRevokingAtOnce(s: State, user: string, listed: Time, es: seq<Event>,
                                 token: Token, agent: Option<string>, t1: Time, t2: Time)
    requires Agrees(s.file, s.log, s.now) && Drops(s, user, listed, es)
    requires Run(s.(now := listed), es).now <= t1 <= t2
    ensures Validate(Run(s.(now := listed), es).file, token, agent, t1, t2)
         == ValidateInLog(AtOnce(s, user, listed, es).log, token, agent, t2)
  {
    var now, once := s.(now := listed), Apply(s, Event(RevokeUser(user), listed, listed));
    AgreesLater(s.file, s.log, s.now, listed);
    if token !in TokensOf(Prune(s.file, listed), user) {
      NotListedIsDead(s, user, listed, token);
    }
    TokenConverges(now, once, es, token);
    RunAgrees(now, es);
    var end := Run(now, es);
    AgreementIsInvisible(end.file, end.log, end.now, token, agent, t1, t2);
  }

  /** So after it no token validates to the user, unless a session was created for the user since the listing. */
  lemma DroppedUserStaysOut(s: State, user: string, listed: Time, es: seq<Event>,
                            token: Token, agent: Option<string>, t1: Time, t2: Time)
    requires Agrees(s.file, s.log, s.now) && Drops(s, user, listed, es)
    requires Run(s.(now := listed), es).now <= t1 <= t2
    requires forall k :: 0 <= k < |es| ==> !CreatesFor(es[k], user)
    ensures Validate(Run(s.(now := listed), es).file, token, agent, t1, t2) != Some(user)
  {
    DroppingIsRevokingAtOnce(s, user, listed, es, token, agent, t1, t2);
    var once := Apply(s, Event(RevokeUser(user), listed, listed));
    assert TokensOf(once.log, user) == {};
    UserStaysOut(once, es, user);
    var log := AtOnce(s, user, listed, es).log;
    assert token in log && UserOf(log[token]) == user ==> token in TokensOf(log, user);
  }

  // ---- deleting an expired entry late --------------------------------------------------------------------

  predicate Dead(file: Entries, token: Token, now: Time) {
    token in file ==> now >= file[token].expiresAt
  }

  predicate Recreates(e: Event, token: Token) {
    e.op.Create? && e.op.token == token
  }

  lemma DeadAfter(s: State, e: Event, token: Token)
    requires Dead(s.file, token, s.now) && s.now <= e.t1 <= e.t2 && !Recreates(e, token)
    ensures Dead(Apply(s, e).file, token, e.t2)
  {
  }

  lemma {:induction false} DeadStaysDead(s: State, es: seq<Event>, token: Token)
    requires Dead(s.file, token, s.now) && ClockRuns(s.now, es)
    requires forall k :: 0 <= k < |es| ==> !Recreates(es[k], token)
    ensures Dead(Run(s, es).file, token, Run(s, es).now)
    decreases |es|
  {
    if es != [] {
      assert !Recreates(es[0], token);
      DeadAfter(s, es[0], token);
      assert forall k :: 0 <= k < |es[1..]| ==> es[1..][k] == es[k + 1];
      DeadStaysDead(Apply(s, es[0]), es[1..], token);
    }
  }

  /** `del` under the lock: an entry that is gone by now is not missed. */
  function Deleted(file: Entries, token: Token, t1: Time, t2: Time): Entries {
    if token in Prune(file, t1) then Prune(Prune(file, t1) - {token}, t2) else file
  }

  lemma DeletedIs(file: Entries, token: Token, t1: Time, t2: Time)
    requires t1 <= t2
    ensures Deleted(file, token, t1, t2) == file || Deleted(file, token, t1, t2) == Prune(file, t2) - {token}
  {
    PruneTwice(file - {token}, t1, t2);
    assert Prune(file, t1) - {token} == Prune(file - {token}, t1);
    assert Prune(file - {token}, t2) == Prune(file, t2) - {token};
  }

  /**
    An entry found expired may be deleted at any later time: as tokens are never drawn twice, the
    delete touches nothing that still answers.
  */
  lemma LateDeleteIsHarmless(s: State, es: seq<Event>, token: Token, t1: Time, t2: Time)
    requires Agrees(s.file, s.log, s.now) && Dead(s.file, token, s.now) && ClockRuns(s.now, es)
    requires forall k :: 0 <= k < |es| ==> !Recreates(es[k], token)
    requires Run(s, es).now <= t1 <= t2
    ensures Agrees(Deleted(Run(s, es).file, token, t1, t2), Run(s, es).log, t2)
  {
    RunAgrees(s, es);
    DeadStaysDead(s, es, token);
    var end := Run(s, es);
    DeletedIs(end.file, token, t1, t2);
    StepAgreesAfterCheck(end, token, Deleted(end.file, token, t1, t2), t2);
  }
}
