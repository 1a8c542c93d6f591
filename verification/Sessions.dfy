/**
  The session file of tinyagentos/auth.py, pruned of expired entries on every load and every
  save, beside the log it stands for: every create and every revoke, and nothing else.
*/
module Sessions {
  import opened Wrappers

  type Time = real
  type Token = string

  /** Older files hold bare expiry times; they belong to the user with the empty id. */
  datatype Entry =
    | Session(userId: string, expiresAt: Time, longLived: bool, agentHash: Option<string>)
    | Legacy(expiresAt: Time)

  type Entries = map<Token, Entry>

  function UserOf(e: Entry): string {
    if e.Legacy? then "" else e.userId
  }

  /** `_prune_expired`: bare expiry times are never pruned. */
  predicate Prunable(e: Entry, now: Time) {
    e.Session? && now >= e.expiresAt
  }

  function Prune(m: Entries, now: Time): Entries {
    map token | token in m && !Prunable(m[token], now) :: m[token]
  }

  function TokensOf(m: Entries, user: string): set<Token> {
    set token | token in m && UserOf(m[token]) == user
  }

  /** What `validate_session` answers for an entry read from the file. */
  function Answer(e: Option<Entry>, now: Time, agent: Option<string>): Option<string> {
    match e
    case None => None
    case Some(e) =>
      if now >= e.expiresAt then None
      else if e.Session? && e.agentHash.Some? && e.agentHash.value != "" && agent.Some? && agent != e.agentHash then None
      else Some(UserOf(e))
  }

  /** `validate_session`: the file is loaded at `loaded` and the clock read again at `now`. */
  function Validate(file: Entries, token: Token, agent: Option<string>, loaded: Time, now: Time): Option<string> {
    Answer(Lookup(Prune(file, loaded), token), now, agent)
  }

  /** The same question put to the unpruned log. */
  function ValidateInLog(log: Entries, token: Token, agent: Option<string>, now: Time): Option<string> {
    Answer(Lookup(log, token), now, agent)
  }

  /** The entry is the user's: a bare expiry time is that of the user with the empty id. */
  predicate BelongsTo(e: Entry, user: string) {
    match e
    case Session(userId, _, _, _) => userId == user
    case Legacy(_) => user == ""
  }

  /** At `t` the entry lets `agent` in as `user`: it has not expired, and no other client is bound to it. */
  predicate Admits(e: Entry, agent: Option<string>, t: Time, user: string) {
    && t < e.expiresAt
    && BelongsTo(e, user)
    && (e.Session? ==> e.agentHash.None? || e.agentHash == Some("") || agent.None? || agent == e.agentHash)
  }

  lemma AnswersIff(log: Entries, token: Token, agent: Option<string>, now: Time, user: string)
    ensures ValidateInLog(log, token, agent, now) == Some(user) <==> token in log && Admits(log[token], agent, now, user)
  {
  }

  // ---- operations ------------------------------------------------------------------------------

  /** Each operation first loads the file at `t1`; its last reading of the clock is `t2`. */
  datatype Op =
    | Create(token: Token, entry: Entry)
    | Revoke(token: Token)
    | RevokeUser(user: string)
    | Check(token: Token)
    | Startup

  datatype State = State(file: Entries, log: Entries, now: Time)

  function LogAfter(log: Entries, op: Op): Entries {
    match op
    case Create(token, entry) => log[token := entry]
    case Revoke(token) => log - {token}
    case RevokeUser(user) => log - TokensOf(log, user)
    case Check(_) => log
    case Startup => log
  }

  function FileAfter(file: Entries, op: Op, t1: Time, t2: Time): Entries {
    match op
    case Create(token, entry) => Prune(Prune(file, t1)[token := entry], t2)
    case Revoke(token) => Prune(Prune(file, t1) - {token}, t2)
    case RevokeUser(user) =>
      var mine := TokensOf(Prune(file, t1), user);
      if mine == {} then file else Prune(file, t2) - mine
    case Check(token) =>
      // an expired entry is deleted, unless the second load has pruned it already
      if token in Prune(file, t2) && t2 >= file[token].expiresAt then Prune(file, t2) - {token} else file
    case Startup => Prune(Prune(file, t1), t2)
  }

  predicate Step(s: State, op: Op, t1: Time, t2: Time, s': State) {
    s.now <= t1 <= t2 && s' == State(FileAfter(s.file, op, t1, t2), LogAfter(s.log, op), t2)
  }

  // ---- the file agrees with the log ---------------------------------------------------------------

  function Live(m: Entries, now: Time): Entries {
    map token | token in m && now < m[token].expiresAt :: m[token]
  }

  /** Among the entries that have not expired, the file and the log are the same. */
  predicate Agrees(file: Entries, log: Entries, now: Time) {
    Live(file, now) == Live(log, now)
  }

  lemma AgreesLater(file: Entries, log: Entries, now: Time, t: Time)
    requires Agrees(file, log, now) && now <= t
    ensures Agrees(file, log, t)
  {
    forall token
      ensures token in Live(file, t) <==> token in Live(log, t)
      ensures token in Live(file, t) ==> Live(file, t)[token] == Live(log, t)[token]
    {
      assert token in Live(file, t) ==> token in Live(file, now);
      assert token in Live(log, t) ==> token in Live(log, now);
    }
  }

  lemma PruneKeepsLive(m: Entries, t: Time)
    ensures Live(Prune(m, t), t) == Live(m, t)
  {
  }

  lemma PruneTwice(m: Entries, t1: Time, t2: Time)
    requires t1 <= t2
    ensures Prune(Prune(m, t1), t2) == Prune(m, t2)
  {
  }

  lemma FoundAlike(file: Entries, log: Entries, now: Time, token: Token)
    requires Agrees(file, log, now)
    ensures Lookup(Live(file, now), token) == Lookup(Live(log, now), token)
  {
  }

  lemma CreateFinds(file: Entries, log: Entries, t: Token, entry: Entry, t1: Time, t2: Time, token: Token)
    requires Agrees(file, log, t2) && t1 <= t2
    ensures Lookup(Live(Prune(Prune(file, t1)[t := entry], t2), t2), token) == Lookup(Live(log[t := entry], t2), token)
  {
    FoundAlike(file, log, t2, token);
  }

  lemma RevokeUserFinds(file: Entries, log: Entries, user: string, t1: Time, t2: Time, token: Token)
    requires Agrees(file, log, t2) && t1 <= t2
    ensures Lookup(Live(FileAfter(file, RevokeUser(user), t1, t2), t2), token)
         == Lookup(Live(log - TokensOf(log, user), t2), token)
  {
    FoundAlike(file, log, t2, token);
  }

  /** Token by token, the file and the log answer alike after a step. */
  lemma StepFinds(s: State, op: Op, t1: Time, t2: Time, token: Token)
    requires Agrees(s.file, s.log, t2) && t1 <= t2
    ensures Lookup(Live(FileAfter(s.file, op, t1, t2), t2), token) == Lookup(Live(LogAfter(s.log, op), t2), token)
  {
    match op {
      case Create(t, entry) => CreateFinds(s.file, s.log, t, entry, t1, t2, token);
      case Revoke(_) => FoundAlike(s.file, s.log, t2, token);
      case RevokeUser(user) => RevokeUserFinds(s.file, s.log, user, t1, t2, token);
      case Check(_) => FoundAlike(s.file, s.log, t2, token);
      case Startup => FoundAlike(s.file, s.log, t2, token);
    }
  }

  lemma StepAgrees(s: State, op: Op, t1: Time, t2: Time, s': State)
    requires Agrees(s.file, s.log, s.now) && Step(s, op, t1, t2, s')
    ensures Agrees(s'.file, s'.log, s'.now)
  {
    AgreesLater(s.file, s.log, s.now, t2);
    forall token
      ensures Lookup(Live(s'.file, t2), token) == Lookup(Live(s'.log, t2), token)
    {
      StepFinds(s, op, t1, t2, token);
    }
    SameLookups(Live(s'.file, t2), Live(s'.log, t2));
  }

  lemma SameLookups(a: Entries, b: Entries)
    requires forall token :: Lookup(a, token) == Lookup(b, token)
    ensures a == b
  {
    forall token
      ensures token in a <==> token in b
      ensures token in a ==> a[token] == b[token]
    {
      assert Lookup(a, token) == Lookup(b, token);
    }
  }

  /** Live or dead, a token is answered for as the log would. */
  lemma AgreementIsInvisible(file: Entries, log: Entries, now: Time, token: Token, agent: Option<string>, t1: Time, t2: Time)
    requires Agrees(file, log, now) && now <= t1 <= t2
    ensures Validate(file, token, agent, t1, t2) == ValidateInLog(log, token, agent, t2)
  {
    AgreesLater(file, log, now, t2);
    assert Lookup(Live(file, t2), token) == Lookup(Live(log, t2), token);
  }

  // ---- runs ------------------------------------------------------------------------------------------

  datatype Event = Event(op: Op, t1: Time, t2: Time)

  /** The clock never goes back, within an operation or between two. */
  predicate ClockRuns(now: Time, es: seq<Event>)
    decreases |es|
  {
    es == [] || (now <= es[0].t1 <= es[0].t2 && ClockRuns(es[0].t2, es[1..]))
  }

  function Apply(s: State, e: Event): State {
    State(FileAfter(s.file, e.op, e.t1, e.t2), LogAfter(s.log, e.op), e.t2)
  }

  function Run(s: State, es: seq<Event>): State
    decreases |es|
  {
    if es == [] then s else Run(Apply(s, es[0]), es[1..])
  }

  lemma {:induction false} RunAgrees(s: State, es: seq<Event>)
    requires Agrees(s.file, s.log, s.now) && ClockRuns(s.now, es)
    ensures Agrees(Run(s, es).file, Run(s, es).log, Run(s, es).now)
    decreases |es|
  {
    if es != [] {
      StepAgrees(s, es[0].op, es[0].t1, es[0].t2, Apply(s, es[0]));
      RunAgrees(Apply(s, es[0]), es[1..]);
    }
  }

  /** Pruning is invisible: after any run, every token is answered for as the unpruned log would. */
  lemma PrunedFileRefinesLog(start: Time, es: seq<Event>, token: Token, agent: Option<string>, t1: Time, t2: Time)
    requires ClockRuns(start, es) && Run(State(map[], map[], start), es).now <= t1 <= t2
    ensures var s := Run(State(map[], map[], start), es);
      Validate(s.file, token, agent, t1, t2) == ValidateInLog(s.log, token, agent, t2)
  {
    var s := Run(State(map[], map[], start), es);
    RunAgrees(State(map[], map[], start), es);
    AgreementIsInvisible(s.file, s.log, s.now, token, agent, t1, t2);
  }

  /** The last thing that happened to the token is that `entry` was created under it. */
  predicate LastCreated(es: seq<Event>, token: Token, entry: Entry) {
    exists k :: 0 <= k < |es| && es[k].op == Create(token, entry) && NothingRevokes(es, k + 1, token, entry)
  }

  /** From the `k`th event on the token is not drawn again, not revoked, and neither are its user's sessions. */
  predicate NothingRevokes(es: seq<Event>, k: nat, token: Token, entry: Entry) {
    forall j :: k <= j < |es| ==> !Revokes(es[j].op, token, entry)
  }

  predicate Revokes(op: Op, token: Token, entry: Entry) {
    match op
    case Create(t, _) => t == token
    case Revoke(t) => t == token
    case RevokeUser(user) => BelongsTo(entry, user)
    case _ => false
  }

  lemma LastCreatedCons(es: seq<Event>, token: Token, entry: Entry)
    requires es != []
    ensures LastCreated(es, token, entry) <==>
      LastCreated(es[1..], token, entry) || (es[0].op == Create(token, entry) && NothingRevokes(es[1..], 0, token, entry))
  {
    var rest := es[1..];
    assert forall k :: 1 <= k < |es| ==> es[k] == rest[k - 1];
    assert forall k :: 0 <= k < |rest| ==> rest[k] == es[k + 1];
    if k :| 0 <= k < |es| && es[k].op == Create(token, entry) && NothingRevokes(es, k + 1, token, entry) {
      assert NothingRevokes(rest, k, token, entry);
      assert k > 0 ==> rest[k - 1].op == Create(token, entry);
    }
    if k :| 0 <= k < |rest| && rest[k].op == Create(token, entry) && NothingRevokes(rest, k + 1, token, entry) {
      assert NothingRevokes(es, k + 2, token, entry) && es[k + 1].op == Create(token, entry);
    }
    if es[0].op == Create(token, entry) && NothingRevokes(rest, 0, token, entry) {
      assert NothingRevokes(es, 1, token, entry);
    }
  }

  lemma LogStepIs(s: State, e: Event, token: Token, entry: Entry)
    ensures Lookup(Apply(s, e).log, token) == Some(entry) <==>
      e.op == Create(token, entry) || (Lookup(s.log, token) == Some(entry) && !Revokes(e.op, token, entry))
  {
  }

  lemma NothingRevokesCons(es: seq<Event>, token: Token, entry: Entry)
    requires es != []
    ensures NothingRevokes(es, 0, token, entry) <==> !Revokes(es[0].op, token, entry) && NothingRevokes(es[1..], 0, token, entry)
  {
    assert forall k :: 1 <= k < |es| ==> es[k] == es[1..][k - 1];
  }

  lemma {:induction false} LoggedIff(s: State, es: seq<Event>, token: Token, entry: Entry)
    ensures Lookup(Run(s, es).log, token) == Some(entry) <==>
      LastCreated(es, token, entry) || (Lookup(s.log, token) == Some(entry) && NothingRevokes(es, 0, token, entry))
    decreases |es|
  {
    if es != [] {
      LogStepIs(s, es[0], token, entry);
      LoggedIff(Apply(s, es[0]), es[1..], token, entry);
      LastCreatedCons(es, token, entry);
      NothingRevokesCons(es, token, entry);
    }
  }

  /**
    After any run the pruned file answers for a token with a user exactly when a session of that user
    was created under it, has not expired, fits the client, and nothing has revoked it since.
  */
  lemma SessionHoldsIff(start: Time, es: seq<Event>, token: Token, agent: Option<string>, t1: Time, t2: Time, user: string)
    requires ClockRuns(start, es) && Run(State(map[], map[], start), es).now <= t1 <= t2
    ensures Validate(Run(State(map[], map[], start), es).file, token, agent, t1, t2) == Some(user) <==>
      exists entry :: LastCreated(es, token, entry) && Admits(entry, agent, t2, user)
  {
    var none := State(map[], map[], start);
    var log := Run(none, es).log;
    PrunedFileRefinesLog(start, es, token, agent, t1, t2);
    AnswersIff(log, token, agent, t2, user);
    forall entry
      ensures Lookup(log, token) == Some(entry) <==> LastCreated(es, token, entry)
    {
      LoggedIff(none, es, token, entry);
    }
    assert token in log ==> Lookup(log, token) == Some(log[token]);
  }

  predicate CreatesFor(e: Event, user: string) {
    e.op.Create? && UserOf(e.op.entry) == user
  }

  lemma {:induction false} UserStaysOut(s: State, es: seq<Event>, user: string)
    requires TokensOf(s.log, user) == {}
    requires forall k :: 0 <= k < |es| ==> !CreatesFor(es[k], user)
    ensures TokensOf(Run(s, es).log, user) == {}
    decreases |es|
  {
    if es != [] {
      assert !CreatesFor(es[0], user);
      assert forall token :: token in TokensOf(Apply(s, es[0]).log, user) ==> token in TokensOf(s.log, user);
      UserStaysOut(Apply(s, es[0]), es[1..], user);
    }
  }

  /** After `revoke_user_sessions` no token validates to the user until a session is created for it. */
  lemma RevokedUserStaysOut(s: State, user: string, t1: Time, t2: Time, es: seq<Event>,
                            token: Token, agent: Option<string>, u1: Time, u2: Time)
    requires Agrees(s.file, s.log, s.now) && s.now <= t1 <= t2 && ClockRuns(t2, es)
    requires forall k :: 0 <= k < |es| ==> !CreatesFor(es[k], user)
    requires Run(Apply(s, Event(RevokeUser(user), t1, t2)), es).now <= u1 <= u2
    ensures Validate(Run(Apply(s, Event(RevokeUser(user), t1, t2)), es).file, token, agent, u1, u2) != Some(user)
  {
    var revoked := Apply(s, Event(RevokeUser(user), t1, t2));
    var later := Run(revoked, es);
    StepAgrees(s, RevokeUser(user), t1, t2, revoked);
    RunAgrees(revoked, es);
    assert TokensOf(revoked.log, user) == {};
    UserStaysOut(revoked, es, user);
    AgreementIsInvisible(later.file, later.log, later.now, token, agent, u1, u2);
    assert token in later.log && UserOf(later.log[token]) == user ==> token in TokensOf(later.log, user);
  }

  lemma DropsOneMore(before: Entries, current: Entries, gone: set<Token>, token: Token, t1: Time, t2: Time)
    requires t1 <= t2
    requires exists t0 :: t0 <= t1 && (current == before - gone || current == Prune(before, t0) - gone)
    ensures Prune(Prune(current, t1) - {token}, t2) == Prune(before, t2) - (gone + {token})
  {
  }

  /** Of `data` exactly the bare expiry times and what has not expired by `t` are in the file. */
  ghost predicate IsPruned(file: Entries, data: Entries, t: Time) {
    && (forall token :: token in file <==> token in data && (data[token].Legacy? || t < data[token].expiresAt))
    && (forall token :: token in file ==> file[token] == data[token])
  }

  lemma PrunesExactly(m: Entries, t: Time)
    ensures IsPruned(Prune(m, t), m, t)
  {
  }

  /** Loading, changing one token and saving again is one pruning of the changed file. */
  lemma PruneAfterRemoval(file: Entries, token: Token, t1: Time, t2: Time)
    requires t1 <= t2
    ensures Prune(Prune(file, t1) - {token}, t2) == Prune(file - {token}, t2)
  {
  }

  lemma PruneAfterUpdate(file: Entries, token: Token, entry: Entry, t1: Time, t2: Time)
    requires t1 <= t2
    ensures Prune(Prune(file, t1)[token := entry], t2) == Prune(file[token := entry], t2)
  {
  }

  // ---- the session half of `AuthManager` ---------------------------------------------------------------

  const DAY: Time := 86400.0
  const SESSION_TTL: Time := DAY * 7.0
  const LONG_SESSION_TTL: Time := DAY * 30.0

  class PersistentSessions {
    var file: Entries
    var now: Time
    ghost var log: Entries

    ghost predicate Valid()
      reads this
    {
      Agrees(file, log, now)
    }

    constructor ()
      ensures Valid() && log == map[]
    {
      file, log, now := map[], map[], 0.0;
    }

    /** The clock, which only moves forward. */
    method ReadClock() returns (t: Time)
      modifies this`now
      ensures old(now) <= now == t
    {
      var reading: Time := *;
      t := if reading < now then now else reading;
      now := t;
    }

    method Load() returns (data: Entries)
      modifies this`now
      ensures old(now) <= now && data == Prune(file, now)
    {
      var t := ReadClock();
      data := Prune(file, t);
    }

    method Save(data: Entries)
      modifies this`now, this`file
      ensures old(now) <= now && file == Prune(data, now)
    {
      var t := ReadClock();
      file := Prune(data, t);
    }

    /** `create_session`; the token is drawn by the caller. */
    method CreateSession(token: Token, userId: string, longLived: bool, agentHash: Option<string>)
      returns (ghost born: Time)
      requires Valid()
      modifies this
      ensures Valid() && old(now) <= now
      ensures old(now) <= born <= now
      ensures var ttl := if longLived then 2592000.0 else 604800.0;  // thirty days or seven, in seconds
        log == old(log)[token := Session(userId, born + ttl, longLived, agentHash)]
      ensures IsPruned(file, old(file)[token := log[token]], now)
    {
      var t := ReadClock();
      var ttl := if longLived then LONG_SESSION_TTL else SESSION_TTL;
      var entry := Session(userId, t + ttl, longLived, agentHash);
      born := t;
      ghost var before := State(file, log, old(now));
      var data := Load();
      ghost var t1 := now;
      Save(data[token := entry]);
      log := log[token := entry];
      PruneAfterUpdate(before.file, token, entry, t1, now);
      PrunesExactly(before.file[token := entry], now);
      StepAgrees(before, Create(token, entry), t1, now, State(file, log, now));
    }

    method RevokeSession(token: Token)
      requires Valid()
      modifies this
      ensures Valid() && old(now) <= now && log == old(log) - {token}
      ensures IsPruned(file, old(file) - {token}, now)
    {
      ghost var before := State(file, log, now);
      var data := Load();
      ghost var t1 := now;
      Save(data - {token});
      log := log - {token};
      PruneAfterRemoval(before.file, token, t1, now);
      PrunesExactly(before.file - {token}, now);
      StepAgrees(before, Revoke(token), t1, now, State(file, log, now));
    }

    /** `revoke_user_sessions`: collect the user's tokens, then drop them one load-and-save at a time. */
    method RevokeUserSessions(user: string)
      requires Valid()
      modifies this
      ensures Valid() && old(now) <= now && log == old(log) - TokensOf(old(log), user)
      ensures forall token :: token in log <==> token in old(log) && !BelongsTo(old(log)[token], user)
      ensures forall token :: token in log ==> log[token] == old(log)[token]
      ensures forall token :: token in file ==> token in old(file) && file[token] == old(file)[token]
    {
      ghost var before := State(file, log, now);
      var data := Load();
      ghost var t1 := now;
      var mine := TokensOf(data, user);
      DropAll(mine);
      log := log - TokensOf(log, user);
      StepAgrees(before, RevokeUser(user), t1, now, State(file, log, now));
    }

    /** One load and save for each token. */
    method DropAll(tokens: set<Token>)
      modifies this`file, this`now
      ensures old(now) <= now
      ensures file == if tokens == {} then old(file) else Prune(old(file), now) - tokens
    {
      var left := tokens;
      while left != {}
        invariant left <= tokens && old(now) <= now
        invariant file == if left == tokens then old(file) else Prune(old(file), now) - (tokens - left)
        decreases left
      {
        ghost var current := file;
        var token :| token in left;
        var data := Load();
        ghost var t := now;
        Save(data - {token});
        DropsOneMore(old(file), current, tokens - left, token, t, now);
        left := left - {token};
        assert tokens - left == (tokens - (left + {token})) + {token};
      }
      assert tokens - left == tokens;
    }

    /** `validate_session`, answered as the unpruned log would; an expired entry is deleted. */
    method ValidateSession(token: Token, agent: Option<string>) returns (user: Option<string>)
      requires Valid()
      modifies this
      ensures Valid() && old(now) <= now && log == old(log)
      ensures exists t ::
        && old(now) <= t <= now && user == ValidateInLog(log, token, agent, t)
        && (forall u :: user == Some(u) <==> token in log && Admits(log[token], agent, t, u))
      ensures forall other :: other in file ==> other in old(file) && file[other] == old(file)[other]
      ensures token in old(file) && old(file)[token].Legacy? && old(file)[token].expiresAt <= old(now) ==> token !in file
    {
      ghost var before := State(file, log, now);
      var data := Load();
      ghost var loaded := now;
      var entry := Lookup(data, token);
      var t := ReadClock();
      AgreementIsInvisible(file, log, before.now, token, agent, loaded, t);
      user := Answer(entry, t, agent);
      forall u ensures user == Some(u) <==> token in log && Admits(log[token], agent, t, u) {
        AnswersIff(log, token, agent, t, u);
      }
      if entry.Some? && t >= entry.value.expiresAt {
        var again := Load();
        if token in again {
          ghost var t1 := now;
          Save(again - {token});
          PruneTwice(before.file, t1, now);
        }
        StepAgreesAfterCheck(before, token, file, now);
      } else {
        AgreesLater(file, log, before.now, now);
      }
    }

    /** `_prune_sessions_on_startup`: the shrunk file is written back. */
    method PruneOnStartup()
      requires Valid()
      modifies this
      ensures Valid() && old(now) <= now && log == old(log)
      ensures IsPruned(file, old(file), now)
    {
      ghost var before := State(file, log, now);
      var data := Load();
      ghost var t1 := now;
      Save(data);
      PruneTwice(before.file, t1, now);
      PrunesExactly(before.file, now);
      StepAgrees(before, Startup, t1, now, State(file, log, now));
    }
  }

  /** Deleting an expired entry, with or without pruning, touches nothing live. */
  lemma StepAgreesAfterCheck(s: State, token: Token, file: Entries, now: Time)
    requires Agrees(s.file, s.log, s.now) && s.now <= now
    requires token in s.file ==> now >= s.file[token].expiresAt
    requires file == s.file || file == Prune(s.file, now) - {token}
    ensures Agrees(file, s.log, now)
  {
    AgreesLater(s.file, s.log, s.now, now);
    PruneKeepsLive(s.file, now);
  }
}
