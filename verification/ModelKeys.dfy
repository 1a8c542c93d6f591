/**
  The consent keys of tinyagentos/agent_model_key_store.py: only hashes and UTC text are
  stored, and expiry is decided by comparing text.
*/
module ModelKeys {
  import opened Wrappers
  import opened Timestamps
  import opened Text

  // ---- normalising an expiry -------------------------------------------------------------------------

  /** What `datetime.fromisoformat` makes of the caller's text; offsets are in microseconds. */
  datatype Stamp = Naive(local: Civil) | Aware(local: Civil, offset: int)

  const MICROS_PER_DAY := 86_400_000_000

  /** The days of the years 1 to 9999. */
  const ALL_DAYS := 3_652_059

  function YearOf(days: nat, from: nat): (y: nat)
    requires 1 <= from <= 9999 && DaysBeforeYear(from) <= days < ALL_DAYS
    ensures from <= y <= 9999 && DaysBeforeYear(y) <= days < DaysBeforeYear(y) + DaysInYear(y)
    decreases 9999 - from
  {
    LeapYearsCounted(from);
    if days < DaysBeforeYear(from) + DaysInYear(from) then from else YearOf(days, from + 1)
  }

  function MonthOf(y: nat, day: nat, from: nat): (m: nat)
    requires 1 <= from <= 12 && DaysBeforeMonth(y, from) <= day < DaysBeforeMonth(y, 12) + DaysInMonth(y, 12)
    ensures from <= m <= 12 && DaysBeforeMonth(y, m) <= day < DaysBeforeMonth(y, m) + DaysInMonth(y, m)
    decreases 12 - from
  {
    if day < DaysBeforeMonth(y, from) + DaysInMonth(y, from) then from else MonthOf(y, day, from + 1)
  }

  /** The first instant after year 9999. */
  function EndOfTime(): nat {
    ALL_DAYS * MICROS_PER_DAY
  }

  /** The civil time of an instant: the inverse of `Instant`. */
  function FromInstant(n: int): (c: Option<Civil>)
    ensures c.Some? <==> 0 <= n < EndOfTime()
    ensures c.Some? ==> Valid(c.value) && Instant(c.value) == n
  {
    if n < 0 || n >= EndOfTime() then None else
      var days := n / MICROS_PER_DAY;
      var rest := n % MICROS_PER_DAY;
      var y := YearOf(days, 1);
      TwelveMonths(y);
      var dayOfYear := days - DaysBeforeYear(y);
      var m := MonthOf(y, dayOfYear, 1);
      var c := Civil(y, m, dayOfYear - DaysBeforeMonth(y, m) + 1,
                     rest / 3_600_000_000, rest / 60_000_000 % 60, rest / 1_000_000 % 60, rest % 1_000_000);
      TimeOfDay(rest);
      Some(c)
  }

  lemma TimeOfDay(rest: nat)
    requires rest < MICROS_PER_DAY
    ensures rest / 3_600_000_000 < 24
    ensures ((rest / 3_600_000_000 * 60 + rest / 60_000_000 % 60) * 60 + rest / 1_000_000 % 60) * 1_000_000
            + rest % 1_000_000 == rest
  {
    assert rest / 60_000_000 / 60 == rest / 3_600_000_000;
    assert rest / 1_000_000 / 60 == rest / 60_000_000;
  }

  datatype KeyError = NoAgents | BadAgentId | BadExpiry | OutOfRange | DuplicateHash

  /** `fromisoformat` and the timezone check. */
  function Moment(parse: string -> Option<Stamp>, value: string): Result<int, KeyError>
    requires forall s: string :: parse(s).Some? ==> Valid(parse(s).value.local)
  {
    match parse(value)
    case None => Failure(BadExpiry)
    case Some(Naive(_)) => Failure(BadExpiry)
    case Some(Aware(local, offset)) => Success(Instant(local) - offset)
  }

  /** `astimezone(utc).isoformat()`. */
  function UtcText(n: int): Result<string, KeyError> {
    match FromInstant(n)
    case None => Failure(OutOfRange)
    case Some(utc) => Success(Iso(utc))
  }

  /** `_normalize_ts`: timezone-aware text becomes the canonical UTC text of the same instant. */
  function NormalizeTs(parse: string -> Option<Stamp>, value: string): (r: Result<string, KeyError>)
    requires forall s: string :: parse(s).Some? ==> Valid(parse(s).value.local)
  {
    match Moment(parse, value)
    case Failure(e) => Failure(e)
    case Success(n) => UtcText(n)
  }

  lemma CanonicalText(m: int, n: int)
    requires UtcText(m).Success? && UtcText(n).Success?
    ensures UtcText(m) == UtcText(n) <==> m == n
  {
    TextOrderIsTimeOrder(FromInstant(m).value, FromInstant(n).value);
  }

  /** Two accepted texts are stored alike exactly when they name the same instant. */
  lemma NormalizeIsCanonical(parse: string -> Option<Stamp>, s: string, t: string)
    requires forall x: string :: parse(x).Some? ==> Valid(parse(x).value.local)
    requires NormalizeTs(parse, s).Success? && NormalizeTs(parse, t).Success?
    ensures NormalizeTs(parse, s) == NormalizeTs(parse, t) <==> Moment(parse, s) == Moment(parse, t)
  {
    CanonicalText(Moment(parse, s).value, Moment(parse, t).value);
  }

  lemma YearFits(y: nat, z: nat)
    requires 1 <= y < z == 10000
    ensures DaysBeforeYear(y) + DaysInYear(y) <= ALL_DAYS
  {
    YearsAdvance(y, z);
    LeapYearsCounted(z);
  }

  lemma {:induction false} MonthFits(y: nat, m: nat)
    requires 1 <= m <= 12
    ensures DaysBeforeMonth(y, m) + DaysInMonth(y, m) <= DaysInYear(y)
    decreases 12 - m
  {
    if m < 12 {
      MonthFits(y, m + 1);
    } else {
      TwelveMonths(y);
    }
  }

  lemma DaysInTime(days: nat, c: Civil)
    requires Valid(c) && days == Days(c) && days < ALL_DAYS
    ensures Instant(c) < EndOfTime()
  {
  }

  /** Every valid civil time has its text stored when its instant is. */
  lemma UtcTextOf(c: Civil)
    requires Valid(c)
    ensures UtcText(Instant(c)) == Success(Iso(c))
  {
    YearFits(c.year, 10000);
    MonthFits(c.year, c.month);
    DaysInTime(Days(c), c);
    FieldOrderIsTimeOrder(c, FromInstant(Instant(c)).value);
  }

  lemma UtcTextIff(n: int)
    ensures UtcText(n).Success? <==> 0 <= n < EndOfTime()
    ensures UtcText(n).Failure? ==> UtcText(n).error == OutOfRange
  {
  }

  lemma NormalizedMoment(parse: string -> Option<Stamp>, value: string, n: int)
    requires forall s: string :: parse(s).Some? ==> Valid(parse(s).value.local)
    ensures parse(value).None? || parse(value).value.Naive? ==> NormalizeTs(parse, value) == Failure(BadExpiry)
    ensures parse(value).Some? && parse(value).value.Aware? && n == Instant(parse(value).value.local) - parse(value).value.offset
      ==> NormalizeTs(parse, value) == UtcText(n)
  {
  }

  /**
    What is stored for an expiry: nothing for text without an offset; otherwise the text of the one civil
    time that, in UTC, is the caller's local time less its offset, unless that is outside the years 1 to 9999.
  */
  lemma NormalizedInstant(parse: string -> Option<Stamp>, value: string, local: Civil, offset: int, utc: Civil)
    requires forall s: string :: parse(s).Some? ==> Valid(parse(s).value.local)
    ensures parse(value).None? || parse(value).value.Naive? ==> NormalizeTs(parse, value) == Failure(BadExpiry)
    ensures parse(value) == Some(Aware(local, offset)) ==>
      && (NormalizeTs(parse, value).Success? <==> 0 <= Instant(local) - offset < EndOfTime())
      && (Valid(utc) && Instant(utc) == Instant(local) - offset ==> NormalizeTs(parse, value) == Success(Iso(utc)))
  {
    if parse(value) == Some(Aware(local, offset)) {
      var n := Instant(local) - offset;
      NormalizedMoment(parse, value, n);
      UtcTextIff(n);
      if Valid(utc) && Instant(utc) == n {
        UtcTextOf(utc);
      }
    }
  }

  // ---- the table ----------------------------------------------------------------------------------------

  datatype KeyRow = KeyRow(
    id: nat, keyHash: string, issuingUser: string, agentIds: seq<string>, scopes: seq<string>, rateCap: Option<int>,
    createdAt: string, expiresAt: Option<string>, revoked: bool)

  /** A key as it was issued; `expires` is the instant the caller meant. */
  datatype Issued = Issued(token: string, expires: Option<nat>, revoked: bool)

  predicate AgentIdChar(c: char) {
    'A' <= c <= 'Z' || 'a' <= c <= 'z' || '0' <= c <= '9' || c == '.' || c == '_' || c == '-'
  }

  predicate AgentIdOk(a: string) {
    a != "" && forall k :: 0 <= k < |a| ==> AgentIdChar(a[k])
  }

  /** SHA-256, taken to have no collisions. */
  ghost predicate Injective(hash: string -> string) {
    forall s, t :: hash(s) == hash(t) ==> s == t
  }

  /** The stored text is the canonical text of the instant, when there is one. */
  predicate SameExpiry(stored: Option<string>, expires: Option<nat>) {
    match (stored, expires)
    case (None, None) => true
    case (Some(text), Some(n)) => UtcText(n) == Success(text)
    case _ => false
  }

  predicate RowFor(hash: string -> string, row: KeyRow, key: Issued) {
    row.keyHash == hash(key.token) && row.revoked == key.revoked && SameExpiry(row.expiresAt, key.expires)
  }

  /** Row by row, the table stores what was issued; no two rows share a hash. */
  predicate Represents(hash: string -> string, rows: seq<KeyRow>, keys: seq<Issued>) {
    && |rows| == |keys|
    && (forall k :: 0 <= k < |rows| ==> RowFor(hash, rows[k], keys[k]) && rows[k].id == k + 1)
    && (forall j, k :: 0 <= j < k < |rows| ==> rows[j].keyHash != rows[k].keyHash)
  }

  lemma RepresentsOneMore(hash: string -> string, rows: seq<KeyRow>, keys: seq<Issued>, row: KeyRow, key: Issued)
    requires Represents(hash, rows, keys) && RowFor(hash, row, key) && row.id == |rows| + 1
    requires forall k :: 0 <= k < |rows| ==> rows[k].keyHash != row.keyHash
    ensures Represents(hash, rows + [row], keys + [key])
  {
  }

  lemma HashesNameTokens(hash: string -> string, rows: seq<KeyRow>, keys: seq<Issued>, token: string)
    requires Injective(hash) && Represents(hash, rows, keys)
    ensures forall k :: 0 <= k < |rows| ==> (rows[k].keyHash == hash(token) <==> keys[k].token == token)
  {
    forall k | 0 <= k < |rows|
      ensures rows[k].keyHash == hash(token) <==> keys[k].token == token
    {
      assert RowFor(hash, rows[k], keys[k]);
    }
  }

  /** The WHERE clause of `resolve`. */
  predicate Selected(hash: string -> string, row: KeyRow, token: string, now: string) {
    row.keyHash == hash(token) && !row.revoked && (row.expiresAt.None? || TextBefore(now, row.expiresAt.value))
  }

  /** The key is minted, not revoked, and its expiry lies after `now`. */
  predicate Usable(key: Issued, token: string, now: nat) {
    key.token == token && !key.revoked && (key.expires.None? || now < key.expires.value)
  }

  lemma SelectedIsUsable(hash: string -> string, row: KeyRow, key: Issued, token: string, now: Civil)
    requires Injective(hash) && Valid(now) && RowFor(hash, row, key)
    ensures Selected(hash, row, token, Iso(now)) <==> Usable(key, token, Instant(now))
  {
    if key.expires.Some? {
      TextOrderIsTimeOrder(now, FromInstant(key.expires.value).value);
    }
  }

  /** Comparing text, `resolve` finds a row exactly when a usable key was issued for the token. */
  lemma ResolveIsExact(hash: string -> string, rows: seq<KeyRow>, keys: seq<Issued>, token: string, now: Civil)
    requires Injective(hash) && Valid(now) && Represents(hash, rows, keys)
    ensures (exists k :: 0 <= k < |rows| && Selected(hash, rows[k], token, Iso(now)))
       <==> (exists k :: 0 <= k < |keys| && Usable(keys[k], token, Instant(now)))
  {
    forall k | 0 <= k < |rows|
      ensures Selected(hash, rows[k], token, Iso(now)) <==> Usable(keys[k], token, Instant(now))
    {
      SelectedIsUsable(hash, rows[k], keys[k], token, now);
    }
  }

  /** What the key of a row allows, and on whose behalf. */
  predicate Grants(row: KeyRow, issuingUser: string, agentIds: seq<string>, scopes: seq<string>, rateCap: Option<int>) {
    row.issuingUser == issuingUser && row.agentIds == agentIds && row.scopes == scopes && row.rateCap == rateCap
  }

  class AgentModelKeyStore {
    var rows: seq<KeyRow>
    ghost var keys: seq<Issued>
    const hash: string -> string
    const parse: string -> Option<Stamp>

    ghost predicate Valid()
      reads this
    {
      && Injective(hash)
      && (forall s: string :: parse(s).Some? ==> Timestamps.Valid(parse(s).value.local))
      && Represents(hash, rows, keys)
    }

    constructor (hash: string -> string, parse: string -> Option<Stamp>)
      requires Injective(hash)
      requires forall s: string :: parse(s).Some? ==> Timestamps.Valid(parse(s).value.local)
      ensures Valid() && keys == []
    {
      this.hash := hash;
      this.parse := parse;
      rows, keys := [], [];
    }

    /** The instant an accepted expiry names. */
    ghost function ExpiryMeant(expiresAt: Option<string>): Option<nat>
      reads this
      requires Valid() && (expiresAt.None? || NormalizeTs(parse, expiresAt.value).Success?)
    {
      match expiresAt
      case None => None
      case Some(text) => Some(Moment(parse, text).value)
    }

    method AgentIdsAreOk(agentIds: seq<string>) returns (ok: bool)
      ensures ok <==> forall k :: 0 <= k < |agentIds| ==> AgentIdOk(agentIds[k])
    {
      for i := 0 to |agentIds|
        invariant forall k :: 0 <= k < i ==> AgentIdOk(agentIds[k])
      {
        if !AgentIdOk(agentIds[i]) {
          return false;
        }
      }
      return true;
    }

    /** The UNIQUE constraint on the hash: violated exactly when the token was issued before. */
    method HashTaken(token: string) returns (taken: bool)
      requires Valid()
      ensures taken <==> exists k :: 0 <= k < |keys| && keys[k].token == token
      ensures !taken ==> forall k :: 0 <= k < |rows| ==> rows[k].keyHash != hash(token)
    {
      HashesNameTokens(hash, rows, keys, token);
      for i := 0 to |rows|
        invariant forall j :: 0 <= j < i ==> rows[j].keyHash != hash(token)
      {
        if rows[i].keyHash == hash(token) {
          return true;
        }
      }
      return false;
    }

    /** The token is drawn by the caller; nothing is stored when the call fails. */
    method Mint(token: string, issuingUser: string, agentIds: seq<string>, scopes: seq<string>, rateCap: Option<int>,
                expiresAt: Option<string>, now: Civil)
      returns (r: Result<nat, KeyError>)
      requires Valid() && Timestamps.Valid(now)
      modifies this
      ensures Valid()
      ensures r.Success? <==>
        && agentIds != [] && (forall k :: 0 <= k < |agentIds| ==> AgentIdOk(agentIds[k]))
        && (expiresAt.None? || NormalizeTs(parse, expiresAt.value).Success?)
        && !exists k :: 0 <= k < |old(keys)| && old(keys)[k].token == token
      ensures r.Failure? ==> keys == old(keys) && rows == old(rows)
      ensures r.Success? ==> r.value == |keys| && keys == old(keys) + [Issued(token, ExpiryMeant(expiresAt), false)]
      ensures r.Success? ==>
        && |rows| == |old(rows)| + 1 && rows[..|old(rows)|] == old(rows)
        && Grants(rows[|rows| - 1], issuingUser, agentIds, scopes, rateCap)
    {
      if agentIds == [] {
        return Failure(NoAgents);
      }
      var ok := AgentIdsAreOk(agentIds);
      if !ok {
        return Failure(BadAgentId);
      }
      var stored := StoredExpiry(expiresAt);
      if stored.Failure? {
        return Failure(stored.error);
      }
      var taken := HashTaken(token);
      if taken {
        return Failure(DuplicateHash);
      }
      Insert(KeyRow(|rows| + 1, hash(token), issuingUser, agentIds, scopes, rateCap, Iso(now), stored.value, false),
             Issued(token, ExpiryMeant(expiresAt), false));
      return Success(|rows|);
    }

    method StoredExpiry(expiresAt: Option<string>) returns (r: Result<Option<string>, KeyError>)
      requires Valid()
      ensures r.Success? <==> expiresAt.None? || NormalizeTs(parse, expiresAt.value).Success?
      ensures r.Success? ==> SameExpiry(r.value, ExpiryMeant(expiresAt))
    {
      if expiresAt.None? {
        return Success(None);
      }
      var normal := NormalizeTs(parse, expiresAt.value);
      if normal.Failure? {
        return Failure(normal.error);
      }
      return Success(Some(normal.value));
    }

    method Insert(row: KeyRow, ghost key: Issued)
      requires Valid() && RowFor(hash, row, key) && row.id == |rows| + 1
      requires forall k :: 0 <= k < |rows| ==> rows[k].keyHash != row.keyHash
      modifies this
      ensures Valid() && rows == old(rows) + [row] && keys == old(keys) + [key]
    {
      RepresentsOneMore(hash, rows, keys, row, key);
      rows := rows + [row];
      keys := keys + [key];
    }

    method Revoke(id: nat) returns (revoked: bool)
      requires Valid()
      modifies this
      ensures Valid()
      ensures revoked <==> 1 <= id <= |old(keys)| && !old(keys)[id - 1].revoked
      ensures keys == if revoked then old(keys)[id - 1 := old(keys)[id - 1].(revoked := true)] else old(keys)
      ensures rows == if revoked then old(rows)[id - 1 := old(rows)[id - 1].(revoked := true)] else old(rows)
    {
      if 1 <= id <= |rows| && !rows[id - 1].revoked {
        rows := rows[id - 1 := rows[id - 1].(revoked := true)];
        keys := keys[id - 1 := keys[id - 1].(revoked := true)];
        return true;
      }
      return false;
    }

    /** A token resolves exactly when it was minted, is not revoked and has not expired. */
    method Resolve(token: string, now: Civil) returns (row: Option<KeyRow>)
      requires Valid() && Timestamps.Valid(now)
      ensures row.Some? <==>
        exists k ::
          && 0 <= k < |keys| && keys[k].token == token && !keys[k].revoked
          && (keys[k].expires == None || Instant(now) < keys[k].expires.value)
      ensures row.Some? ==> exists k :: 0 <= k < |rows| && rows[k] == row.value && Usable(keys[k], token, Instant(now))
    {
      ResolveIsExact(hash, rows, keys, token, now);
      for i := 0 to |rows|
        invariant forall j :: 0 <= j < i ==> !Selected(hash, rows[j], token, Iso(now))
      {
        if Selected(hash, rows[i], token, Iso(now)) {
          SelectedIsUsable(hash, rows[i], keys[i], token, now);
          return Some(rows[i]);
        }
      }
      return None;
    }
  }
}
