/**
  The decisions of tinyagentos/agent_token_auth.py over the state of the registry and the
  grants: who a bearer token speaks for, and what it may do.
*/
module TokenAuth {
  import opened Wrappers
  import opened Lifecycle
  import opened Text

  datatype Payload = Payload(sub: string, iat: Option<int>, projectId: Option<string>)

  /** A stored expiry that does not parse counts as expired. */
  datatype Expiry = Never | At(instant: int) | Unparseable

  datatype Grant = Grant(scope: string, projectId: Option<string>, expires: Expiry)

  datatype HttpError = Unauthorized | Forbidden

  /** No bearer header is neither an acceptance nor an error: the caller decides. */
  type Decision = Result<Option<(Id, Payload)>, HttpError>

  predicate GrantUnexpired(e: Expiry, now: int) {
    match e
    case Never => true
    case At(instant) => instant > now
    case Unparseable => false
  }

  predicate HoldsScope(grants: seq<Grant>, scope: string, now: int) {
    exists k :: 0 <= k < |grants| && grants[k].scope == scope && GrantUnexpired(grants[k].expires, now)
  }

  predicate HoldsProjectScope(grants: seq<Grant>, scope: string, projectId: string, now: int) {
    exists k :: 0 <= k < |grants| && grants[k].scope == scope && grants[k].projectId == Some(projectId)
      && GrantUnexpired(grants[k].expires, now)
  }

  function LowerAscii(c: char): char {
    if 'A' <= c <= 'Z' then c + ('a' - 'A') else c
  }

  const BEARER := "bearer "

  predicate IsBearer(header: string) {
    |header| >= |BEARER| && forall k :: 0 <= k < |BEARER| ==> LowerAscii(header[k]) == BEARER[k]
  }

  /** The token behind the bearer prefix, without surrounding blanks. */
  function RawToken(header: string): string
    requires IsBearer(header)
  {
    Strip(header[|BEARER|..])
  }

  predicate Accepts(d: Decision) {
    d.Success? && d.value.Some?
  }

  function IssuedAt(p: Payload): int {
    if p.iat.Some? then p.iat.value else 0
  }

  /** Steps shared by every check: the signature, the subject, an active row. */
  function IdentifyToken(token: string, verify: string -> Option<Payload>, table: Table): (d: Decision)
    ensures d.Success? ==> d.value.Some?
    ensures d.Success? ==>
      var (id, payload) := d.value.value;
      verify(token) == Some(payload) && id == payload.sub && id in table && table[id].status.Active?
  {
    match verify(token)
    case None => Failure(Unauthorized)
    case Some(payload) =>
      if payload.sub == "" then Failure(Unauthorized)
      else if payload.sub !in table || !table[payload.sub].status.Active? then Failure(Forbidden)
      else Success(Some((payload.sub, payload)))
  }

  function ScopeOfToken(token: string, verify: string -> Option<Payload>, table: Table,
                        grants: Id -> seq<Grant>, scope: string, now: int): Decision
  {
    match IdentifyToken(token, verify, table)
    case Failure(e) => Failure(e)
    case Success(who) =>
      var (id, payload) := who.value;
      if IssuedAt(payload) < table[id].tokenMinIat then Failure(Unauthorized)
      else if !HoldsScope(grants(id), scope, now) then Failure(Forbidden)
      else Success(Some((id, payload)))
  }

  function Identify(header: string, verify: string -> Option<Payload>, table: Table): Decision {
    if IsBearer(header) then IdentifyToken(RawToken(header), verify, table) else Success(None)
  }

  function CheckAgentScope(header: string, verify: string -> Option<Payload>, table: Table,
                           grants: Id -> seq<Grant>, scope: string, now: int): Decision
  {
    if IsBearer(header) then ScopeOfToken(RawToken(header), verify, table, grants, scope, now) else Success(None)
  }

  /** The grants are listed a second time, at `later`, for the project. */
  function CheckAgentScopeForProject(header: string, verify: string -> Option<Payload>, table: Table,
                                     grants: Id -> seq<Grant>, scope: string, now: int,
                                     grantsLater: Id -> seq<Grant>, later: int, projectId: string): Decision
  {
    match CheckAgentScope(header, verify, table, grants, scope, now)
    case Success(Some((id, payload))) =>
      if HoldsProjectScope(grantsLater(id), scope, projectId, later) then Success(Some((id, payload)))
      else Failure(Forbidden)
    case other => other
  }

  /** The header presents `token` as a bearer token. */
  predicate Presents(header: string, token: string) {
    IsBearer(header) && RawToken(header) == token
  }

  /** No header that presents `token` passes a scope check, whatever the grants and the clock say. */
  ghost predicate Shut(token: string, verify: string -> Option<Payload>, table: Table) {
    forall header: string, grants: Id -> seq<Grant>, scope: string, now: int :: Presents(header, token) ==>
      !Accepts(CheckAgentScope(header, verify, table, grants, scope, now))
  }

  /** The agent the token speaks for is revoked, or its cutoff has passed the token's `iat`. */
  predicate Withdrawn(p: Payload, table: Table) {
    p.sub in table && (table[p.sub].status.Revoked? || IssuedAt(p) < table[p.sub].tokenMinIat)
  }

  lemma WithdrawnIsRefused(token: string, verify: string -> Option<Payload>, table: Table,
                           grants: Id -> seq<Grant>, scope: string, now: int)
    requires verify(token).Some? && Withdrawn(verify(token).value, table)
    ensures !Accepts(ScopeOfToken(token, verify, table, grants, scope, now))
  {
  }

  lemma WithdrawnIsShut(token: string, verify: string -> Option<Payload>, table: Table)
    requires verify(token).Some? && Withdrawn(verify(token).value, table)
    ensures Shut(token, verify, table)
  {
    forall header: string, grants: Id -> seq<Grant>, scope: string, now: int | Presents(header, token)
      ensures !Accepts(CheckAgentScope(header, verify, table, grants, scope, now))
    {
      WithdrawnIsRefused(token, verify, table, grants, scope, now);
    }
  }

  /**
    Once an agent is revoked, or its cutoff has passed a token's `iat`, no scope check accepts
    that token at any later point of any run that does not delete the row.
  */
  lemma WithdrawalIsFinal(w: World, es: seq<Event>, token: string, verify: string -> Option<Payload>)
    requires Inv(w) && Runnable(w, es)
    requires verify(token).Some? && Withdrawn(verify(token).value, w.table)
    requires !Deletes(es, verify(token).value.sub)
    ensures Shut(token, verify, Run(w, es).table)
  {
    var payload := verify(token).value;
    TrustOnlyShrinks(w, es, payload.sub);
    WithdrawnIsShut(token, verify, Run(w, es).table);
  }

  /** The project check is the scope check and a grant for that project; the token's own claim is ignored. */
  lemma ProjectNeedsGrant(header: string, verify: string -> Option<Payload>, table: Table,
                          grants: Id -> seq<Grant>, scope: string, now: int,
                          grantsLater: Id -> seq<Grant>, later: int, projectId: string)
    ensures var d := CheckAgentScopeForProject(header, verify, table, grants, scope, now, grantsLater, later, projectId);
      var s := CheckAgentScope(header, verify, table, grants, scope, now);
      Accepts(d) <==> Accepts(s) && HoldsProjectScope(grantsLater(s.value.value.0), scope, projectId, later)
  {
  }

  /** A signed token of an active agent, whatever the cutoff says. */
  predicate NamesActiveAgent(token: string, verify: string -> Option<Payload>, table: Table) {
    verify(token).Some? &&
    var p := verify(token).value;
    p.sub != "" && p.sub in table && table[p.sub].status.Active?
  }

  /** Such a token, not superseded by a later cutoff. */
  predicate Trusted(token: string, verify: string -> Option<Payload>, table: Table) {
    NamesActiveAgent(token, verify, table) &&
    var p := verify(token).value;
    IssuedAt(p) >= table[p.sub].tokenMinIat
  }

  lemma IdentifyTokenIs(token: string, verify: string -> Option<Payload>, table: Table)
    ensures IdentifyToken(token, verify, table).Success? <==> NamesActiveAgent(token, verify, table)
    ensures NamesActiveAgent(token, verify, table) ==>
      IdentifyToken(token, verify, table) == Success(Some((verify(token).value.sub, verify(token).value)))
  {
  }

  /** The header bears a trusted token of agent `id`. */
  predicate Bears(header: string, verify: string -> Option<Payload>, table: Table, id: Id) {
    IsBearer(header) && Trusted(RawToken(header), verify, table) && verify(RawToken(header)).value.sub == id
  }

  predicate AcceptsFor(d: Decision, id: Id) {
    Accepts(d) && d.value.value.0 == id
  }

  lemma TokenAcceptsIff(token: string, verify: string -> Option<Payload>, table: Table,
                        grants: Id -> seq<Grant>, scope: string, now: int, id: Id)
    ensures AcceptsFor(ScopeOfToken(token, verify, table, grants, scope, now), id)
      <==> Trusted(token, verify, table) && verify(token).value.sub == id && HoldsScope(grants(id), scope, now)
  {
    IdentifyTokenIs(token, verify, table);
    if NamesActiveAgent(token, verify, table) {
      var p := verify(token).value;
      assert IdentifyToken(token, verify, table) == Success(Some((p.sub, p)));
    }
  }

  /** A scope check accepts exactly a trusted token of an agent that holds the scope. */
  lemma ScopeAcceptsIff(header: string, verify: string -> Option<Payload>, table: Table,
                        grants: Id -> seq<Grant>, scope: string, now: int, id: Id)
    ensures AcceptsFor(CheckAgentScope(header, verify, table, grants, scope, now), id)
      <==> Bears(header, verify, table, id) && HoldsScope(grants(id), scope, now)
  {
    if IsBearer(header) {
      TokenAcceptsIff(RawToken(header), verify, table, grants, scope, now, id);
    }
  }

  /** After the word bearer, in any capitals, and a blank, the header holds `token` between blanks. */
  ghost predicate Carries(header: string, token: string) {
    SaysBearer(header) && TrimmedTo(header[7..], token)
  }

  predicate SaysBearer(header: string) {
    |header| >= 7 && forall k :: 0 <= k < 7 ==> header[k] == "bearer "[k] || header[k] == "BEARER "[k]
  }

  lemma PresentsIff(header: string, token: string)
    ensures Presents(header, token) <==> Carries(header, token)
  {
    if |header| >= 7 {
      StripIff(header[7..], token);
      BearerLetters(header);
    }
  }

  lemma BearerLetters(header: string)
    requires |header| >= 7
    ensures IsBearer(header) <==> SaysBearer(header)
  {
    forall k | 0 <= k < 7
      ensures LowerAscii(header[k]) == BEARER[k] <==> header[k] == "bearer "[k] || header[k] == "BEARER "[k]
    {
      LowersTo(header[k], k);
    }
  }

  lemma LowersTo(c: char, k: nat)
    requires k < 7
    ensures LowerAscii(c) == BEARER[k] <==> c == "bearer "[k] || c == "BEARER "[k]
  {
  }

  /** The payload is signed and speaks for an active agent `id` whose cutoff is not after it. */
  predicate SpeaksFor(p: Payload, table: Table, id: Id) {
    && p.sub == id && id != "" && id in table && table[id].status == Active
    && table[id].tokenMinIat <= match p.iat { case Some(iat) => iat case None => 0 }
  }

  /** A grant of the scope without an expiry, or with one that still lies ahead; for the project, if one is named. */
  predicate Grants(g: Grant, scope: string, project: Option<string>, now: int) {
    && g.scope == scope
    && (project.Some? ==> g.projectId == project)
    && (g.expires == Never || (g.expires.At? && g.expires.instant > now))
  }

  lemma HoldsIff(grants: seq<Grant>, scope: string, project: string, now: int)
    ensures HoldsScope(grants, scope, now) <==> exists g :: g in grants && Grants(g, scope, None, now)
    ensures HoldsProjectScope(grants, scope, project, now) <==> exists g :: g in grants && Grants(g, scope, Some(project), now)
  {
    assert forall k :: 0 <= k < |grants| ==> grants[k] in grants;
    forall k | 0 <= k < |grants|
      ensures Grants(grants[k], scope, None, now)
        <==> grants[k].scope == scope && GrantUnexpired(grants[k].expires, now)
      ensures Grants(grants[k], scope, Some(project), now)
        <==> grants[k].scope == scope && grants[k].projectId == Some(project) && GrantUnexpired(grants[k].expires, now)
    {
    }
  }

  /** A header carries one token at most, and one that says bearer carries one. */
  lemma CarriesIff(header: string, token: string)
    ensures Carries(header, token) <==> IsBearer(header) && RawToken(header) == token
  {
    PresentsIff(header, token);
  }

  lemma BearerCarriesOne(header: string) returns (token: string)
    requires SaysBearer(header)
    ensures Carries(header, token)
  {
    BearerLetters(header);
    token := RawToken(header);
    CarriesIff(header, token);
  }

  lemma TokenDecides(token: string, verify: string -> Option<Payload>, table: Table,
                     grants: Id -> seq<Grant>, scope: string, now: int)
    ensures ScopeOfToken(token, verify, table, grants, scope, now) != Success(None)
  {
  }

  lemma BearerIff(header: string)
    ensures IsBearer(header) <==> SaysBearer(header)
  {
    if |header| >= 7 {
      BearerLetters(header);
    }
  }

  /** Without a bearer token there is no decision. */
  lemma NoTokenNoDecision(header: string, verify: string -> Option<Payload>, table: Table,
                          grants: Id -> seq<Grant>, scope: string, now: int)
    ensures CheckAgentScope(header, verify, table, grants, scope, now) == Success(None) <==> !SaysBearer(header)
  {
    BearerIff(header);
    if IsBearer(header) {
      TokenDecides(RawToken(header), verify, table, grants, scope, now);
    }
  }

  lemma TokenSpeaks(header: string, token: string, verify: string -> Option<Payload>, table: Table, id: Id)
    requires Carries(header, token)
    ensures Bears(header, verify, table, id) <==> verify(token).Some? && SpeaksFor(verify(token).value, table, id)
  {
    CarriesIff(header, token);
  }

  /**
    The scope check lets a header in as `id` exactly when the token it carries is signed, speaks for
    the active agent `id` and is not older than its cutoff, and the agent has a grant of the scope
    that has not expired.
  */
  lemma ScopeAcceptsExactly(header: string, token: string, verify: string -> Option<Payload>, table: Table,
                            grants: Id -> seq<Grant>, scope: string, now: int, id: Id)
    requires Carries(header, token)
    ensures AcceptsFor(CheckAgentScope(header, verify, table, grants, scope, now), id)
      <==> && verify(token).Some? && SpeaksFor(verify(token).value, table, id)
           && exists g :: g in grants(id) && Grants(g, scope, None, now)
  {
    ScopeAcceptsIff(header, verify, table, grants, scope, now, id);
    HoldsIff(grants(id), scope, "", now);
    TokenSpeaks(header, token, verify, table, id);
  }

  /** A token that is not accepted is answered with 401 or 403, each with its exact causes. */
  lemma ScopeRefusesExactly(header: string, token: string, verify: string -> Option<Payload>, table: Table,
                            grants: Id -> seq<Grant>, scope: string, now: int)
    requires Carries(header, token)
    ensures CheckAgentScope(header, verify, table, grants, scope, now) == Failure(Unauthorized) <==>
      match verify(token)
      case None => true
      case Some(p) => p.sub == "" || (p.sub in table && table[p.sub].status == Active && !SpeaksFor(p, table, p.sub))
    ensures CheckAgentScope(header, verify, table, grants, scope, now) == Failure(Forbidden) <==>
      match verify(token)
      case None => false
      case Some(p) =>
        && p.sub != ""
        && (p.sub in table && table[p.sub].status == Active ==>
              SpeaksFor(p, table, p.sub) && !exists g :: g in grants(p.sub) && Grants(g, scope, None, now))
  {
    CarriesIff(header, token);
    if verify(token).Some? {
      HoldsIff(grants(verify(token).value.sub), scope, "", now);
    }
  }

  /** The same for the project check, whose second list must hold a current grant for that project. */
  lemma ProjectAcceptsExactly(header: string, token: string, verify: string -> Option<Payload>, table: Table,
                              grants: Id -> seq<Grant>, scope: string, now: int,
                              grantsLater: Id -> seq<Grant>, later: int, projectId: string, id: Id)
    requires Carries(header, token)
    ensures var d := CheckAgentScopeForProject(header, verify, table, grants, scope, now, grantsLater, later, projectId);
      AcceptsFor(d, id)
      <==> && verify(token).Some? && SpeaksFor(verify(token).value, table, id)
           && (exists g :: g in grants(id) && Grants(g, scope, None, now))
           && (exists g :: g in grantsLater(id) && Grants(g, scope, Some(projectId), later))
  {
    ProjectAcceptsIff(header, verify, table, grants, scope, now, grantsLater, later, projectId, id);
    HoldsIff(grants(id), scope, projectId, now);
    HoldsIff(grantsLater(id), scope, projectId, later);
    TokenSpeaks(header, token, verify, table, id);
  }

  /**
    The project check lists the grants twice, and the two lists may differ.  It accepts exactly a
    trusted token whose agent holds the scope for anything in the first list and for the project
    in the second.
  */
  lemma ProjectAcceptsIff(header: string, verify: string -> Option<Payload>, table: Table,
                          grants: Id -> seq<Grant>, scope: string, now: int,
                          grantsLater: Id -> seq<Grant>, later: int, projectId: string, id: Id)
    ensures var d := CheckAgentScopeForProject(header, verify, table, grants, scope, now, grantsLater, later, projectId);
      AcceptsFor(d, id)
      <==> && Bears(header, verify, table, id) && HoldsScope(grants(id), scope, now)
           && HoldsProjectScope(grantsLater(id), scope, projectId, later)
  {
    ScopeAcceptsIff(header, verify, table, grants, scope, now, id);
  }

  /** Whatever the second list holds unexpired, the first one held unexpired: no grant was added in between. */
  predicate GrantsStand(grants: seq<Grant>, now: int, grantsLater: seq<Grant>, later: int) {
    forall k :: 0 <= k < |grantsLater| && GrantUnexpired(grantsLater[k].expires, later) ==>
      grantsLater[k] in grants && GrantUnexpired(grantsLater[k].expires, now)
  }

  lemma ProjectGrantIsGrant(grants: seq<Grant>, now: int, grantsLater: seq<Grant>, later: int, scope: string, projectId: string)
    requires GrantsStand(grants, now, grantsLater, later) && HoldsProjectScope(grantsLater, scope, projectId, later)
    ensures HoldsScope(grants, scope, now)
  {
    var k :| 0 <= k < |grantsLater| && grantsLater[k].scope == scope && grantsLater[k].projectId == Some(projectId)
      && GrantUnexpired(grantsLater[k].expires, later);
    var i :| 0 <= i < |grants| && grants[i] == grantsLater[k];
  }

  /**
    As long as no grant is made between the two lists, one trusted token opens every project its
    agent still holds a current grant of the scope for, and no other project; no grant beyond that
    one is needed, and no other token opens any.
  */
  lemma GrantsOpenProjects(header: string, verify: string -> Option<Payload>, table: Table,
                           grants: Id -> seq<Grant>, scope: string, now: int,
                           grantsLater: Id -> seq<Grant>, later: int, projectId: string, id: Id)
    requires GrantsStand(grants(id), now, grantsLater(id), later)
    ensures var d := CheckAgentScopeForProject(header, verify, table, grants, scope, now, grantsLater, later, projectId);
      AcceptsFor(d, id) <==> Bears(header, verify, table, id) && HoldsProjectScope(grantsLater(id), scope, projectId, later)
  {
    ProjectAcceptsIff(header, verify, table, grants, scope, now, grantsLater, later, projectId, id);
    if HoldsProjectScope(grantsLater(id), scope, projectId, later) {
      ProjectGrantIsGrant(grants(id), now, grantsLater(id), later, scope, projectId);
    }
  }

  /** `verify` with the `project_id` claim of every payload replaced. */
  function Reclaimed(verify: string -> Option<Payload>, claim: Option<string>): string -> Option<Payload> {
    (token: string) => match verify(token) case None => None case Some(p) => Some(p.(projectId := claim))
  }

  lemma ScopeIgnoresClaim(token: string, verify: string -> Option<Payload>, claim: Option<string>, table: Table,
                          grants: Id -> seq<Grant>, scope: string, now: int)
    ensures var d := ScopeOfToken(token, verify, table, grants, scope, now);
      var e := ScopeOfToken(token, Reclaimed(verify, claim), table, grants, scope, now);
      Accepts(d) == Accepts(e) && (Accepts(d) ==> d.value.value.0 == e.value.value.0)
  {
  }

  /** Changing nothing but the token's `project_id` claim changes no decision. */
  lemma ProjectClaimIsAdvisory(header: string, verify: string -> Option<Payload>, claim: Option<string>, table: Table,
                               grants: Id -> seq<Grant>, scope: string, now: int,
                               grantsLater: Id -> seq<Grant>, later: int, projectId: string)
    ensures var other := Reclaimed(verify, claim);
      Accepts(CheckAgentScopeForProject(header, verify, table, grants, scope, now, grantsLater, later, projectId))
      <==> Accepts(CheckAgentScopeForProject(header, other, table, grants, scope, now, grantsLater, later, projectId))
  {
    if IsBearer(header) {
      ScopeIgnoresClaim(RawToken(header), verify, claim, table, grants, scope, now);
    }
    ProjectNeedsGrant(header, verify, table, grants, scope, now, grantsLater, later, projectId);
    ProjectNeedsGrant(header, Reclaimed(verify, claim), table, grants, scope, now, grantsLater, later, projectId);
  }

  /** Such a token, issued before its agent's cutoff. */
  predicate Superseded(token: string, verify: string -> Option<Payload>, table: Table) {
    NamesActiveAgent(token, verify, table) &&
    var p := verify(token).value;
    IssuedAt(p) < table[p.sub].tokenMinIat
  }

  /** No scope check accepts the header, whatever the grants and the clock say. */
  ghost predicate NeverInScope(header: string, verify: string -> Option<Payload>, table: Table) {
    forall grants: Id -> seq<Grant>, scope: string, now: int ::
      !Accepts(CheckAgentScope(header, verify, table, grants, scope, now))
  }

  lemma IdentityAcceptsIff(header: string, verify: string -> Option<Payload>, table: Table)
    ensures Accepts(Identify(header, verify, table))
      <==> IsBearer(header) && NamesActiveAgent(RawToken(header), verify, table)
  {
  }

  lemma InScopeOnce(header: string, verify: string -> Option<Payload>, table: Table,
                    grants: Id -> seq<Grant>, scope: string, now: int)
    ensures NeverInScope(header, verify, table)
      ==> !Accepts(CheckAgentScope(header, verify, table, grants, scope, now))
  {
  }

  lemma TrustedHolder(header: string, verify: string -> Option<Payload>, table: Table, id: Id,
                      grants: Id -> seq<Grant>, held: seq<Grant>, scope: string, now: int)
    requires grants(id) == held && HoldsScope(held, scope, now)
    ensures Bears(header, verify, table, id) ==> !NeverInScope(header, verify, table)
  {
    ScopeAcceptsIff(header, verify, table, grants, scope, now, id);
    InScopeOnce(header, verify, table, grants, scope, now);
  }

  lemma NeverExpires(scope: string, now: int)
    ensures HoldsScope([Grant(scope, None, Never)], scope, now)
  {
    assert [Grant(scope, None, Never)][0].scope == scope;
  }

  lemma TrustedIsInScope(header: string, verify: string -> Option<Payload>, table: Table, id: Id, scope: string, now: int)
    ensures Bears(header, verify, table, id) ==> !NeverInScope(header, verify, table)
  {
    var held := [Grant(scope, None, Never)];
    NeverExpires(scope, now);
    TrustedHolder(header, verify, table, id, (i: Id) => held, held, scope, now);
  }

  lemma UntrustedIsNeverInScope(header: string, verify: string -> Option<Payload>, table: Table)
    requires forall id :: !Bears(header, verify, table, id)
    ensures NeverInScope(header, verify, table)
  {
    forall grants: Id -> seq<Grant>, scope: string, now: int
      ensures !Accepts(CheckAgentScope(header, verify, table, grants, scope, now))
    {
      var d := CheckAgentScope(header, verify, table, grants, scope, now);
      if Accepts(d) {
        ScopeAcceptsIff(header, verify, table, grants, scope, now, d.value.value.0);
        assert false;
      }
    }
  }

  /**
    The identity check ignores the cutoff: it accepts a header that no scope check would ever
    accept exactly when the header bears a superseded token of an active agent.
  */
  lemma IdentityIgnoresCutoff(header: string, verify: string -> Option<Payload>, table: Table)
    ensures Accepts(Identify(header, verify, table)) && NeverInScope(header, verify, table)
      <==> IsBearer(header) && Superseded(RawToken(header), verify, table)
  {
    IdentityAcceptsIff(header, verify, table);
    if IsBearer(header) && Trusted(RawToken(header), verify, table) {
      TrustedIsInScope(header, verify, table, verify(RawToken(header)).value.sub, "", 0);
    } else {
      UntrustedIsNeverInScope(header, verify, table);
    }
  }
}
