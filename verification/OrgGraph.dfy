/**
  The reporting graph of tinyagentos/agent_registry_store.py: each agent has at most one
  manager, and `set_reporting` walks a bounded stretch of the manager's own chain before it
  writes an edge.
*/
module OrgGraphs {
  import opened Wrappers

  type Id = string

  /** The `reports_to` column, by canonical id. */
  type Graph = map<Id, Option<Id>>

  const MAX_REPORTS_TO_WALK := 50

  /** One step of the walk: the manager of `x`, if `x` has a row with one. */
  function Next(g: Graph, x: Id): Option<Id> {
    if x in g then g[x] else None
  }

  function Ancestor(g: Graph, x: Id, n: nat): Option<Id> {
    if n == 0 then Some(x) else
      match Ancestor(g, x, n - 1)
      case None => None
      case Some(y) => Next(g, y)
  }

  ghost predicate Acyclic(g: Graph) {
    forall x, n: nat :: n >= 1 ==> Ancestor(g, x, n) != Some(x)
  }

  ghost predicate Above(g: Graph, x: Id, y: Id) {
    exists n: nat :: Ancestor(g, x, n) == Some(y)
  }

  /** `y` is one of the first `n` stops on the chain from `x`. */
  ghost predicate MetWithin(g: Graph, x: Id, n: nat, y: Id) {
    exists k: nat :: k < n && Ancestor(g, x, k) == Some(y)
  }

  lemma MetWithinMore(g: Graph, x: Id, n: nat)
    ensures forall y :: MetWithin(g, x, n, y) ==> MetWithin(g, x, n + 1, y)
    ensures Ancestor(g, x, n).Some? ==> MetWithin(g, x, n + 1, Ancestor(g, x, n).value)
  {
    forall y | MetWithin(g, x, n, y)
      ensures MetWithin(g, x, n + 1, y)
    {
      var k: nat :| k < n && Ancestor(g, x, k) == Some(y);
      assert k < n + 1;
    }
    assert n < n + 1;
  }

  // ---- walking ---------------------------------------------------------------------------

  lemma {:induction false} AncestorAdd(g: Graph, x: Id, m: nat, y: Id, n: nat)
    requires Ancestor(g, x, m) == Some(y)
    ensures Ancestor(g, x, m + n) == Ancestor(g, y, n)
  {
    if n > 0 {
      AncestorAdd(g, x, m, y, n - 1);
      assert m + n - 1 == m + (n - 1);
    }
  }

  /** A chain that reaches an existing row passes through existing rows only. */
  lemma {:induction false} AncestorsExist(g: Graph, x: Id, m: nat, n: nat)
    requires m <= n && Ancestor(g, x, n).Some? && Ancestor(g, x, n).value in g
    ensures Ancestor(g, x, m).Some? && Ancestor(g, x, m).value in g
    decreases n - m
  {
    if m < n {
      AncestorsExist(g, x, m + 1, n);
    }
  }

  /** The rows met on the first n+1 stops of an acyclic chain are n+1 different rows. */
  lemma {:induction false} ChainIsShort(g: Graph, x: Id, n: nat) returns (met: set<Id>)
    requires Acyclic(g) && Ancestor(g, x, n).Some? && Ancestor(g, x, n).value in g
    ensures met <= g.Keys && |met| == n + 1
    ensures forall y :: y in met ==> MetWithin(g, x, n + 1, y)
  {
    var last := Ancestor(g, x, n).value;
    if n == 0 {
      met := {last};
    } else {
      AncestorsExist(g, x, n - 1, n);
      var before := ChainIsShort(g, x, n - 1);
      if last in before {
        var k: nat :| k < n && Ancestor(g, x, k) == Some(last);
        AncestorAdd(g, x, k, last, n - k);
        assert false;
      }
      met := before + {last};
    }
    MetWithinMore(g, x, n);
  }

  lemma ChainBound(g: Graph, x: Id, n: nat)
    requires Acyclic(g) && Ancestor(g, x, n).Some? && Ancestor(g, x, n).value in g
    ensures n < |g|
  {
    var met := ChainIsShort(g, x, n);
    SubsetIsSmaller(met, g.Keys);
    assert |g| == |g.Keys|;
  }

  // ---- changing an edge --------------------------------------------------------------------

  /** Two graphs that differ at `c` only agree on every chain that does not pass `c`. */
  lemma {:induction false} SameChain(g: Graph, g': Graph, c: Id, x: Id, n: nat)
    requires forall y :: y != c ==> Next(g', y) == Next(g, y)
    requires forall k: nat :: k < n ==> Ancestor(g, x, k) != Some(c)
    ensures Ancestor(g', x, n) == Ancestor(g, x, n)
  {
    if n > 0 {
      SameChain(g, g', c, x, n - 1);
    }
  }

  /** An edge from `c` closes no cycle if `c` is not above its new manager. */
  lemma NewEdgeAcyclic(g: Graph, c: Id, m: Id)
    requires Acyclic(g) && !Above(g, m, c)
    ensures Acyclic(g[c := Some(m)])
  {
    var g' := g[c := Some(m)];
    forall x, n: nat | n >= 1
      ensures Ancestor(g', x, n) != Some(x)
    {
      if Ancestor(g', x, n) == Some(x) {
        if k: nat :| k < n && Ancestor(g', x, k) == Some(c) {
          AncestorAdd(g', x, n, x, k);
          AncestorAdd(g', x, k, c, n);
          assert n + k == k + n;
          assert Ancestor(g', c, 1) == Some(m);
          AncestorAdd(g', c, 1, m, n - 1);
          assert Ancestor(g', m, n - 1) == Some(c);
          SameChain(g, g', c, m, n - 1);
          assert false;
        } else {
          SameChain(g', g, c, x, n);
          assert false;
        }
      }
    }
  }

  /** The converse: an edge from something above the new manager closes a cycle. */
  lemma EdgeBelowClosesCycle(g: Graph, c: Id, m: Id)
    requires Above(g, m, c)
    ensures !Acyclic(g[c := Some(m)])
  {
    var g' := g[c := Some(m)];
    var n: nat :| Ancestor(g, m, n) == Some(c);
    var k := FirstVisit(g, m, c, n);
    SameChain(g, g', c, m, k);
    assert Ancestor(g', c, 1) == Some(m);
    AncestorAdd(g', c, 1, m, k);
    assert Ancestor(g', c, 1 + k) == Some(c);
  }

  lemma {:induction false} FirstVisit(g: Graph, x: Id, y: Id, n: nat) returns (k: nat)
    requires Ancestor(g, x, n) == Some(y)
    ensures Ancestor(g, x, k) == Some(y) && forall j: nat :: j < k ==> Ancestor(g, x, j) != Some(y)
  {
    if j: nat :| j < n && Ancestor(g, x, j) == Some(y) {
      k := FirstVisit(g, x, y, j);
    } else {
      k := n;
    }
  }

  /** Dropping edges or rows leaves only stretches of the old chains. */
  lemma {:induction false} FewerEdges(g: Graph, g': Graph, x: Id, n: nat)
    requires forall y :: Next(g', y) == Next(g, y) || Next(g', y) == None
    ensures Ancestor(g', x, n).None? || Ancestor(g', x, n) == Ancestor(g, x, n)
  {
    if n > 0 {
      FewerEdges(g, g', x, n - 1);
    }
  }

  lemma FewerEdgesAcyclic(g: Graph, g': Graph)
    requires Acyclic(g)
    requires forall y :: Next(g', y) == Next(g, y) || Next(g', y) == None
    ensures Acyclic(g')
  {
    forall x, n: nat | n >= 1
      ensures Ancestor(g', x, n) != Some(x)
    {
      FewerEdges(g, g', x, n);
    }
  }

  /** No row names `n` as its manager. */
  ghost predicate NotNamed(g: Graph, n: Id) {
    forall x :: x in g ==> g[x] != Some(n)
  }

  lemma {:induction false} NobodyReaches(g: Graph, n: Id, x: Id, k: nat)
    requires NotNamed(g, n) && x != n
    ensures Ancestor(g, x, k) != Some(n)
  {
    if k > 0 {
      NobodyReaches(g, n, x, k - 1);
    }
  }

  /** A new row nobody names, with no manager or an existing one, closes no cycle. */
  lemma NewRowAcyclic(g: Graph, n: Id, manager: Option<Id>)
    requires Acyclic(g) && NotNamed(g, n) && n !in g
    requires manager.Some? ==> manager.value in g
    ensures Acyclic(g[n := manager])
  {
    match manager {
      case None => FewerEdgesAcyclic(g, g[n := None]);
      case Some(m) =>
        forall k: nat
          ensures Ancestor(g, m, k) != Some(n)
        {
          NobodyReaches(g, n, m, k);
        }
        NewEdgeAcyclic(g, n, m);
    }
  }

  // ---- one call, undisturbed ----------------------------------------------------------------

  datatype ReportingError = UnknownAgent | SelfReport | ManagerNotFound | WouldCycle

  /** The bounded walk: does it meet `agent` before it stops? */
  function WalkMeets(g: Graph, agent: Id, current: Option<Id>, seen: set<Id>, depth: nat, cap: nat): bool
    decreases if depth < cap then cap - depth else 0
  {
    if current.None? || depth >= cap then false
    else if current.value == agent then true
    else if current.value in seen then false
    else WalkMeets(g, agent, Next(g, current.value), seen + {current.value}, depth + 1, cap)
  }

  function SetReporting(g: Graph, agent: Id, manager: Option<Id>, cap: nat): Result<Graph, ReportingError> {
    if agent !in g then Failure(UnknownAgent)
    else if manager.None? then Success(g[agent := None])
    else if manager.value == agent then Failure(SelfReport)
    else if manager.value !in g then Failure(ManagerNotFound)
    else if WalkMeets(g, agent, manager, {}, 0, cap) then Failure(WouldCycle)
    else Success(g[agent := manager])
  }

  /** What the walk has established once it stands `depth` stops above `manager`. */
  ghost predicate WalkSoFar(g: Graph, agent: Id, manager: Id, current: Option<Id>, seen: set<Id>, depth: nat) {
    forall k: nat :: Ancestor(g, manager, k) == Some(agent) ==>
      && k >= depth
      && Ancestor(g, manager, depth) == current
      && (forall y :: y in seen ==> MetWithin(g, manager, depth, y))
  }

  lemma WalkAdvances(g: Graph, agent: Id, manager: Id, current: Id, seen: set<Id>, depth: nat)
    requires WalkSoFar(g, agent, manager, Some(current), seen, depth) && current != agent
    ensures WalkSoFar(g, agent, manager, Next(g, current), seen + {current}, depth + 1)
  {
    forall k: nat | Ancestor(g, manager, k) == Some(agent)
      ensures k >= depth + 1 && Ancestor(g, manager, depth + 1) == Next(g, current)
      ensures forall y :: y in seen + {current} ==> MetWithin(g, manager, depth + 1, y)
    {
      MetWithinMore(g, manager, depth);
    }
  }

  lemma {:induction false} NoneStays(g: Graph, x: Id, m: nat, n: nat)
    requires m <= n && Ancestor(g, x, m) == None
    ensures Ancestor(g, x, n) == None
  {
    if m < n {
      NoneStays(g, x, m, n - 1);
    }
  }

  /** A chain that has come back to an earlier stop meets nothing new. */
  lemma {:induction false} NothingBehindLoop(g: Graph, manager: Id, agent: Id, y: Id, i: nat, depth: nat, k: nat)
    requires i < depth && Ancestor(g, manager, i) == Some(y) && Ancestor(g, manager, depth) == Some(y)
    requires Ancestor(g, manager, k) == Some(agent)
    ensures MetWithin(g, manager, depth, agent)
    decreases k
  {
    if k >= depth {
      AncestorAdd(g, manager, depth, y, k - depth);
      AncestorAdd(g, manager, i, y, k - depth);
      NothingBehindLoop(g, manager, agent, y, i, depth, i + (k - depth));
    }
  }

  /** A walk that stops without meeting `agent` has shown that the agent is not among the first `cap` stops. */
  lemma WalkClears(g: Graph, agent: Id, manager: Id, current: Option<Id>, seen: set<Id>, depth: nat, cap: nat)
    requires WalkSoFar(g, agent, manager, current, seen, depth)
    requires current.None? || depth >= cap || (current.value != agent && current.value in seen)
    ensures !MetWithin(g, manager, cap, agent)
  {
    if MetWithin(g, manager, cap, agent) {
      var k: nat :| k < cap && Ancestor(g, manager, k) == Some(agent);
      if current.None? {
        NoneStays(g, manager, depth, k);
      } else {
        var y := current.value;
        var i: nat :| i < depth && Ancestor(g, manager, i) == Some(y);
        NothingBehindLoop(g, manager, agent, y, i, depth, k);
      }
      assert false;
    }
  }

  /** On any graph, with or without cycles, the walk meets the agent exactly when it is among the first `cap` stops. */
  lemma {:induction false} WalkDecides(g: Graph, agent: Id, manager: Id, current: Option<Id>, seen: set<Id>, depth: nat, cap: nat)
    requires Ancestor(g, manager, depth) == current
    requires WalkSoFar(g, agent, manager, current, seen, depth)
    ensures WalkMeets(g, agent, current, seen, depth, cap) <==> MetWithin(g, manager, cap, agent)
    decreases if depth < cap then cap - depth else 0
  {
    if current.None? || depth >= cap || (current.value != agent && current.value in seen) {
      WalkClears(g, agent, manager, current, seen, depth, cap);
    } else if current.value == agent {
      assert depth < cap && Ancestor(g, manager, depth) == Some(agent);
    } else {
      WalkAdvances(g, agent, manager, current.value, seen, depth);
      WalkDecides(g, agent, manager, Next(g, current.value), seen + {current.value}, depth + 1, cap);
    }
  }

  /** Why a call is refused: on any graph, each error has its exact condition. */
  ghost predicate Refused(g: Graph, agent: Id, manager: Option<Id>, cap: nat, e: ReportingError) {
    match e
    case UnknownAgent => agent !in g
    case SelfReport => agent in g && manager == Some(agent)
    case ManagerNotFound => agent in g && manager.Some? && manager.value != agent && manager.value !in g
    case WouldCycle =>
      && agent in g && manager.Some? && manager.value != agent && manager.value in g
      && exists k: nat :: k < cap && Ancestor(g, manager.value, k) == Some(agent)
  }

  /** An edit is refused for the reasons above and no other; an accepted one writes the edge asked for. */
  lemma SetReportingDecides(g: Graph, agent: Id, manager: Option<Id>, cap: nat)
    ensures forall e :: SetReporting(g, agent, manager, cap) == Failure(e) <==> Refused(g, agent, manager, cap, e)
    ensures SetReporting(g, agent, manager, cap).Success? ==>
      SetReporting(g, agent, manager, cap).value == g[agent := manager]
  {
    if manager.Some? {
      WalkDecides(g, agent, manager.value, manager, {}, 0, cap);
    }
  }

  /** The agent is above the manager, but only beyond the stretch that is walked. */
  ghost predicate BeyondCap(g: Graph, manager: Id, agent: Id, cap: nat) {
    exists k: nat :: k >= cap && Ancestor(g, manager, k) == Some(agent)
  }

  lemma MetOrBeyond(g: Graph, manager: Id, agent: Id, cap: nat)
    ensures Above(g, manager, agent) <==> MetWithin(g, manager, cap, agent) || BeyondCap(g, manager, agent, cap)
  {
    if Above(g, manager, agent) {
      var k: nat :| Ancestor(g, manager, k) == Some(agent);
      assert k < cap || k >= cap;
    }
  }

  lemma NotBoth(g: Graph, manager: Id, agent: Id, cap: nat)
    requires Acyclic(g) && MetWithin(g, manager, cap, agent)
    ensures !BeyondCap(g, manager, agent, cap)
  {
    var i: nat :| i < cap && Ancestor(g, manager, i) == Some(agent);
    forall k: nat | k >= cap
      ensures Ancestor(g, manager, k) != Some(agent)
    {
      AncestorAdd(g, manager, i, agent, k - i);
    }
  }

  /** An edge closes a cycle exactly when the agent is above the manager. */
  lemma NewEdgeIff(g: Graph, agent: Id, manager: Id)
    requires Acyclic(g)
    ensures Acyclic(g[agent := Some(manager)]) <==> !Above(g, manager, agent)
  {
    if Above(g, manager, agent) {
      EdgeBelowClosesCycle(g, agent, manager);
    } else {
      NewEdgeAcyclic(g, agent, manager);
    }
  }

  /**
    For an acyclic graph of any size: an edit that closes a cycle is accepted if and only if the
    agent is above the manager by `cap` stops or more.
  */
  lemma CycleSlipsThroughIff(g: Graph, agent: Id, manager: Id, cap: nat)
    requires Acyclic(g) && agent in g && manager in g && manager != agent
    ensures SetReporting(g, agent, Some(manager), cap).Success? && !Acyclic(g[agent := Some(manager)])
       <==> BeyondCap(g, manager, agent, cap)
    ensures SetReporting(g, agent, Some(manager), cap).Failure? ==> !Acyclic(g[agent := Some(manager)])
  {
    WalkDecides(g, agent, manager, Some(manager), {}, 0, cap);
    MetOrBeyond(g, manager, agent, cap);
    NewEdgeIff(g, agent, manager);
    if MetWithin(g, manager, cap, agent) {
      NotBoth(g, manager, agent, cap);
    }
  }

  lemma FewAgentsNoneBeyond(g: Graph, manager: Id, agent: Id, cap: nat)
    requires Acyclic(g) && |g| <= cap && agent in g
    ensures !BeyondCap(g, manager, agent, cap)
  {
    if BeyondCap(g, manager, agent, cap) {
      var k: nat :| k >= cap && Ancestor(g, manager, k) == Some(agent);
      ChainBound(g, manager, k);
      assert false;
    }
  }

  /**
    With at most `cap` agents the bounded walk is exact: between existing agents an edit is
    accepted if and only if the edge closes no cycle.
  */
  lemma SetReportingIsExact(g: Graph, agent: Id, manager: Id, cap: nat)
    requires Acyclic(g) && |g| <= cap && agent in g && manager in g
    ensures SetReporting(g, agent, Some(manager), cap).Success? <==> Acyclic(g[agent := Some(manager)])
  {
    if manager == agent {
      assert Ancestor(g[agent := Some(agent)], agent, 1) == Some(agent);
    } else {
      FewAgentsNoneBeyond(g, manager, agent, cap);
      CycleSlipsThroughIff(g, agent, manager, cap);
    }
  }

  /** Every accepted edit keeps the graph acyclic, unless it reaches beyond the walk. */
  lemma SetReportingKeepsAcyclic(g: Graph, agent: Id, manager: Option<Id>, cap: nat)
    requires Acyclic(g) && SetReporting(g, agent, manager, cap).Success?
    ensures Acyclic(SetReporting(g, agent, manager, cap).value)
       <==> manager.None? || !BeyondCap(g, manager.value, agent, cap)
  {
    match manager {
      case None => FewerEdgesAcyclic(g, g[agent := None]);
      case Some(m) => CycleSlipsThroughIff(g, agent, m, cap);
    }
  }
}
