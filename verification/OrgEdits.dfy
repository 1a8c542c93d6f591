/**
  `set_reporting` as it runs: under a lock, but with an await at every read, where `register`
  and `delete`, which take no lock, may change the table.
*/
module OrgEdits {
  import opened Wrappers
  import opened OrgGraphs

  /** Where the call that holds the reporting lock is suspended. */
  datatype Stage =
    | ReadAgent
    | ReadManager
    | Walking(current: Option<Id>, seen: set<Id>, depth: nat)
    | Writing

  datatype Lock =
    | Free
    | Held(agent: Id, manager: Option<Id>, stage: Stage)

  datatype Registry = Registry(reports: Graph, lock: Lock)

  datatype Step =
    | Acquire(agent: Id, manager: Option<Id>)
    | Proceed
    | Abort                                  // the call holding the lock is cancelled
    | Register(id: Id, manager: Option<Id>)
    | Delete(id: Id)

  /** A row is registered under an id that has no row yet, with whatever manager is asked for. */
  predicate Enabled(r: Registry, s: Step) {
    match s
    case Acquire(_, _) => r.lock.Free?
    case Proceed => r.lock.Held?
    case Abort => r.lock.Held?
    case Register(id, _) => id !in r.reports
    case Delete(_) => true
  }

  /** What `register` leaves to its callers: nobody refers to the id yet, and the manager has a row. */
  ghost predicate Orderly(r: Registry, s: Step) {
    s.Register? ==>
      && NotNamed(r.reports, s.id)
      && (r.lock.Held? ==> r.lock.manager != Some(s.id))
      && (s.manager.Some? ==> s.manager.value in r.reports)
  }

  /** From one await of the lock holder to the next. */
  function Advance(g: Graph, agent: Id, manager: Option<Id>, stage: Stage, cap: nat): Registry {
    match stage
    case ReadAgent =>
      if agent !in g || manager == Some(agent) then Registry(g, Free)
      else Registry(g, Held(agent, manager, if manager.None? then Writing else ReadManager))
    case ReadManager =>
      if manager.None? || manager.value !in g then Registry(g, Free)
      else Registry(g, Held(agent, manager, Walking(manager, {}, 0)))
    case Walking(current, seen, depth) =>
      if current.None? || depth >= cap then Registry(g, Held(agent, manager, Writing))
      else if current.value == agent then Registry(g, Free)
      else if current.value in seen then Registry(g, Held(agent, manager, Writing))
      else Registry(g, Held(agent, manager, Walking(Next(g, current.value), seen + {current.value}, depth + 1)))
    case Writing =>
      Registry(if agent in g then g[agent := manager] else g, Free)
  }

  function Apply(r: Registry, s: Step, cap: nat): Registry {
    match s
    case Acquire(agent, manager) => r.(lock := Held(agent, manager, ReadAgent))
    case Proceed =>
      if r.lock.Held? then Advance(r.reports, r.lock.agent, r.lock.manager, r.lock.stage, cap) else r
    case Abort => r.(lock := Free)
    case Register(id, manager) => r.(reports := r.reports[id := manager])
    case Delete(id) => r.(reports := r.reports - {id})
  }

  predicate Runnable(r: Registry, steps: seq<Step>, cap: nat)
    decreases |steps|
  {
    steps == [] || (Enabled(r, steps[0]) && Runnable(Apply(r, steps[0], cap), steps[1..], cap))
  }

  function Run(r: Registry, steps: seq<Step>, cap: nat): Registry
    decreases |steps|
  {
    if steps == [] then r else Run(Apply(r, steps[0], cap), steps[1..], cap)
  }

  // ---- the invariant -----------------------------------------------------------------------

  /** What the lock holder has established at each stage. */
  ghost predicate HolderInv(g: Graph, agent: Id, manager: Option<Id>, stage: Stage, cap: nat) {
    match stage
    case ReadAgent => true
    case ReadManager => manager.Some? && manager.value != agent
    case Walking(current, seen, depth) =>
      manager.Some? && manager.value != agent && WalkSoFar(g, agent, manager.value, current, seen, depth)
    case Writing =>
      manager.Some? ==> manager.value != agent && (agent in g ==> !MetWithin(g, manager.value, cap, agent))
  }

  ghost predicate Inv(r: Registry, cap: nat) {
    && Acyclic(r.reports)
    && (r.lock.Held? ==> HolderInv(r.reports, r.lock.agent, r.lock.manager, r.lock.stage, cap))
  }

  /** The chain from `m` is the same in both graphs, or only a stretch of it is left. */
  ghost predicate ChainShrinks(g: Graph, g': Graph, m: Id) {
    forall n: nat :: Ancestor(g', m, n).None? || Ancestor(g', m, n) == Ancestor(g, m, n)
  }

  lemma {:induction false} ShrunkChainIsWhole(g: Graph, g': Graph, m: Id, i: nat, n: nat)
    requires ChainShrinks(g, g', m) && i <= n && Ancestor(g', m, n).Some?
    ensures Ancestor(g', m, i) == Ancestor(g, m, i)
    decreases n - i
  {
    if Ancestor(g', m, i).None? {
      NoneStays(g', m, i, n);
    }
  }

  lemma HolderKeepsInv(g: Graph, g': Graph, agent: Id, manager: Option<Id>, stage: Stage, cap: nat)
    requires HolderInv(g, agent, manager, stage, cap)
    requires manager.Some? ==> ChainShrinks(g, g', manager.value)
    requires agent in g' ==> agent in g || NotNamed(g', agent)
    ensures HolderInv(g', agent, manager, stage, cap)
  {
    if stage.Walking? {
      WalkSurvives(g, g', agent, manager.value, stage.current, stage.seen, stage.depth);
    }
    if stage.Writing? && manager.Some? && agent in g' && MetWithin(g', manager.value, cap, agent) {
      var k: nat :| k < cap && Ancestor(g', manager.value, k) == Some(agent);
      if agent !in g {
        NobodyReaches(g', agent, manager.value, k);
      }
      assert false;
    }
  }

  lemma WalkSurvives(g: Graph, g': Graph, agent: Id, manager: Id, current: Option<Id>, seen: set<Id>, depth: nat)
    requires WalkSoFar(g, agent, manager, current, seen, depth) && ChainShrinks(g, g', manager)
    ensures WalkSoFar(g', agent, manager, current, seen, depth)
  {
    forall k: nat | Ancestor(g', manager, k) == Some(agent)
      ensures k >= depth && Ancestor(g', manager, depth) == current
      ensures forall y :: y in seen ==> MetWithin(g', manager, depth, y)
    {
      assert Ancestor(g, manager, k) == Some(agent);
      ShrunkChainIsWhole(g, g', manager, depth, k);
      forall y | y in seen
        ensures MetWithin(g', manager, depth, y)
      {
        var i: nat :| i < depth && Ancestor(g, manager, i) == Some(y);
        ShrunkChainIsWhole(g, g', manager, i, k);
      }
    }
  }

  lemma RegisterKeepsInv(r: Registry, id: Id, manager: Option<Id>, cap: nat)
    requires Inv(r, cap) && Enabled(r, Register(id, manager)) && Orderly(r, Register(id, manager))
    ensures Inv(Apply(r, Register(id, manager), cap), cap)
  {
    var g, g' := r.reports, r.reports[id := manager];
    NewRowAcyclic(g, id, manager);
    if r.lock.Held? {
      if r.lock.manager.Some? {
        var m := r.lock.manager.value;
        forall n: nat
          ensures Ancestor(g', m, n) == Ancestor(g, m, n)
        {
          forall k: nat | k < n
            ensures Ancestor(g, m, k) != Some(id)
          {
            NobodyReaches(g, id, m, k);
          }
          SameChain(g, g', id, m, n);
        }
      }
      HolderKeepsInv(g, g', r.lock.agent, r.lock.manager, r.lock.stage, cap);
    }
  }

  lemma DeleteKeepsInv(r: Registry, id: Id, cap: nat)
    requires Inv(r, cap)
    ensures Inv(Apply(r, Delete(id), cap), cap)
  {
    var g, g' := r.reports, r.reports - {id};
    FewerEdgesAcyclic(g, g');
    if r.lock.Held? {
      if r.lock.manager.Some? {
        forall n: nat
          ensures Ancestor(g', r.lock.manager.value, n).None?
            || Ancestor(g', r.lock.manager.value, n) == Ancestor(g, r.lock.manager.value, n)
        {
          FewerEdges(g, g', r.lock.manager.value, n);
        }
      }
      HolderKeepsInv(g, g', r.lock.agent, r.lock.manager, r.lock.stage, cap);
    }
  }

  /** The next stretch of the lock holder writes an edge to an agent above the manager, beyond the walk. */
  ghost predicate Slips(r: Registry, cap: nat) {
    && r.lock.Held? && r.lock.stage.Writing? && r.lock.manager.Some? && r.lock.agent in r.reports
    && BeyondCap(r.reports, r.lock.manager.value, r.lock.agent, cap)
  }

  lemma WalkKeepsInv(r: Registry, cap: nat)
    requires Inv(r, cap) && r.lock.Held? && r.lock.stage.Walking?
    ensures Inv(Apply(r, Proceed, cap), cap)
  {
    var g, agent, manager := r.reports, r.lock.agent, r.lock.manager.value;
    var Walking(current, seen, depth) := r.lock.stage;
    if current.None? || depth >= cap || (current.value != agent && current.value in seen) {
      WalkClears(g, agent, manager, current, seen, depth, cap);
    } else if current.value != agent {
      WalkAdvances(g, agent, manager, current.value, seen, depth);
    }
  }

  lemma WriteClosesCycleIff(r: Registry, cap: nat)
    requires Inv(r, cap) && r.lock.Held? && r.lock.stage.Writing?
    ensures Acyclic(Apply(r, Proceed, cap).reports) <==> !Slips(r, cap)
  {
    var g, agent, manager := r.reports, r.lock.agent, r.lock.manager;
    if agent in g {
      if manager.None? {
        FewerEdgesAcyclic(g, g[agent := None]);
      } else {
        MetOrBeyond(g, manager.value, agent, cap);
        NewEdgeIff(g, agent, manager.value);
      }
    }
  }

  /** A stretch between two awaits of the lock holder closes a cycle exactly when it slips; otherwise it keeps the invariant. */
  lemma ProceedKeepsInv(r: Registry, cap: nat)
    requires Inv(r, cap) && r.lock.Held?
    ensures Acyclic(Apply(r, Proceed, cap).reports) <==> !Slips(r, cap)
    ensures !Slips(r, cap) ==> Inv(Apply(r, Proceed, cap), cap)
  {
    match r.lock.stage {
      case ReadAgent =>
      case ReadManager =>
      case Walking(_, _, _) => WalkKeepsInv(r, cap);
      case Writing => WriteClosesCycleIff(r, cap);
    }
  }

  // ---- runs -----------------------------------------------------------------------------------

  ghost predicate AcyclicThroughout(r: Registry, steps: seq<Step>, cap: nat)
    decreases |steps|
  {
    Acyclic(r.reports) && (steps != [] ==> AcyclicThroughout(Apply(r, steps[0], cap), steps[1..], cap))
  }

  ghost predicate OrderlyThroughout(r: Registry, steps: seq<Step>, cap: nat)
    decreases |steps|
  {
    steps == [] || (Orderly(r, steps[0]) && OrderlyThroughout(Apply(r, steps[0], cap), steps[1..], cap))
  }

  ghost predicate NeverSlips(r: Registry, steps: seq<Step>, cap: nat)
    decreases |steps|
  {
    steps == [] || (!(steps[0].Proceed? && Slips(r, cap)) && NeverSlips(Apply(r, steps[0], cap), steps[1..], cap))
  }

  lemma StepKeepsInv(r: Registry, s: Step, cap: nat)
    requires Inv(r, cap) && Enabled(r, s) && Orderly(r, s)
    ensures Acyclic(Apply(r, s, cap).reports) <==> !(s.Proceed? && Slips(r, cap))
    ensures !(s.Proceed? && Slips(r, cap)) ==> Inv(Apply(r, s, cap), cap)
  {
    match s {
      case Acquire(_, _) =>
      case Proceed => ProceedKeepsInv(r, cap);
      case Abort =>
      case Register(id, manager) => RegisterKeepsInv(r, id, manager, cap);
      case Delete(id) => DeleteKeepsInv(r, id, cap);
    }
  }

  /**
    A run of interleaved edits, orderly registrations and deletions is acyclic in every state
    exactly when no edit is written whose agent is above its manager by `cap` stops or more.
  */
  lemma {:induction false} ReportingStaysAcyclicIff(r: Registry, steps: seq<Step>, cap: nat)
    requires Inv(r, cap) && Runnable(r, steps, cap) && OrderlyThroughout(r, steps, cap)
    ensures AcyclicThroughout(r, steps, cap) <==> NeverSlips(r, steps, cap)
    decreases |steps|
  {
    if steps != [] {
      StepKeepsInv(r, steps[0], cap);
      if !(steps[0].Proceed? && Slips(r, cap)) {
        ReportingStaysAcyclicIff(Apply(r, steps[0], cap), steps[1..], cap);
      }
    }
  }

  /** No chain of managers leads over more than `cap` agents. */
  ghost predicate Shallow(g: Graph, cap: nat) {
    forall x, k: nat :: k >= cap && Ancestor(g, x, k).Some? ==> Ancestor(g, x, k).value !in g
  }

  /** No step starts from an acyclic table with a longer chain than the walk; what a step leaves is left open. */
  ghost predicate ShallowBefore(r: Registry, steps: seq<Step>, cap: nat)
    decreases |steps|
  {
    steps != [] ==> (Acyclic(r.reports) ==> Shallow(r.reports, cap)) && ShallowBefore(Apply(r, steps[0], cap), steps[1..], cap)
  }

  /** With at most `cap` agents chains are that short. */
  lemma FewAgentsAreShallow(g: Graph, cap: nat)
    requires Acyclic(g) && |g| <= cap
    ensures Shallow(g, cap)
  {
    forall x, k: nat | k >= cap && Ancestor(g, x, k).Some?
      ensures Ancestor(g, x, k).value !in g
    {
      if Ancestor(g, x, k).value in g {
        ChainBound(g, x, k);
        assert false;
      }
    }
  }

  /**
    A step from an acyclic table whose chains the walk covers leaves an acyclic table: so a run
    closes no cycle while chains are short before each step, however many agents there are.
  */
  lemma {:induction false} ShallowRunStaysAcyclic(r: Registry, steps: seq<Step>, cap: nat)
    requires Inv(r, cap) && Runnable(r, steps, cap)
    requires OrderlyThroughout(r, steps, cap) && ShallowBefore(r, steps, cap)
    ensures AcyclicThroughout(r, steps, cap)
    decreases |steps|
  {
    if steps != [] {
      StepKeepsInv(r, steps[0], cap);
      ShallowRunStaysAcyclic(Apply(r, steps[0], cap), steps[1..], cap);
    }
  }

  ghost predicate FewThroughout(r: Registry, steps: seq<Step>, cap: nat)
    decreases |steps|
  {
    |r.reports| <= cap && (steps != [] ==> FewThroughout(Apply(r, steps[0], cap), steps[1..], cap))
  }

  lemma {:induction false} FewAgentsStayAcyclic(r: Registry, steps: seq<Step>, cap: nat)
    requires Inv(r, cap) && Runnable(r, steps, cap)
    requires OrderlyThroughout(r, steps, cap) && FewThroughout(r, steps, cap)
    ensures AcyclicThroughout(r, steps, cap)
    decreases |steps|
  {
    if steps != [] {
      FewAgentsAreShallow(r.reports, cap);
      StepKeepsInv(r, steps[0], cap);
      FewAgentsStayAcyclic(Apply(r, steps[0], cap), steps[1..], cap);
    }
  }

  const EMPTY_REGISTRY: Registry := Registry(map[], Free)

  lemma EmptyInv(cap: nat)
    ensures Inv(EMPTY_REGISTRY, cap)
  {
    forall x, n: nat | n >= 1
      ensures Ancestor(map[], x, n) != Some(x)
    {
      EmptyHasNoChain(x, n);
    }
  }

  // ---- registrations as they come --------------------------------------------------------------

  /** Whoever writes it, a row closes a cycle exactly when the chain of its manager already leads to it. */
  lemma RowClosesCycleIff(g: Graph, id: Id, manager: Option<Id>)
    requires Acyclic(g)
    ensures Acyclic(g[id := manager]) <==> manager.None? || !Above(g, manager.value, id)
  {
    match manager {
      case None => FewerEdgesAcyclic(g, g[id := None]);
      case Some(m) => NewEdgeIff(g, id, m);
    }
  }

  /** The step writes or registers an edge from something above its new manager. */
  ghost predicate Closes(r: Registry, s: Step) {
    match s
    case Proceed =>
      && r.lock.Held? && r.lock.stage.Writing? && r.lock.manager.Some? && r.lock.agent in r.reports
      && Above(r.reports, r.lock.manager.value, r.lock.agent)
    case Register(id, manager) => manager.Some? && Above(r.reports, manager.value, id)
    case _ => false
  }

  ghost predicate NeverCloses(r: Registry, steps: seq<Step>, cap: nat)
    decreases |steps|
  {
    steps == [] || (!Closes(r, steps[0]) && NeverCloses(Apply(r, steps[0], cap), steps[1..], cap))
  }

  lemma StepClosesIff(r: Registry, s: Step, cap: nat)
    requires Acyclic(r.reports) && Enabled(r, s)
    ensures Acyclic(Apply(r, s, cap).reports) <==> !Closes(r, s)
  {
    match s {
      case Proceed =>
        if r.lock.stage.Writing? && r.lock.agent in r.reports {
          RowClosesCycleIff(r.reports, r.lock.agent, r.lock.manager);
        }
      case Register(id, manager) => RowClosesCycleIff(r.reports, id, manager);
      case Delete(id) => FewerEdgesAcyclic(r.reports, r.reports - {id});
      case _ =>
    }
  }

  /**
    Over every run, with registrations as `register` takes them: the table is acyclic in every
    state exactly when no step, edit or registration, closes a cycle at the moment it writes.
  */
  lemma {:induction false} AnyRunStaysAcyclicIff(r: Registry, steps: seq<Step>, cap: nat)
    requires Acyclic(r.reports) && Runnable(r, steps, cap)
    ensures AcyclicThroughout(r, steps, cap) <==> NeverCloses(r, steps, cap)
    decreases |steps|
  {
    if steps != [] {
      StepClosesIff(r, steps[0], cap);
      if !Closes(r, steps[0]) {
        AnyRunStaysAcyclicIff(Apply(r, steps[0], cap), steps[1..], cap);
      }
    }
  }

  /**
    From an empty registry, orderly registrations: acyclic for ever exactly when nothing slips,
    and surely with at most `cap` agents at a time.
  */
  lemma RegistryStaysAcyclic(steps: seq<Step>, cap: nat)
    requires Runnable(EMPTY_REGISTRY, steps, cap)
    ensures AcyclicThroughout(EMPTY_REGISTRY, steps, cap) <==> NeverCloses(EMPTY_REGISTRY, steps, cap)
    ensures OrderlyThroughout(EMPTY_REGISTRY, steps, cap) ==>
      (AcyclicThroughout(EMPTY_REGISTRY, steps, cap) <==> NeverSlips(EMPTY_REGISTRY, steps, cap))
    ensures OrderlyThroughout(EMPTY_REGISTRY, steps, cap) && FewThroughout(EMPTY_REGISTRY, steps, cap) ==>
      AcyclicThroughout(EMPTY_REGISTRY, steps, cap)
  {
    EmptyInv(cap);
    AnyRunStaysAcyclicIff(EMPTY_REGISTRY, steps, cap);
    if OrderlyThroughout(EMPTY_REGISTRY, steps, cap) {
      ReportingStaysAcyclicIff(EMPTY_REGISTRY, steps, cap);
      if FewThroughout(EMPTY_REGISTRY, steps, cap) {
        FewAgentsStayAcyclic(EMPTY_REGISTRY, steps, cap);
      }
    }
  }

  /** Two registrations that name each other close a cycle: the first one's manager has no row yet. */
  lemma RegistrationsCloseCycle(r: Registry, a: Id, b: Id, cap: nat)
    requires a != b && a !in r.reports && b !in r.reports
    ensures var steps := [Register(a, Some(b)), Register(b, Some(a))];
      Runnable(r, steps, cap) && !Acyclic(Run(r, steps, cap).reports)
  {
    var first, second := Register(a, Some(b)), Register(b, Some(a));
    var steps := [first, second];
    assert steps[1..] == [second] && [second][1..] == [];
    var mid := Apply(r, first, cap);
    var last := Apply(mid, second, cap);
    assert Run(mid, [second], cap) == Run(last, [], cap);
    var g := last.reports;
    assert Ancestor(g, a, 1) == Some(b);
    assert Ancestor(g, a, 2) == Some(a);
  }

  lemma {:induction false} EmptyHasNoChain(x: Id, n: nat)
    requires n >= 1
    ensures Ancestor(map[], x, n) == None
  {
    if n > 1 {
      EmptyHasNoChain(x, n - 1);
    }
  }

  // ---- one call, undisturbed --------------------------------------------------------------------

  function Proceeds(n: nat): seq<Step> {
    if n == 0 then [] else [Proceed] + Proceeds(n - 1)
  }

  /** The table after `set_reporting`: a refused edit leaves it as it is. */
  function AfterEdit(g: Graph, agent: Id, manager: Option<Id>, cap: nat): Graph {
    var r := SetReporting(g, agent, manager, cap);
    if r.Success? then r.value else g
  }

  lemma ProceedsFirst(r: Registry, n: nat, cap: nat)
    requires r.lock.Held? && Runnable(Apply(r, Proceed, cap), Proceeds(n), cap)
    ensures Runnable(r, Proceeds(n + 1), cap)
    ensures Run(r, Proceeds(n + 1), cap) == Run(Apply(r, Proceed, cap), Proceeds(n), cap)
  {
    assert Proceeds(n + 1)[1..] == Proceeds(n);
  }

  lemma WriteEnds(r: Registry, cap: nat) returns (n: nat)
    requires r.lock.Held? && r.lock.stage.Writing? && r.lock.agent in r.reports
    ensures Runnable(r, Proceeds(n), cap)
    ensures Run(r, Proceeds(n), cap) == Registry(r.reports[r.lock.agent := r.lock.manager], Free)
  {
    n := 0;
    ProceedsFirst(r, n, cap);
    n := n + 1;
  }

  lemma {:induction false} WalkEnds(r: Registry, cap: nat) returns (n: nat)
    requires r.lock.Held? && r.lock.stage.Walking? && r.lock.agent in r.reports
    ensures Runnable(r, Proceeds(n), cap)
    ensures var Walking(current, seen, depth) := r.lock.stage;
      Run(r, Proceeds(n), cap) == Registry(
        if WalkMeets(r.reports, r.lock.agent, current, seen, depth, cap) then r.reports
        else r.reports[r.lock.agent := r.lock.manager], Free)
    decreases if r.lock.stage.depth < cap then cap - r.lock.stage.depth else 0
  {
    var next := Apply(r, Proceed, cap);
    if next.lock.Free? {
      n := 0;
    } else if next.lock.stage.Writing? {
      n := WriteEnds(next, cap);
    } else {
      n := WalkEnds(next, cap);
    }
    ProceedsFirst(r, n, cap);
    n := n + 1;
  }

  lemma ReadManagerEnds(r: Registry, cap: nat) returns (n: nat)
    requires r.lock.Held? && r.lock.stage.ReadManager? && r.lock.manager.Some?
    requires r.lock.agent in r.reports && r.lock.manager.value != r.lock.agent
    ensures Runnable(r, Proceeds(n), cap)
    ensures Run(r, Proceeds(n), cap) == Registry(AfterEdit(r.reports, r.lock.agent, r.lock.manager, cap), Free)
  {
    var next := Apply(r, Proceed, cap);
    n := 0;
    if next.lock.Held? {
      n := WalkEnds(next, cap);
    }
    ProceedsFirst(r, n, cap);
    n := n + 1;
  }

  lemma ReadAgentEnds(r: Registry, cap: nat) returns (n: nat)
    requires r.lock.Held? && r.lock.stage.ReadAgent?
    ensures Runnable(r, Proceeds(n), cap)
    ensures Run(r, Proceeds(n), cap) == Registry(AfterEdit(r.reports, r.lock.agent, r.lock.manager, cap), Free)
  {
    var next := Apply(r, Proceed, cap);
    n := 0;
    if next.lock.Held? {
      if next.lock.stage.Writing? {
        n := WriteEnds(next, cap);
      } else {
        n := ReadManagerEnds(next, cap);
      }
    }
    ProceedsFirst(r, n, cap);
    n := n + 1;
  }

  /** A call that nothing disturbs runs to its end, releases the lock, and makes the edit that `SetReporting` describes. */
  lemma UndisturbedCallIsSetReporting(r: Registry, agent: Id, manager: Option<Id>, cap: nat) returns (n: nat)
    requires r.lock.Free?
    ensures Runnable(r, [Acquire(agent, manager)] + Proceeds(n), cap)
    ensures Run(r, [Acquire(agent, manager)] + Proceeds(n), cap)
         == Registry(AfterEdit(r.reports, agent, manager, cap), Free)
  {
    var held := Apply(r, Acquire(agent, manager), cap);
    n := ReadAgentEnds(held, cap);
    var steps := [Acquire(agent, manager)] + Proceeds(n);
    assert steps[1..] == Proceeds(n);
  }

  /**
    Who writes whose row: a registration and a deletion their own, an accepted edit that of its agent if it
    still has one, and no other step any.
  */
  lemma StepWrites(r: Registry, s: Step, cap: nat, x: Id)
    ensures Lookup(Apply(r, s, cap).reports, x) ==
      if s.Register? && s.id == x then Some(s.manager)
      else if s.Delete? && s.id == x then None
      else if s.Proceed? && r.lock.Held? && r.lock.stage.Writing? && r.lock.agent == x && x in r.reports
      then Some(r.lock.manager)
      else Lookup(r.reports, x)
  {
  }

  // ---- why the lock, why the cap ------------------------------------------------------------

  /** Two edits that both check the same table and then both write may close a cycle. */
  lemma UncheckedPairClosesCycle(g: Graph, a: Id, b: Id, cap: nat)
    requires a != b && a in g && b in g && g[a].None? && g[b].None?
    ensures SetReporting(g, a, Some(b), cap).Success? && SetReporting(g, b, Some(a), cap).Success?
    ensures !Acyclic(g[a := Some(b)][b := Some(a)])
  {
    var both := g[a := Some(b)][b := Some(a)];
    assert Ancestor(both, a, 1) == Some(b);
    assert Ancestor(both, a, 2) == Some(a);
    WalkOneRow(g, a, b, cap);
    WalkOneRow(g, b, a, cap);
  }

  lemma WalkOneRow(g: Graph, agent: Id, manager: Id, cap: nat)
    requires agent != manager && manager in g && g[manager].None?
    ensures !WalkMeets(g, agent, Some(manager), {}, 0, cap)
  {
    if cap > 0 {
      assert !WalkMeets(g, agent, None, {} + {manager}, 1, cap);
    }
  }

  /** Agent number `k`, told apart by the length of its name. */
  function Numbered(k: nat): (id: Id)
    ensures |id| == k
  {
    seq(k, i => 'a')
  }

  function NumberedUpTo(n: nat): (ids: set<Id>)
    ensures |ids| == n + 1
    ensures forall x :: x in ids <==> |x| <= n && x == Numbered(|x|)
  {
    if n == 0 then {Numbered(0)} else NumberedUpTo(n - 1) + {Numbered(n)}
  }

  /** Agents 0 to `cap`, each reporting to the next: one more than the walk looks at. */
  function Chain(cap: nat): Graph {
    map x | x in NumberedUpTo(cap) :: if |x| < cap then Some(Numbered(|x| + 1)) else None
  }

  lemma ChainSize(cap: nat)
    ensures |Chain(cap)| == cap + 1
  {
    assert Chain(cap).Keys == NumberedUpTo(cap);
    assert |Chain(cap)| == |Chain(cap).Keys|;
  }

  lemma ChainNext(cap: nat, x: Id)
    ensures Next(Chain(cap), x)
         == if x == Numbered(|x|) && |x| < cap then Some(Numbered(|x| + 1)) else None
  {
  }

  lemma {:induction false} ChainClimbs(cap: nat, j: nat, n: nat)
    requires j + n <= cap
    ensures Ancestor(Chain(cap), Numbered(j), n) == Some(Numbered(j + n))
  {
    if n > 0 {
      ChainClimbs(cap, j, n - 1);
      ChainNext(cap, Numbered(j + n - 1));
    }
  }

  lemma ChainAcyclic(cap: nat)
    ensures Acyclic(Chain(cap))
  {
    forall x, n: nat | n >= 1
      ensures Ancestor(Chain(cap), x, n) != Some(x)
    {
      ChainOnlyClimbs(cap, x, n);
    }
  }

  lemma {:induction false} ChainOnlyClimbs(cap: nat, x: Id, n: nat)
    requires n >= 1
    ensures Ancestor(Chain(cap), x, n).Some? ==> |Ancestor(Chain(cap), x, n).value| > |x|
  {
    if n > 1 {
      ChainOnlyClimbs(cap, x, n - 1);
    }
    assert Ancestor(Chain(cap), x, 0) == Some(x);
    match Ancestor(Chain(cap), x, n - 1) {
      case None =>
      case Some(y) => ChainNext(cap, y);
    }
  }

  lemma {:induction false} WalkStopsShort(cap: nat, j: nat, seen: set<Id>)
    requires j <= cap
    requires forall x :: x in seen ==> |x| < j
    ensures !WalkMeets(Chain(cap), Numbered(cap), Some(Numbered(j)), seen, j, cap)
    decreases cap - j
  {
    if j < cap {
      ChainNext(cap, Numbered(j));
      WalkStopsShort(cap, j + 1, seen + {Numbered(j)});
    }
  }

  /**
    One agent more than the cap is enough: on the chain of cap + 1 agents the source accepts
    an edit from the top agent to the bottom one, and the graph is cyclic from then on.
  */
  lemma CapPlusOneLetsCycleThrough(cap: nat)
    requires cap >= 1
    ensures |Chain(cap)| == cap + 1 && Acyclic(Chain(cap))
    ensures var r := SetReporting(Chain(cap), Numbered(cap), Some(Numbered(0)), cap);
      r.Success? && !Acyclic(r.value)
  {
    ChainSize(cap);
    ChainAcyclic(cap);
    WalkStopsShort(cap, 0, {});
    ChainClimbs(cap, 0, cap);
    EdgeBelowClosesCycle(Chain(cap), Numbered(cap), Numbered(0));
  }

  // ---- the store ------------------------------------------------------------------------------

  class AgentRegistryStore {
    /** Column `reports_to` of the table, by canonical id. */
    var reports: Graph

    /** One call of `set_reporting` during which nothing else changes the table. */
    method SetReportsTo(agent: Id, manager: Option<Id>) returns (r: Result<(), ReportingError>)
      modifies this
      ensures match SetReporting(old(reports), agent, manager, MAX_REPORTS_TO_WALK)
        case Success(g) => r == Success(()) && reports == g
        case Failure(e) => r == Failure(e) && reports == old(reports)
      ensures forall e :: r == Failure(e) <==> Refused(old(reports), agent, manager, 50, e)
      ensures reports == if r.Success? then old(reports)[agent := manager] else old(reports)
    {
      SetReportingDecides(reports, agent, manager, MAX_REPORTS_TO_WALK);
      if agent !in reports {
        return Failure(UnknownAgent);
      }
      if manager.Some? {
        if manager.value == agent {
          return Failure(SelfReport);
        }
        if manager.value !in reports {
          return Failure(ManagerNotFound);
        }
        var seen: set<Id> := {};
        var current := manager;
        var depth := 0;
        while current.Some? && depth < MAX_REPORTS_TO_WALK
          invariant 0 <= depth <= MAX_REPORTS_TO_WALK
          invariant WalkMeets(reports, agent, manager, {}, 0, MAX_REPORTS_TO_WALK)
                 == WalkMeets(reports, agent, current, seen, depth, MAX_REPORTS_TO_WALK)
        {
          if current.value == agent {
            return Failure(WouldCycle);
          }
          if current.value in seen {
            break;
          }
          seen := seen + {current.value};
          current := if current.value in reports then reports[current.value] else None;
          depth := depth + 1;
        }
      }
      reports := reports[agent := manager];
      return Success(());
    }
  }
}
