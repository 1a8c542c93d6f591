/**
  `get_org_tree` of tinyagentos/agent_registry_store.py: the reporting forest of any table,
  also one with cycles or dangling managers written by other means.
*/
module OrgTrees {
  import opened Wrappers
  import opened OrgGraphs

  datatype Row = Row(id: Id, reportsTo: Option<Id>, displayName: string, role: Option<string>, title: Option<string>)

  datatype OrgNode = OrgNode(row: Row, reports: seq<OrgNode>)

  /** The UNIQUE key of the table. */
  predicate UniqueIds(rows: seq<Row>) {
    forall i, j :: 0 <= i < j < |rows| ==> rows[i].id != rows[j].id
  }

  predicate HasRow(rows: seq<Row>, id: Id) {
    exists i :: 0 <= i < |rows| && rows[i].id == id
  }

  /** The row names no manager, or one that has no row. */
  predicate IsTop(rows: seq<Row>, row: Row) {
    || row.reportsTo == None || row.reportsTo == Some("")
    || forall i :: 0 <= i < |rows| ==> row.reportsTo != Some(rows[i].id)
  }

  /** A manager counts when it is named, not the empty string, and has a row. */
  function ManagerOf(rows: seq<Row>, row: Row): Option<Id> {
    if row.reportsTo.Some? && row.reportsTo.value != "" && HasRow(rows, row.reportsTo.value)
    then row.reportsTo else None
  }

  /** The managers that count, as a graph. */
  function ManagerGraph(rows: seq<Row>, some: seq<Row>): Graph {
    if some == [] then map[] else
      var n := |some| - 1;
      ManagerGraph(rows, some[..n])[some[n].id := ManagerOf(rows, some[n])]
  }

  lemma {:induction false} GraphHasRow(rows: seq<Row>, some: seq<Row>, x: Id) returns (i: nat)
    requires x in ManagerGraph(rows, some)
    ensures i < |some| && some[i].id == x
  {
    i := |some| - 1;
    if some[i].id != x {
      i := GraphHasRow(rows, some[..i], x);
    }
  }

  lemma {:induction false} GraphHasManager(rows: seq<Row>, some: seq<Row>, i: nat)
    requires UniqueIds(some) && i < |some|
    ensures some[i].id in ManagerGraph(rows, some)
    ensures ManagerGraph(rows, some)[some[i].id] == ManagerOf(rows, some[i])
  {
    var n := |some| - 1;
    if i < n {
      GraphHasManager(rows, some[..n], i);
      assert some[i].id != some[n].id;
    }
  }

  function Managers(rows: seq<Row>): Graph {
    ManagerGraph(rows, rows)
  }

  // ---- the two lists the source builds --------------------------------------------------------

  function RowsUnder(rows: seq<Row>, some: seq<Row>, manager: Option<Id>): (r: seq<Row>)
    ensures forall row :: row in r <==> row in some && ManagerOf(rows, row) == manager
  {
    if some == [] then [] else
      var n := |some| - 1;
      var before := RowsUnder(rows, some[..n], manager);
      if ManagerOf(rows, some[n]) == manager then before + [some[n]] else before
  }

  function Children(rows: seq<Row>, id: Id): seq<Row> {
    RowsUnder(rows, rows, Some(id))
  }

  function Roots(rows: seq<Row>): seq<Row> {
    RowsUnder(rows, rows, None)
  }

  // ---- the recursion ----------------------------------------------------------------------------

  function Node(rows: seq<Row>, row: Row, depth: nat, seen: set<Id>, cap: nat): OrgNode
    requires depth <= cap
    decreases cap - depth, 1, 0
  {
    OrgNode(row, if depth < cap then Nodes(rows, Children(rows, row.id), depth + 1, seen + {row.id}, cap) else [])
  }

  function Nodes(rows: seq<Row>, some: seq<Row>, depth: nat, seen: set<Id>, cap: nat): seq<OrgNode>
    requires depth <= cap
    decreases cap - depth, 2, |some|
  {
    if some == [] then []
    else if some[0].id in seen then Nodes(rows, some[1..], depth, seen, cap)
    else [Node(rows, some[0], depth, seen, cap)] + Nodes(rows, some[1..], depth, seen, cap)
  }

  function OrgTree(rows: seq<Row>, cap: nat): seq<OrgNode> {
    Nodes(rows, Roots(rows), 0, {}, cap)
  }

  // ---- how often a row is emitted -----------------------------------------------------------------

  function Emitted(nodes: seq<OrgNode>, x: Id): nat
  {
    if nodes == [] then 0 else
      (if nodes[0].row.id == x then 1 else 0) + Emitted(nodes[0].reports, x) + Emitted(nodes[1..], x)
  }

  /** Following the managers of `x`, `r` is met within `n` edges. */
  ghost predicate Below(g: Graph, x: Id, r: Id, n: nat) {
    exists k: nat :: k <= n && Ancestor(g, x, k) == Some(r)
  }

  /** Following the managers of `x` ends at a root within `n` edges. */
  ghost predicate ReachesRoot(g: Graph, x: Id, n: nat) {
    exists k: nat :: k <= n && Ancestor(g, x, k).Some? && Ancestor(g, x, k).value in g
      && Next(g, Ancestor(g, x, k).value) == None
  }

  /** The same without a bound. */
  ghost predicate Rooted(g: Graph, x: Id) {
    exists n: nat :: ReachesRoot(g, x, n)
  }

  ghost predicate StrictlyAbove(g: Graph, x: Id, y: Id) {
    exists k: nat :: k >= 1 && Ancestor(g, x, k) == Some(y)
  }

  lemma {:induction false} LoopNeverEnds(g: Graph, x: Id, j: nat, n: nat)
    requires j >= 1 && Ancestor(g, x, j) == Some(x)
    ensures Ancestor(g, x, n).Some?
  {
    if n < j {
      if Ancestor(g, x, n).None? {
        NoneStays(g, x, n, j);
      }
    } else {
      LoopNeverEnds(g, x, j, n - j);
      AncestorAdd(g, x, j, x, n - j);
    }
  }

  /** Nothing that reaches a root is on a cycle. */
  lemma RootedIsNotOnCycle(g: Graph, x: Id)
    requires Rooted(g, x)
    ensures !StrictlyAbove(g, x, x)
  {
    if StrictlyAbove(g, x, x) {
      var j: nat :| j >= 1 && Ancestor(g, x, j) == Some(x);
      var n: nat :| ReachesRoot(g, x, n);
      var k: nat :| k <= n && Ancestor(g, x, k).Some? && Next(g, Ancestor(g, x, k).value) == None;
      LoopNeverEnds(g, x, j, k + 1);
      assert false;
    }
  }

  /** The stop at which a chain meets a row that reaches a root is unique. */
  lemma {:induction false} MeetsOnce(g: Graph, x: Id, r: Id, j: nat, k: nat)
    requires Rooted(g, r) && Ancestor(g, x, j) == Some(r) && Ancestor(g, x, k) == Some(r)
    ensures j == k
  {
    if j != k {
      var lo, hi := if j < k then j else k, if j < k then k else j;
      AncestorAdd(g, x, lo, r, hi - lo);
      assert StrictlyAbove(g, r, r);
      RootedIsNotOnCycle(g, r);
      assert false;
    }
  }

  /** Whoever reports to a row that reaches a root reaches it too. */
  lemma ReportIsRooted(g: Graph, c: Id, d: Id)
    requires Rooted(g, c) && Next(g, d) == Some(c)
    ensures Rooted(g, d)
  {
    var n: nat :| ReachesRoot(g, c, n);
    var k: nat :| k <= n && Ancestor(g, c, k).Some? && Ancestor(g, c, k).value in g
      && Next(g, Ancestor(g, c, k).value) == None;
    assert Ancestor(g, d, 1) == Some(c);
    AncestorAdd(g, d, 1, c, k);
    assert 1 + k <= n + 1 && Ancestor(g, d, 1 + k) == Ancestor(g, c, k);
    assert ReachesRoot(g, d, n + 1);
  }

  // ---- counting ---------------------------------------------------------------------------------

  ghost function CountBelow(g: Graph, some: seq<Row>, x: Id, n: nat): nat {
    if some == [] then 0 else (if Below(g, x, some[0].id, n) then 1 else 0) + CountBelow(g, some[1..], x, n)
  }

  lemma {:induction false} CountNone(g: Graph, some: seq<Row>, x: Id, n: nat)
    requires forall i :: 0 <= i < |some| ==> !Below(g, x, some[i].id, n)
    ensures CountBelow(g, some, x, n) == 0
  {
    if some != [] {
      CountNone(g, some[1..], x, n);
    }
  }

  lemma {:induction false} CountOne(g: Graph, some: seq<Row>, x: Id, n: nat, t: nat)
    requires UniqueIds(some) && t < |some|
    requires forall i :: 0 <= i < |some| ==> (Below(g, x, some[i].id, n) <==> i == t)
    ensures CountBelow(g, some, x, n) == 1
  {
    if t == 0 {
      CountNone(g, some[1..], x, n);
    } else {
      CountOne(g, some[1..], x, n, t - 1);
    }
  }

  lemma {:induction false} RowsUnderUnique(rows: seq<Row>, some: seq<Row>, manager: Option<Id>)
    requires UniqueIds(some)
    ensures UniqueIds(RowsUnder(rows, some, manager))
  {
    if some != [] {
      var n := |some| - 1;
      RowsUnderUnique(rows, some[..n], manager);
      var before := RowsUnder(rows, some[..n], manager);
      forall i | 0 <= i < |before|
        ensures before[i].id != some[n].id
      {
        assert before[i] in some[..n];
      }
    }
  }

  /** The row of an id whose manager counts as `manager` is listed under it. */
  lemma ListedUnder(rows: seq<Row>, manager: Option<Id>, id: Id) returns (t: nat)
    requires UniqueIds(rows) && id in Managers(rows) && Managers(rows)[id] == manager
    ensures t < |RowsUnder(rows, rows, manager)| && RowsUnder(rows, rows, manager)[t].id == id
  {
    var i := GraphHasRow(rows, rows, id);
    GraphHasManager(rows, rows, i);
    assert rows[i] in RowsUnder(rows, rows, manager);
    t :| 0 <= t < |RowsUnder(rows, rows, manager)| && RowsUnder(rows, rows, manager)[t] == rows[i];
  }

  lemma UnderHasManager(rows: seq<Row>, manager: Option<Id>)
    requires UniqueIds(rows)
    ensures forall i :: 0 <= i < |RowsUnder(rows, rows, manager)| ==>
      var id := RowsUnder(rows, rows, manager)[i].id; id in Managers(rows) && Managers(rows)[id] == manager
  {
    forall i | 0 <= i < |RowsUnder(rows, rows, manager)|
      ensures RowsUnder(rows, rows, manager)[i].id in Managers(rows)
      ensures Managers(rows)[RowsUnder(rows, rows, manager)[i].id] == manager
    {
      var row := RowsUnder(rows, rows, manager)[i];
      assert row in RowsUnder(rows, rows, manager);
      var k :| 0 <= k < |rows| && rows[k] == row;
      GraphHasManager(rows, rows, k);
    }
  }

  /** `kids` are rows that report to `c`, each id once, and include the stop before `c` on any chain. */
  ghost predicate AllReports(g: Graph, kids: seq<Row>, c: Id) {
    && UniqueIds(kids)
    && (forall i :: 0 <= i < |kids| ==> Next(g, kids[i].id) == Some(c))
    && (forall d :: Next(g, d) == Some(c) ==> HasRow(kids, d))
  }

  lemma ChildrenAreAllReports(rows: seq<Row>, c: Id)
    requires UniqueIds(rows)
    ensures AllReports(Managers(rows), Children(rows, c), c)
  {
    RowsUnderUnique(rows, rows, Some(c));
    UnderHasManager(rows, Some(c));
    forall d | Next(Managers(rows), d) == Some(c)
      ensures HasRow(Children(rows, c), d)
    {
      var t := ListedUnder(rows, Some(c), d);
    }
  }

  /** `x` is at or below `c` within `n` edges, or within one edge fewer of exactly one report of `c`. */
  lemma BelowThroughReports(g: Graph, kids: seq<Row>, c: Id, x: Id, n: nat)
    requires AllReports(g, kids, c) && c in g && Rooted(g, c) && n >= 1
    ensures (if c == x then 1 else 0) + CountBelow(g, kids, x, n - 1) == if Below(g, x, c, n) then 1 else 0
  {
    if Below(g, x, c, n) {
      var k: nat :| k <= n && Ancestor(g, x, k) == Some(c);
      if k == 0 {
        forall i | 0 <= i < |kids|
          ensures !Below(g, x, kids[i].id, n - 1)
        {
          NotBelowReport(g, x, c, kids[i].id, 0, n - 1);
        }
        CountNone(g, kids, x, n - 1);
      } else {
        OneReportBetween(g, kids, c, x, n, k);
        if x == c {
          MeetsOnce(g, x, c, 0, k);
        }
      }
    } else {
      NoReportBetween(g, kids, c, x, n);
    }
  }

  lemma OneReportBetween(g: Graph, kids: seq<Row>, c: Id, x: Id, n: nat, k: nat)
    requires AllReports(g, kids, c) && c in g && Rooted(g, c)
    requires 1 <= k <= n && Ancestor(g, x, k) == Some(c)
    ensures CountBelow(g, kids, x, n - 1) == 1
  {
    var d := Ancestor(g, x, k - 1).value;
    assert HasRow(kids, d);
    var t :| 0 <= t < |kids| && kids[t].id == d;
    forall i | 0 <= i < |kids|
      ensures Below(g, x, kids[i].id, n - 1) <==> i == t
    {
      if i == t {
        assert k - 1 <= n - 1 && Ancestor(g, x, k - 1) == Some(d);
      } else {
        assert kids[i].id != d;
        NotBelowReport(g, x, c, kids[i].id, k, n - 1);
      }
    }
    CountOne(g, kids, x, n - 1, t);
  }

  lemma NoReportBetween(g: Graph, kids: seq<Row>, c: Id, x: Id, n: nat)
    requires AllReports(g, kids, c) && n >= 1 && !Below(g, x, c, n)
    ensures c != x && CountBelow(g, kids, x, n - 1) == 0
  {
    assert Ancestor(g, x, 0) == Some(x);
    forall i | 0 <= i < |kids|
      ensures !Below(g, x, kids[i].id, n - 1)
    {
      if Below(g, x, kids[i].id, n - 1) {
        var j: nat :| j <= n - 1 && Ancestor(g, x, j) == Some(kids[i].id);
        StepUp(g, x, j, kids[i].id, c);
        assert false;
      }
    }
    CountNone(g, kids, x, n - 1);
  }

  lemma StepUp(g: Graph, x: Id, j: nat, d: Id, c: Id)
    requires Ancestor(g, x, j) == Some(d) && Next(g, d) == Some(c)
    ensures Ancestor(g, x, j + 1) == Some(c)
  {
  }

  /** Only the report one stop before `c` on the chain of `x` has `x` below it. */
  lemma NotBelowReport(g: Graph, x: Id, c: Id, d: Id, k: nat, n: nat)
    requires Rooted(g, c) && Ancestor(g, x, k) == Some(c) && Next(g, d) == Some(c)
    requires k > 0 ==> Ancestor(g, x, k - 1) != Some(d)
    ensures !Below(g, x, d, n)
  {
    if Below(g, x, d, n) {
      var j: nat :| j <= n && Ancestor(g, x, j) == Some(d);
      StepUp(g, x, j, d, c);
      MeetsOnce(g, x, c, j + 1, k);
      assert false;
    }
  }

  // ---- the forest ---------------------------------------------------------------------------------

  /** `c` reaches a root and `seen` holds only rows strictly above it. */
  ghost predicate Hangs(g: Graph, c: Id, seen: set<Id>) {
    c in g && Rooted(g, c) && forall y :: y in seen ==> StrictlyAbove(g, c, y)
  }

  lemma ReportHangs(g: Graph, c: Id, d: Id, seen: set<Id>)
    requires Hangs(g, c, seen) && d in g && Next(g, d) == Some(c)
    ensures Hangs(g, d, seen + {c})
  {
    ReportIsRooted(g, c, d);
    assert 1 >= 1 && Ancestor(g, d, 1) == Some(c);
    forall y | y in seen + {c}
      ensures StrictlyAbove(g, d, y)
    {
      if y in seen {
        var k: nat :| k >= 1 && Ancestor(g, c, k) == Some(y);
        AncestorAdd(g, d, 1, c, k);
        assert 1 + k >= 1 && Ancestor(g, d, 1 + k) == Some(y);
      }
    }
  }

  lemma {:induction false} NodesEmit(rows: seq<Row>, some: seq<Row>, depth: nat, seen: set<Id>, cap: nat, x: Id)
    requires UniqueIds(rows) && depth <= cap
    requires forall i :: 0 <= i < |some| ==> Hangs(Managers(rows), some[i].id, seen)
    ensures Emitted(Nodes(rows, some, depth, seen, cap), x) == CountBelow(Managers(rows), some, x, cap - depth)
    decreases cap - depth, 1, |some|
  {
    if some != [] {
      assert Hangs(Managers(rows), some[0].id, seen);
      RootedIsNotOnCycle(Managers(rows), some[0].id);
      NodeEmits(rows, some[0], depth, seen, cap, x);
      NodesEmit(rows, some[1..], depth, seen, cap, x);
    }
  }

  lemma {:induction false} NodeEmits(rows: seq<Row>, row: Row, depth: nat, seen: set<Id>, cap: nat, x: Id)
    requires UniqueIds(rows) && depth <= cap && Hangs(Managers(rows), row.id, seen)
    ensures (if row.id == x then 1 else 0) + Emitted(Node(rows, row, depth, seen, cap).reports, x)
         == if Below(Managers(rows), x, row.id, cap - depth) then 1 else 0
    decreases cap - depth, 0
  {
    var g, c := Managers(rows), row.id;
    if depth < cap {
      UnderHasManager(rows, Some(c));
      forall i | 0 <= i < |Children(rows, c)|
        ensures Hangs(g, Children(rows, c)[i].id, seen + {c})
      {
        ReportHangs(g, c, Children(rows, c)[i].id, seen);
      }
      NodesEmit(rows, Children(rows, c), depth + 1, seen + {c}, cap, x);
      ChildrenAreAllReports(rows, c);
      BelowThroughReports(g, Children(rows, c), c, x, cap - depth);
    } else {
      assert Ancestor(g, x, 0) == Some(x);
    }
  }

  lemma EmitsWhatReachesRoot(rows: seq<Row>, cap: nat, x: Id)
    requires UniqueIds(rows)
    ensures Emitted(OrgTree(rows, cap), x) == if ReachesRoot(Managers(rows), x, cap) then 1 else 0
  {
    var g, roots := Managers(rows), Roots(rows);
    UnderHasManager(rows, None);
    RowsUnderUnique(rows, rows, None);
    forall i | 0 <= i < |roots|
      ensures Hangs(g, roots[i].id, {})
    {
      RootIsRooted(g, roots[i].id);
    }
    NodesEmit(rows, roots, 0, {}, cap, x);
    if ReachesRoot(g, x, cap) {
      var k: nat :| k <= cap && Ancestor(g, x, k).Some? && Ancestor(g, x, k).value in g
        && Next(g, Ancestor(g, x, k).value) == None;
      var r := Ancestor(g, x, k).value;
      var t := ListedUnder(rows, None, r);
      forall i | 0 <= i < |roots|
        ensures Below(g, x, roots[i].id, cap) <==> i == t
      {
        if Below(g, x, roots[i].id, cap) {
          var j: nat :| j <= cap && Ancestor(g, x, j) == Some(roots[i].id);
          OneEnd(g, x, j, k);
        }
      }
      CountOne(g, roots, x, cap, t);
    } else {
      forall i | 0 <= i < |roots|
        ensures !Below(g, x, roots[i].id, cap)
      {
        assert roots[i].id in g && Next(g, roots[i].id) == None;
      }
      CountNone(g, roots, x, cap);
    }
  }

  lemma RootIsRooted(g: Graph, r: Id)
    requires r in g && Next(g, r) == None
    ensures Rooted(g, r)
  {
    assert 0 <= 0 && Ancestor(g, r, 0) == Some(r);
    assert ReachesRoot(g, r, 0);
  }

  /** A chain has one end. */
  lemma {:induction false} OneEnd(g: Graph, x: Id, j: nat, k: nat)
    requires Ancestor(g, x, j).Some? && Next(g, Ancestor(g, x, j).value) == None
    requires Ancestor(g, x, k).Some? && Next(g, Ancestor(g, x, k).value) == None
    ensures j == k
  {
    if j < k {
      NoneStays(g, x, j + 1, k);
    } else if k < j {
      NoneStays(g, x, k + 1, j);
    }
  }

  // ---- over the column of the table ------------------------------------------------------------------

  /** Going from row to row by `reports_to`, a row of the top level comes within `n` steps. */
  ghost predicate LeadsToTop(rows: seq<Row>, i: nat, n: nat)
    requires i < |rows|
    decreases n
  {
    || IsTop(rows, rows[i])
    || (n > 0 && exists j :: 0 <= j < |rows| && rows[i].reportsTo == Some(rows[j].id) && LeadsToTop(rows, j, n - 1))
  }

  lemma TopHasNoManager(rows: seq<Row>, row: Row)
    ensures IsTop(rows, row) <==> ManagerOf(rows, row) == None
    ensures !IsTop(rows, row) ==> ManagerOf(rows, row) == row.reportsTo && HasRow(rows, row.reportsTo.value)
  {
  }

  lemma NextInTable(rows: seq<Row>, i: nat)
    requires UniqueIds(rows) && i < |rows|
    ensures rows[i].id in Managers(rows)
    ensures Next(Managers(rows), rows[i].id) == if IsTop(rows, rows[i]) then None else rows[i].reportsTo
  {
    GraphHasManager(rows, rows, i);
    TopHasNoManager(rows, rows[i]);
  }

  lemma AncestorFromNext(g: Graph, x: Id, y: Id, k: nat)
    requires Next(g, x) == Some(y)
    ensures Ancestor(g, x, k + 1) == Ancestor(g, y, k)
  {
    assert Ancestor(g, x, 1) == Some(y);
    AncestorAdd(g, x, 1, y, k);
  }

  lemma RootStepsBack(g: Graph, x: Id, y: Id, n: nat)
    requires Next(g, x) == Some(y)
    ensures ReachesRoot(g, x, n + 1) <==> ReachesRoot(g, y, n)
  {
    if ReachesRoot(g, x, n + 1) {
      var k: nat :| k <= n + 1 && Ancestor(g, x, k).Some? && Ancestor(g, x, k).value in g
        && Next(g, Ancestor(g, x, k).value) == None;
      assert k > 0;
      AncestorFromNext(g, x, y, k - 1);
      assert k - 1 <= n && Ancestor(g, y, k - 1) == Ancestor(g, x, k);
    }
    if ReachesRoot(g, y, n) {
      var k: nat :| k <= n && Ancestor(g, y, k).Some? && Ancestor(g, y, k).value in g
        && Next(g, Ancestor(g, y, k).value) == None;
      AncestorFromNext(g, x, y, k);
      assert k + 1 <= n + 1 && Ancestor(g, x, k + 1) == Ancestor(g, y, k);
    }
  }

  lemma NoStepNoRoot(g: Graph, x: Id)
    requires Next(g, x).Some?
    ensures !ReachesRoot(g, x, 0)
  {
  }

  lemma {:induction false} LeadsToTopIff(rows: seq<Row>, i: nat, n: nat)
    requires UniqueIds(rows) && i < |rows|
    ensures LeadsToTop(rows, i, n) <==> ReachesRoot(Managers(rows), rows[i].id, n)
    decreases n
  {
    var g := Managers(rows);
    NextInTable(rows, i);
    if IsTop(rows, rows[i]) {
      assert 0 <= n && Ancestor(g, rows[i].id, 0) == Some(rows[i].id);
    } else if n == 0 {
      NoStepNoRoot(g, rows[i].id);
    } else {
      var j :| 0 <= j < |rows| && rows[i].reportsTo == Some(rows[j].id);
      RootStepsBack(g, rows[i].id, rows[j].id, n - 1);
      LeadsToTopIff(rows, j, n - 1);
      forall k | 0 <= k < |rows| && rows[i].reportsTo == Some(rows[k].id)
        ensures k == j
      {
      }
    }
  }

  lemma NoRowNoRoot(rows: seq<Row>, x: Id, n: nat)
    requires !HasRow(rows, x)
    ensures !ReachesRoot(Managers(rows), x, n)
  {
    var g := Managers(rows);
    if x in g {
      var i := GraphHasRow(rows, rows, x);
      assert false;
    }
    if ReachesRoot(g, x, n) {
      var k: nat :| k <= n && Ancestor(g, x, k).Some? && Ancestor(g, x, k).value in g
        && Next(g, Ancestor(g, x, k).value) == None;
      if k > 0 {
        NoneStays(g, x, 1, k);
      }
      assert false;
    }
  }

  /**
    On any table with unique ids, a row appears in the forest exactly once if `reports_to` leads from
    it to a row of the top level within `cap` steps, and nothing else appears.
  */
  lemma OrgTreeEmitsOnce(rows: seq<Row>, cap: nat)
    requires UniqueIds(rows)
    ensures forall i :: 0 <= i < |rows| ==>
      Emitted(OrgTree(rows, cap), rows[i].id) == if LeadsToTop(rows, i, cap) then 1 else 0
    ensures forall x :: !HasRow(rows, x) ==> Emitted(OrgTree(rows, cap), x) == 0
  {
    forall i | 0 <= i < |rows|
      ensures Emitted(OrgTree(rows, cap), rows[i].id) == if LeadsToTop(rows, i, cap) then 1 else 0
    {
      LeadsToTopIff(rows, i, cap);
      EmitsWhatReachesRoot(rows, cap, rows[i].id);
    }
    forall x | !HasRow(rows, x)
      ensures Emitted(OrgTree(rows, cap), x) == 0
    {
      NoRowNoRoot(rows, x, cap);
      EmitsWhatReachesRoot(rows, cap, x);
    }
  }

  /** The rows at the increasing positions `at` of the table, in that order. */
  predicate ListedAt(rows: seq<Row>, nodes: seq<OrgNode>, at: seq<nat>) {
    && |nodes| == |at|
    && (forall k :: 0 <= k < |at| ==> at[k] < |rows| && nodes[k].row == rows[at[k]])
    && (forall j, k :: 0 <= j < k < |at| ==> at[j] < at[k])
  }

  /** Exactly the rows without a manager that has a row, in the order of the table. */
  ghost predicate ListsTops(rows: seq<Row>, nodes: seq<OrgNode>) {
    exists at :: ListedAt(rows, nodes, at) && forall i :: 0 <= i < |rows| ==> (i in at <==> IsTop(rows, rows[i]))
  }

  /** Exactly the rows that name `m`, in the order of the table. */
  ghost predicate ListsReports(rows: seq<Row>, nodes: seq<OrgNode>, m: Id) {
    exists at :: ListedAt(rows, nodes, at)
      && forall i :: 0 <= i < |rows| ==> (i in at <==> m != "" && rows[i].reportsTo == Some(m))
  }

  /** Down to `n` levels below this node each lists exactly its reports; below that, nothing. */
  ghost predicate CompleteBelow(rows: seq<Row>, node: OrgNode, n: nat)
    decreases n, 0
  {
    if n == 0 then node.reports == []
    else ListsReports(rows, node.reports, node.row.id) && Complete(rows, node.reports, n - 1)
  }

  ghost predicate Complete(rows: seq<Row>, nodes: seq<OrgNode>, n: nat)
    decreases n, 1
  {
    forall i :: 0 <= i < |nodes| ==> CompleteBelow(rows, nodes[i], n)
  }

  /** `sub` is the rows at the increasing positions `at`, which are those below `n` of rows under the manager. */
  predicate Marks(rows: seq<Row>, n: nat, sub: seq<Row>, at: seq<nat>, manager: Option<Id>)
    requires n <= |rows|
  {
    && |sub| == |at|
    && (forall k :: 0 <= k < |at| ==> at[k] < n && sub[k] == rows[at[k]])
    && (forall j, k :: 0 <= j < k < |at| ==> at[j] < at[k])
    && (forall i :: 0 <= i < n ==> (i in at <==> ManagerOf(rows, rows[i]) == manager))
  }

  lemma MarksStep(rows: seq<Row>, n: nat, sub: seq<Row>, at: seq<nat>, manager: Option<Id>)
    requires 0 < n <= |rows| && Marks(rows, n - 1, sub, at, manager)
    ensures if ManagerOf(rows, rows[n - 1]) == manager then Marks(rows, n, sub + [rows[n - 1]], at + [n - 1], manager)
      else Marks(rows, n, sub, at, manager)
  {
    assert n - 1 in at ==> false;
    if ManagerOf(rows, rows[n - 1]) == manager {
      var later := at + [n - 1];
      assert later[|at|] == n - 1;
      assert forall i :: i in at ==> i in later;
    }
  }

  lemma RowsUnderStep(rows: seq<Row>, n: nat, some: seq<Row>, fewer: seq<Row>, manager: Option<Id>)
    requires 0 < n <= |rows| && some == rows[..n] && fewer == rows[..n - 1]
    ensures RowsUnder(rows, some, manager)
         == if ManagerOf(rows, rows[n - 1]) == manager then RowsUnder(rows, fewer, manager) + [rows[n - 1]]
            else RowsUnder(rows, fewer, manager)
  {
    assert some[..n - 1] == fewer && some[n - 1] == rows[n - 1];
  }

  lemma {:induction false} PositionsUnder(rows: seq<Row>, n: nat, manager: Option<Id>) returns (at: seq<nat>)
    requires n <= |rows|
    ensures Marks(rows, n, RowsUnder(rows, rows[..n], manager), at, manager)
  {
    if n == 0 {
      at := [];
    } else {
      at := PositionsUnder(rows, n - 1, manager);
      RowsUnderStep(rows, n, rows[..n], rows[..n - 1], manager);
      MarksStep(rows, n, RowsUnder(rows, rows[..n - 1], manager), at, manager);
      if ManagerOf(rows, rows[n - 1]) == manager {
        at := at + [n - 1];
      }
    }
  }

  lemma {:induction false} NodesAreRows(rows: seq<Row>, some: seq<Row>, depth: nat, seen: set<Id>, cap: nat)
    requires depth <= cap && forall i :: 0 <= i < |some| ==> some[i].id !in seen
    ensures |Nodes(rows, some, depth, seen, cap)| == |some|
    ensures forall i :: 0 <= i < |some| ==> Nodes(rows, some, depth, seen, cap)[i] == Node(rows, some[i], depth, seen, cap)
    decreases |some|
  {
    if some != [] {
      NodesAreRows(rows, some[1..], depth, seen, cap);
    }
  }

  /** A node that is not on a cycle lists all its reports, the rows above it being others. */
  lemma HangingChildren(rows: seq<Row>, c: Id, seen: set<Id>)
    requires UniqueIds(rows) && Hangs(Managers(rows), c, seen)
    ensures forall i :: 0 <= i < |Children(rows, c)| ==> Hangs(Managers(rows), Children(rows, c)[i].id, seen + {c})
    ensures forall i :: 0 <= i < |Children(rows, c)| ==> Children(rows, c)[i].id !in seen + {c}
  {
    var g, kids := Managers(rows), Children(rows, c);
    UnderHasManager(rows, Some(c));
    forall i | 0 <= i < |kids|
      ensures Hangs(g, kids[i].id, seen + {c}) && kids[i].id !in seen + {c}
    {
      ReportHangs(g, c, kids[i].id, seen);
      RootedIsNotOnCycle(g, kids[i].id);
    }
  }

  lemma ReportsAreListed(rows: seq<Row>, nodes: seq<OrgNode>, c: Id)
    requires HasRow(rows, c) && NodesOf(nodes, Children(rows, c))
    ensures ListsReports(rows, nodes, c)
  {
    assert rows[..|rows|] == rows;
    var at := PositionsUnder(rows, |rows|, Some(c));
    assert ListedAt(rows, nodes, at);
  }

  lemma TopsAreListed(rows: seq<Row>, nodes: seq<OrgNode>)
    requires NodesOf(nodes, Roots(rows))
    ensures ListsTops(rows, nodes)
  {
    assert rows[..|rows|] == rows;
    var at := PositionsUnder(rows, |rows|, None);
    forall i | 0 <= i < |rows|
      ensures i in at <==> IsTop(rows, rows[i])
    {
      TopHasNoManager(rows, rows[i]);
    }
    assert ListedAt(rows, nodes, at);
  }

  /** These rows hang where they stand, and none of them stands above. */
  ghost predicate AllHang(rows: seq<Row>, some: seq<Row>, seen: set<Id>) {
    forall i :: 0 <= i < |some| ==>
      HasRow(rows, some[i].id) && some[i].id !in seen && Hangs(Managers(rows), some[i].id, seen)
  }

  lemma ChildrenHang(rows: seq<Row>, c: Id, seen: set<Id>)
    requires UniqueIds(rows) && Hangs(Managers(rows), c, seen)
    ensures AllHang(rows, Children(rows, c), seen + {c})
  {
    HangingChildren(rows, c, seen);
    forall i | 0 <= i < |Children(rows, c)|
      ensures HasRow(rows, Children(rows, c)[i].id)
    {
      assert Children(rows, c)[i] in Children(rows, c);
    }
  }

  /** `nodes` are the nodes of the rows `some`, one by one. */
  predicate NodesOf(nodes: seq<OrgNode>, some: seq<Row>) {
    |nodes| == |some| && forall i :: 0 <= i < |some| ==> nodes[i].row == some[i]
  }

  lemma HangingNodes(rows: seq<Row>, some: seq<Row>, depth: nat, seen: set<Id>, cap: nat)
    requires depth <= cap && AllHang(rows, some, seen)
    ensures NodesOf(Nodes(rows, some, depth, seen, cap), some)
  {
    NodesAreRows(rows, some, depth, seen, cap);
  }

  lemma {:induction false} NodeComplete(rows: seq<Row>, row: Row, depth: nat, seen: set<Id>, cap: nat, n: nat)
    requires UniqueIds(rows) && cap == depth + n && HasRow(rows, row.id) && Hangs(Managers(rows), row.id, seen)
    ensures CompleteBelow(rows, Node(rows, row, depth, seen, cap), n)
    decreases n, 0
  {
    if n > 0 {
      var kids := Children(rows, row.id);
      var nodes := Nodes(rows, kids, depth + 1, seen + {row.id}, cap);
      assert Node(rows, row, depth, seen, cap).reports == nodes;
      ChildrenHang(rows, row.id, seen);
      HangingNodes(rows, kids, depth + 1, seen + {row.id}, cap);
      ReportsAreListed(rows, nodes, row.id);
      NodesComplete(rows, kids, depth + 1, seen + {row.id}, cap, n - 1);
    }
  }

  lemma {:induction false} NodesComplete(rows: seq<Row>, some: seq<Row>, depth: nat, seen: set<Id>, cap: nat, n: nat)
    requires UniqueIds(rows) && cap == depth + n && AllHang(rows, some, seen)
    ensures Complete(rows, Nodes(rows, some, depth, seen, cap), n)
    decreases n, 1
  {
    NodesAreRows(rows, some, depth, seen, cap);
    var nodes := Nodes(rows, some, depth, seen, cap);
    forall i | 0 <= i < |nodes|
      ensures CompleteBelow(rows, nodes[i], n)
    {
      NodeComplete(rows, some[i], depth, seen, cap, n);
    }
  }

  lemma RootsHang(rows: seq<Row>)
    requires UniqueIds(rows)
    ensures AllHang(rows, Roots(rows), {})
  {
    var roots := Roots(rows);
    UnderHasManager(rows, None);
    forall i | 0 <= i < |roots|
      ensures HasRow(rows, roots[i].id) && Hangs(Managers(rows), roots[i].id, {})
    {
      assert roots[i] in roots;
      RootIsRooted(Managers(rows), roots[i].id);
    }
  }

  lemma TopLevelComplete(rows: seq<Row>, roots: seq<Row>, depth: nat, seen: set<Id>, cap: nat, forest: seq<OrgNode>)
    requires UniqueIds(rows) && roots == Roots(rows) && depth == 0 && seen == {}
    requires forest == Nodes(rows, roots, depth, seen, cap)
    ensures ListsTops(rows, forest) && Complete(rows, forest, cap)
  {
    RootsHang(rows);
    HangingNodes(rows, roots, depth, seen, cap);
    TopsAreListed(rows, forest);
    NodesComplete(rows, roots, depth, seen, cap, cap);
  }

  /**
    The whole forest, from the column `reports_to` alone: the top level lists exactly the rows that name
    no manager with a row, every node exactly the rows that name it, each in the order of the table.
  */
  lemma OrgTreeIsComplete(rows: seq<Row>, cap: nat, forest: seq<OrgNode>)
    requires UniqueIds(rows) && forest == OrgTree(rows, cap)
    ensures ListsTops(rows, forest) && Complete(rows, forest, cap)
  {
    TopLevelComplete(rows, Roots(rows), 0, {}, cap, forest);
  }

  /** Every node is a row of the table, below the node it names or at the top, ids unique or not. */
  predicate Nested(rows: seq<Row>, nodes: seq<OrgNode>, manager: Option<Id>) {
    forall i :: 0 <= i < |nodes| ==>
      && nodes[i].row in rows
      && (if manager.None? then IsTop(rows, nodes[i].row) else manager != Some("") && nodes[i].row.reportsTo == manager)
      && Nested(rows, nodes[i].reports, Some(nodes[i].row.id))
  }

  lemma {:induction false} NodesNested(rows: seq<Row>, some: seq<Row>, depth: nat, seen: set<Id>, cap: nat, manager: Option<Id>)
    requires depth <= cap
    requires forall i :: 0 <= i < |some| ==> some[i] in rows && ManagerOf(rows, some[i]) == manager
    ensures Nested(rows, Nodes(rows, some, depth, seen, cap), manager)
    decreases cap - depth, |some|
  {
    if some != [] {
      TopHasNoManager(rows, some[0]);
      NodesNested(rows, some[1..], depth, seen, cap, manager);
      if depth < cap {
        NodesNested(rows, Children(rows, some[0].id), depth + 1, seen + {some[0].id}, cap, Some(some[0].id));
      }
    }
  }

  lemma OrgTreeNested(rows: seq<Row>, cap: nat)
    ensures Nested(rows, OrgTree(rows, cap), None)
  {
    NodesNested(rows, Roots(rows), 0, {}, cap, None);
  }

  // ---- as the source computes it --------------------------------------------------------------------

  lemma OneMoreRow(rows: seq<Row>, i: nat, id: Id)
    requires i < |rows|
    ensures HasRow(rows[..i + 1], id) <==> HasRow(rows[..i], id) || id == rows[i].id
  {
    assert rows[..i + 1] == rows[..i] + [rows[i]];
    assert rows[..i + 1][i] == rows[i];
    if HasRow(rows[..i], id) {
      var k :| 0 <= k < i && rows[..i][k].id == id;
      assert rows[..i + 1][k].id == id;
    }
  }

  method RowIds(rows: seq<Row>) returns (ids: set<Id>)
    ensures forall id :: id in ids <==> HasRow(rows, id)
  {
    ids := {};
    for i := 0 to |rows|
      invariant forall id :: id in ids <==> HasRow(rows[..i], id)
    {
      ids := ids + {rows[i].id};
      forall id
        ensures id in ids <==> HasRow(rows[..i + 1], id)
      {
        OneMoreRow(rows, i, id);
      }
    }
    assert rows[..|rows|] == rows;
  }

  /** Two passes over the rows build `children` and `roots`; then each root is expanded. */
  method GetOrgTree(rows: seq<Row>) returns (forest: seq<OrgNode>)
    ensures forest == OrgTree(rows, MAX_REPORTS_TO_WALK)
    ensures UniqueIds(rows) ==> ListsTops(rows, forest) && Complete(rows, forest, 50)
    ensures Nested(rows, forest, None)
  {
    var ids := RowIds(rows);
    var children: map<Id, seq<Row>> := map[];
    var roots: seq<Row> := [];
    for i := 0 to |rows|
      invariant roots == RowsUnder(rows, rows[..i], None)
      invariant forall m :: ReportsIn(children, m) == RowsUnder(rows, rows[..i], Some(m))
    {
      var row := rows[i];
      assert rows[..i + 1][..i] == rows[..i];
      if row.reportsTo.Some? && row.reportsTo.value != "" && row.reportsTo.value in ids {
        var m := row.reportsTo.value;
        children := children[m := ReportsIn(children, m) + [row]];
      } else {
        roots := roots + [row];
      }
    }
    assert rows[..|rows|] == rows;
    forest := BuildNodes(rows, roots, 0, {}, children);
    OrgTreeNested(rows, MAX_REPORTS_TO_WALK);
    if UniqueIds(rows) {
      OrgTreeIsComplete(rows, MAX_REPORTS_TO_WALK, forest);
    }
  }

  function ReportsIn(children: map<Id, seq<Row>>, m: Id): seq<Row> {
    if m in children then children[m] else []
  }

  lemma NodesStep(rows: seq<Row>, some: seq<Row>, i: nat, depth: nat, seen: set<Id>, cap: nat)
    requires i < |some| && depth <= cap
    ensures Nodes(rows, some[i..], depth, seen, cap)
         == (if some[i].id in seen then [] else [Node(rows, some[i], depth, seen, cap)])
            + Nodes(rows, some[i + 1..], depth, seen, cap)
  {
    assert some[i..][1..] == some[i + 1..];
  }

  /** `build_node`. */
  method BuildNode(rows: seq<Row>, row: Row, depth: nat, seen: set<Id>, children: map<Id, seq<Row>>)
    returns (node: OrgNode)
    requires depth <= MAX_REPORTS_TO_WALK
    requires forall m :: ReportsIn(children, m) == Children(rows, m)
    ensures node == Node(rows, row, depth, seen, MAX_REPORTS_TO_WALK)
    decreases MAX_REPORTS_TO_WALK - depth, 0
  {
    var reports: seq<OrgNode> := [];
    if depth < MAX_REPORTS_TO_WALK {
      reports := BuildNodes(rows, ReportsIn(children, row.id), depth + 1, seen + {row.id}, children);
    }
    return OrgNode(row, reports);
  }

  method BuildNodes(rows: seq<Row>, some: seq<Row>, depth: nat, seen: set<Id>, children: map<Id, seq<Row>>)
    returns (nodes: seq<OrgNode>)
    requires depth <= MAX_REPORTS_TO_WALK
    requires forall m :: ReportsIn(children, m) == Children(rows, m)
    ensures nodes == Nodes(rows, some, depth, seen, MAX_REPORTS_TO_WALK)
    decreases MAX_REPORTS_TO_WALK - depth, 1
  {
    nodes := [];
    for i := 0 to |some|
      invariant nodes + Nodes(rows, some[i..], depth, seen, MAX_REPORTS_TO_WALK)
             == Nodes(rows, some, depth, seen, MAX_REPORTS_TO_WALK)
    {
      NodesStep(rows, some, i, depth, seen, MAX_REPORTS_TO_WALK);
      if some[i].id !in seen {
        var node := BuildNode(rows, some[i], depth, seen, children);
        nodes := nodes + [node];
      }
    }
  }
}
