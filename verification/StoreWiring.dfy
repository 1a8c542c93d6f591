/**
  Two closures of scripts/check_store_wiring.py: a depth-first search that shares one mutable
  visited set among all its branches, and the alias loop that grows a set until it is stable.
*/
module StoreWiring {
  type Name = string

  const BASE_STORE: Name := "BaseStore"

  /** Direct base classes by class name; names without an entry have none. */
  type Classes = map<Name, set<Name>>

  function Bases(classes: Classes, c: Name): set<Name> {
    if c in classes then classes[c] else {}
  }

  /** A path along base classes: each name is a direct base of the one before it. */
  predicate IsPath(classes: Classes, path: seq<Name>) {
    && path != []
    && forall k :: 0 < k < |path| ==> path[k] in Bases(classes, path[k - 1])
  }

  ghost predicate Reaches(classes: Classes, from: Name, to: Name) {
    exists path :: IsPath(classes, path) && path[0] == from && path[|path| - 1] == to
  }

  /** Every name a search can meet. */
  function Universe(classes: Classes): set<Name> {
    set c, b | c in classes && b in classes[c] :: b
  }

  /** The set the recursive calls share. */
  class Visited {
    var names: set<Name>

    constructor ()
      ensures names == {}
    {
      names := {};
    }
  }

  /** Everything marked since `before` has all its bases marked, and the goal is not among it. */
  predicate ClosedSince(classes: Classes, before: set<Name>, after: set<Name>) {
    && before <= after && BASE_STORE !in after
    && forall c :: c in after - before ==> Bases(classes, c) <= after
  }

  method InheritsFrom(c: Name, classes: Classes, visited: Visited, ghost all: set<Name>) returns (found: bool)
    requires BASE_STORE !in visited.names && Universe(classes) <= all && c in all && visited.names <= all
    modifies visited
    ensures visited.names <= all && BASE_STORE !in visited.names && old(visited.names) <= visited.names
    ensures found ==> Reaches(classes, c, BASE_STORE)
    ensures !found ==> c in visited.names && ClosedSince(classes, old(visited.names), visited.names)
    decreases all - visited.names
  {
    if c == BASE_STORE {
      assert IsPath(classes, [c]);
      return true;
    }
    if c in visited.names {
      return false;
    }
    visited.names := visited.names + {c};
    var left := Bases(classes, c);
    while left != {}
      invariant left <= Bases(classes, c)
      invariant old(visited.names) + {c} <= visited.names <= all && BASE_STORE !in visited.names
      invariant Bases(classes, c) - left <= visited.names
      invariant forall x :: x in visited.names - old(visited.names) - {c} ==> Bases(classes, x) <= visited.names
      decreases left
    {
      var base :| base in left;
      assert base in Universe(classes);
      var inherits := InheritsFrom(base, classes, visited, all);
      if inherits {
        PathThroughBase(classes, c, base);
        return true;
      }
      left := left - {base};
    }
    return false;
  }

  lemma PathThroughBase(classes: Classes, c: Name, base: Name)
    requires base in Bases(classes, c) && Reaches(classes, base, BASE_STORE)
    ensures Reaches(classes, c, BASE_STORE)
  {
    var path :| IsPath(classes, path) && path[0] == base && path[|path| - 1] == BASE_STORE;
    var longer := [c] + path;
    assert forall k :: 0 < k < |longer| ==> longer[k] == path[k - 1];
    assert IsPath(classes, longer);
  }

  /** No path leaves a set that is closed under direct bases. */
  lemma {:induction false} ClosedSetKeepsPath(classes: Classes, closed: set<Name>, path: seq<Name>, n: nat)
    requires forall c :: c in closed ==> Bases(classes, c) <= closed
    requires IsPath(classes, path) && path[0] in closed && n < |path|
    ensures path[n] in closed
  {
    if n > 0 {
      ClosedSetKeepsPath(classes, closed, path, n - 1);
    }
  }

  /**
    On every class graph, cyclic ones included, the search ends and answers true exactly when
    BaseStore can be reached.
  */
  method InheritsBaseStore(c: Name, classes: Classes) returns (found: bool)
    ensures found <==> Reaches(classes, c, BASE_STORE)
  {
    var visited := new Visited();
    found := InheritsFrom(c, classes, visited, Universe(classes) + {c});
    if !found && Reaches(classes, c, BASE_STORE) {
      ghost var path :| IsPath(classes, path) && path[0] == c && path[|path| - 1] == BASE_STORE;
      ClosedSetKeepsPath(classes, visited.names, path, |path| - 1);
      assert false;
    }
  }

  // ---- aliases ---------------------------------------------------------------------------------------

  /** What the walk over the syntax tree sees of an assignment. */
  datatype Assign =
    | Instantiation(targets: seq<Name>, className: Name)  // x = ClassName(...)
    | Alias(targets: seq<Name>, source: Name)             // y = x
    | Other

  predicate Assigns(a: Assign, target: Name, source: Name) {
    a.Alias? && a.source == source && target in a.targets
  }

  ghost predicate IsSeed(program: seq<Assign>, className: Name, x: Name) {
    exists a :: a in program && a.Instantiation? && a.className == className && x in a.targets
  }

  ghost predicate IsLink(program: seq<Assign>, target: Name, source: Name) {
    exists a :: a in program && Assigns(a, target, source)
  }

  /** `chain` starts at a direct instantiation of the class and follows aliases. */
  ghost predicate AliasChain(program: seq<Assign>, className: Name, chain: seq<Name>) {
    && chain != []
    && IsSeed(program, className, chain[0])
    && forall k :: 0 < k < |chain| ==> IsLink(program, chain[k], chain[k - 1])
  }

  ghost predicate HoldsInstance(program: seq<Assign>, className: Name, x: Name) {
    exists chain :: AliasChain(program, className, chain) && chain[|chain| - 1] == x
  }

  function TargetsOf(a: Assign): set<Name> {
    if a.Other? then {} else set t | t in a.targets
  }

  function AllTargets(program: seq<Assign>): set<Name> {
    set a, t | a in program && t in TargetsOf(a) :: t
  }

  lemma AliasExtends(program: seq<Assign>, className: Name, a: Assign, x: Name)
    requires a in program && a.Alias? && x in a.targets && HoldsInstance(program, className, a.source)
    ensures HoldsInstance(program, className, x)
  {
    var chain :| AliasChain(program, className, chain) && chain[|chain| - 1] == a.source;
    var longer := chain + [x];
    assert Assigns(a, x, a.source);
    forall k | 0 < k < |longer|
      ensures IsLink(program, longer[k], longer[k - 1])
    {
      assert longer[k - 1] == chain[k - 1];
      assert k < |chain| ==> longer[k] == chain[k];
    }
    assert AliasChain(program, className, longer) && longer[|longer| - 1] == x;
  }

  /** A set with all instantiations that no alias leaves holds every chain. */
  lemma {:induction false} StableSetHoldsChain(program: seq<Assign>, className: Name, vars: set<Name>, chain: seq<Name>, n: nat)
    requires forall a :: a in program && a.Instantiation? && a.className == className ==> TargetsOf(a) <= vars
    requires forall a :: a in program && a.Alias? && a.source in vars ==> TargetsOf(a) <= vars
    requires AliasChain(program, className, chain) && n < |chain|
    ensures chain[n] in vars
  {
    if n == 0 {
      var a :| a in program && a.Instantiation? && a.className == className && chain[0] in a.targets;
      assert chain[0] in TargetsOf(a);
    } else {
      StableSetHoldsChain(program, className, vars, chain, n - 1);
      var a :| a in program && Assigns(a, chain[n], chain[n - 1]);
      assert chain[n] in TargetsOf(a);
    }
  }

  /** One pass over the program; the set grows while the pass is still running. */
  method AliasPass(program: seq<Assign>, className: Name, vars: set<Name>) returns (grown: set<Name>, changed: bool)
    requires vars <= AllTargets(program)
    requires forall x :: x in vars ==> HoldsInstance(program, className, x)
    ensures vars <= grown <= AllTargets(program)
    ensures forall x :: x in grown ==> HoldsInstance(program, className, x)
    ensures changed <==> grown != vars
    ensures !changed ==> forall a :: a in program && a.Alias? && a.source in vars ==> TargetsOf(a) <= vars
  {
    grown, changed := vars, false;
    for i := 0 to |program|
      invariant vars <= grown <= AllTargets(program)
      invariant forall x :: x in grown ==> HoldsInstance(program, className, x)
      invariant changed <==> grown != vars
      invariant !changed ==>
        forall k :: 0 <= k < i && program[k].Alias? && program[k].source in vars ==> TargetsOf(program[k]) <= vars
    {
      var a := program[i];
      if a.Alias? && a.source in grown {
        forall x | x in a.targets
          ensures HoldsInstance(program, className, x)
        {
          AliasExtends(program, className, a, x);
        }
        var added := TargetsOf(a) - grown;
        assert TargetsOf(a) <= AllTargets(program);
        assert forall x :: x in TargetsOf(a) ==> x in added || x in grown;
        if added != {} {
          grown := grown + added;
          changed := true;
        }
      }
    }
  }

  /**
    Whatever the order of the statements, the loop ends with exactly the names that hold an
    instance of the class through direct instantiation and aliases.
  */
  method InstanceVars(program: seq<Assign>, className: Name) returns (vars: set<Name>)
    ensures forall x :: x in vars <==> HoldsInstance(program, className, x)
  {
    vars := {};
    for i := 0 to |program|
      invariant vars <= AllTargets(program)
      invariant forall x :: x in vars ==> HoldsInstance(program, className, x)
      invariant forall k ::
        0 <= k < i && program[k].Instantiation? && program[k].className == className ==> TargetsOf(program[k]) <= vars
    {
      var a := program[i];
      if a.Instantiation? && a.className == className {
        forall x | x in a.targets
          ensures HoldsInstance(program, className, x)
        {
          assert AliasChain(program, className, [x]);
        }
        assert TargetsOf(a) <= AllTargets(program);
        vars := vars + TargetsOf(a);
      }
    }
    var changed := true;
    while changed
      invariant vars <= AllTargets(program)
      invariant forall x :: x in vars ==> HoldsInstance(program, className, x)
      invariant forall a :: a in program && a.Instantiation? && a.className == className ==> TargetsOf(a) <= vars
      invariant !changed ==> forall a :: a in program && a.Alias? && a.source in vars ==> TargetsOf(a) <= vars
      decreases AllTargets(program) - vars, changed
    {
      var grown: set<Name>;
      grown, changed := AliasPass(program, className, vars);
      vars := grown;
    }
    forall x | HoldsInstance(program, className, x)
      ensures x in vars
    {
      var chain :| AliasChain(program, className, chain) && chain[|chain| - 1] == x;
      StableSetHoldsChain(program, className, vars, chain, |chain| - 1);
    }
  }
}
