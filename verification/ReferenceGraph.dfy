/** Reachability in a finite, possibly cyclic graph whose nodes may name undefined nodes. */
module ReferenceGraph {
  type Graph = map<string, set<string>>

  function Next(graph: Graph, name: string): set<string> {
    if name in graph then graph[name] else {}
  }

  /** A chain of references that starts at a root and stays among the defined nodes. */
  predicate Chain(graph: Graph, roots: set<string>, path: seq<string>) {
    && path != [] && path[0] in roots
    && (forall i | 0 <= i < |path| :: path[i] in graph)
    && (forall i | 0 < i < |path| :: path[i] in Next(graph, path[i - 1]))
  }

  ghost predicate Reaches(graph: Graph, roots: set<string>, name: string) {
    exists path :: Chain(graph, roots, path) && path[|path| - 1] == name
  }

  /** The defined nodes that some chain ends in. */
  ghost function Reachable(graph: Graph, roots: set<string>): set<string> {
    set name | name in graph && Reaches(graph, roots, name)
  }

  /** A set that holds the defined roots and every defined successor of its members. */
  predicate Closed(graph: Graph, roots: set<string>, names: set<string>) {
    && (forall name | name in roots && name in graph :: name in names)
    && (forall name, next | name in names && next in Next(graph, name) && next in graph :: next in names)
  }

  lemma ReachesNext(graph: Graph, roots: set<string>, name: string, next: string)
    requires Reaches(graph, roots, name) && next in Next(graph, name) && next in graph
    ensures Reaches(graph, roots, next)
  {
    var path :| Chain(graph, roots, path) && path[|path| - 1] == name;
    var longer := path + [next];
    assert forall i | 0 <= i < |path| :: longer[i] == path[i];
    assert Chain(graph, roots, longer) && longer[|longer| - 1] == next;
  }

  lemma ReachableIsClosed(graph: Graph, roots: set<string>)
    ensures Closed(graph, roots, Reachable(graph, roots))
  {
    forall name | name in roots && name in graph
      ensures name in Reachable(graph, roots)
    {
      assert Chain(graph, roots, [name]);
    }
    forall name, next | name in Reachable(graph, roots) && next in Next(graph, name) && next in graph
      ensures next in Reachable(graph, roots)
    {
      ReachesNext(graph, roots, name, next);
    }
  }

  lemma {:induction false} ClosedHoldsChain(graph: Graph, roots: set<string>, names: set<string>, path: seq<string>)
    requires Closed(graph, roots, names) && Chain(graph, roots, path)
    ensures path[|path| - 1] in names
  {
    var last := |path| - 1;
    if last > 0 {
      ClosedHoldsChain(graph, roots, names, path[..last]);
      assert path[..last][last - 1] == path[last - 1];
    }
  }

  /** Reachability is the least closed set: it is closed, and inside every closed set. */
  lemma ReachableIsLeast(graph: Graph, roots: set<string>, names: set<string>)
    requires Closed(graph, roots, names)
    ensures Closed(graph, roots, Reachable(graph, roots))
    ensures Reachable(graph, roots) <= names
  {
    ReachableIsClosed(graph, roots);
    forall name | name in Reachable(graph, roots)
      ensures name in names
    {
      var path :| Chain(graph, roots, path) && path[|path| - 1] == name;
      ClosedHoldsChain(graph, roots, names, path);
    }
  }

  // ----- cutting a graph down to its reachable part -----

  function Restrict<T>(m: map<string, T>, names: set<string>): map<string, T> {
    map name | name in m && name in names :: m[name]
  }

  lemma ClosedInRestriction(graph: Graph, roots: set<string>, kept: set<string>, names: set<string>)
    requires Closed(graph, roots, kept) && names <= kept
    ensures Closed(graph, roots, names) <==> Closed(Restrict(graph, kept), roots, names)
  {}

  lemma ReachableInRestriction(graph: Graph, roots: set<string>)
    ensures Reachable(Restrict(graph, Reachable(graph, roots)), roots) == Reachable(graph, roots)
  {
    var reachable := Reachable(graph, roots);
    var small := Restrict(graph, reachable);
    var again := Reachable(small, roots);
    ReachableIsClosed(graph, roots);
    ClosedInRestriction(graph, roots, reachable, reachable);
    ReachableIsLeast(small, roots, reachable);
    ReachableIsClosed(small, roots);
    ClosedInRestriction(graph, roots, reachable, again);
    ReachableIsLeast(graph, roots, again);
  }

  // ----- two graphs that agree on what matters -----

  /** Every name the reachable part mentions, defined or not. */
  ghost function Mentioned(graph: Graph, roots: set<string>): set<string> {
    roots + set name, next | name in Reachable(graph, roots) && next in Next(graph, name) :: next
  }

  predicate SameEntry<T(==)>(a: map<string, T>, b: map<string, T>, name: string) {
    (name in a <==> name in b) && (name in a ==> a[name] == b[name])
  }

  lemma ReachableIsMentioned(graph: Graph, roots: set<string>)
    ensures Reachable(graph, roots) <= Mentioned(graph, roots)
  {
    var inside := Reachable(graph, roots) * Mentioned(graph, roots);
    ReachableIsClosed(graph, roots);
    assert Closed(graph, roots, inside);
    ReachableIsLeast(graph, roots, inside);
  }

  lemma ClosedTransfer(a: Graph, b: Graph, roots: set<string>, names: set<string>)
    requires Closed(a, roots, names)
    requires forall name | name in roots || name in names :: SameEntry(a, b, name)
    requires forall name, next | name in names && next in Next(a, name) :: SameEntry(a, b, next)
    ensures Closed(b, roots, names)
  {
    forall name | name in roots && name in b
      ensures name in names
    {
      assert SameEntry(a, b, name);
    }
    forall name, next | name in names && next in Next(b, name) && next in b
      ensures next in names
    {
      assert SameEntry(a, b, name);
      assert next in Next(a, name);
      assert SameEntry(a, b, next);
    }
  }

  lemma ClosedTransferBack(a: Graph, b: Graph, roots: set<string>, names: set<string>)
    requires Closed(b, roots, names)
    requires forall name | name in roots || name in names :: SameEntry(a, b, name)
    requires forall name, next | name in names && next in Next(a, name) :: SameEntry(a, b, next)
    ensures Closed(a, roots, names)
  {
    forall name | name in roots && name in a
      ensures name in names
    {
      assert SameEntry(a, b, name);
    }
    forall name, next | name in names && next in Next(a, name) && next in a
      ensures next in names
    {
      assert SameEntry(a, b, name);
      assert SameEntry(a, b, next);
      assert next in Next(b, name);
    }
  }

  lemma SameEntriesReach(a: Graph, b: Graph, roots: set<string>)
    requires forall name | name in Mentioned(a, roots) :: SameEntry(a, b, name)
    ensures Reachable(a, roots) == Reachable(b, roots)
  {
    var x, y := Reachable(a, roots), Reachable(b, roots);
    ReachableIsMentioned(a, roots);
    ReachableIsClosed(a, roots);
    ClosedTransfer(a, b, roots, x);
    ReachableIsLeast(b, roots, x);
    ReachableIsClosed(b, roots);
    ClosedTransferBack(a, b, roots, y);
    ReachableIsLeast(a, roots, y);
  }
}
