// Reachability in a graph given by a relation, through explicit paths.
module Graphs {

  ghost predicate IsPath<T>(edge: (T, T) -> bool, path: seq<T>) {
    |path| > 0 && forall i, j :: 0 <= i && j == i + 1 && j < |path| ==> edge(path[i], path[j])
  }

  // t can be reached from a node of src by zero or more edges.
  ghost predicate Reaches<T(!new)>(edge: (T, T) -> bool, src: set<T>, t: T) {
    exists path: seq<T> :: IsPath(edge, path) && path[0] in src && path[|path| - 1] == t
  }

  ghost predicate EdgeClosed<T(!new)>(edge: (T, T) -> bool, S: set<T>) {
    forall x, y :: x in S && edge(x, y) ==> y in S
  }

  lemma {:induction false} PathInside<T(!new)>(edge: (T, T) -> bool, S: set<T>, path: seq<T>, k: nat)
    requires EdgeClosed(edge, S) && IsPath(edge, path) && path[0] in S && k < |path|
    ensures path[k] in S
  {
    if k > 0 {
      PathInside(edge, S, path, k - 1);
    }
  }

  // A closed set that contains the sources contains all that they reach.
  lemma ClosedContains<T(!new)>(edge: (T, T) -> bool, src: set<T>, S: set<T>)
    requires EdgeClosed(edge, S) && src <= S
    ensures forall t :: Reaches(edge, src, t) ==> t in S
  {
    forall t | Reaches(edge, src, t) ensures t in S {
      var path :| IsPath(edge, path) && path[0] in src && path[|path| - 1] == t;
      PathInside(edge, S, path, |path| - 1);
    }
  }

  lemma ReachesSelf<T(!new)>(edge: (T, T) -> bool, src: set<T>, t: T)
    requires t in src
    ensures Reaches(edge, src, t)
  {
    var path := [t];
    assert IsPath(edge, path) && path[|path| - 1] == t;
  }

  lemma ReachesStep<T(!new)>(edge: (T, T) -> bool, src: set<T>, t: T, u: T)
    requires Reaches(edge, src, t) && edge(t, u)
    ensures Reaches(edge, src, u)
  {
    var path :| IsPath(edge, path) && path[0] in src && path[|path| - 1] == t;
    var longer := path + [u];
    assert IsPath(edge, longer) && longer[0] in src && longer[|longer| - 1] == u;
  }

  // The part of a finite universe that the sources reach is closed, and every
  // closed set above the sources contains it.
  lemma ReachedIsLeastClosed<T(!new)>(edge: (T, T) -> bool, src: set<T>, all: set<T>)
    requires src <= all && EdgeClosed(edge, all)
    ensures EdgeClosed(edge, Reached(edge, src, all)) && src <= Reached(edge, src, all)
    ensures forall S :: EdgeClosed(edge, S) && src <= S ==> Reached(edge, src, all) <= S
  {
    var A := Reached(edge, src, all);
    forall x, y | x in A && edge(x, y) ensures y in A {
      ReachesStep(edge, src, x, y);
    }
    forall x | x in src ensures x in A {
      ReachesSelf(edge, src, x);
    }
    forall S | EdgeClosed(edge, S) && src <= S ensures A <= S {
      ClosedContains(edge, src, S);
    }
  }

  ghost function Reached<T(!new)>(edge: (T, T) -> bool, src: set<T>, all: set<T>): set<T> {
    set t | t in all && Reaches(edge, src, t)
  }
}
