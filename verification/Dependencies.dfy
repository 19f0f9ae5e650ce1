/** `DependencyIndex` of the board router: reachability over `depends_on` edges,
    which may be cyclic. */
module Dependencies {

  type Adjacency = map<string, set<string>>

  function Successors(adjacency: Adjacency, node: string): set<string>
  {
    if node in adjacency then adjacency[node] else {}
  }

  /** A walk along dependency edges with at least one edge. */
  ghost predicate IsPath(adjacency: Adjacency, path: seq<string>)
  {
    |path| >= 2 && forall i :: 0 <= i < |path| - 1 ==> path[i + 1] in Successors(adjacency, path[i])
  }

  ghost predicate PathBetween(adjacency: Adjacency, source: string, target: string, path: seq<string>)
  {
    IsPath(adjacency, path) && path[0] == source && path[|path| - 1] == target
  }

  /** `source` transitively depends on `target`. */
  ghost predicate Reaches(adjacency: Adjacency, source: string, target: string)
  {
    exists path :: PathBetween(adjacency, source, target, path)
  }

  lemma EdgeReaches(adjacency: Adjacency, source: string, target: string)
    requires target in Successors(adjacency, source)
    ensures Reaches(adjacency, source, target)
  {
    assert PathBetween(adjacency, source, target, [source, target]);
  }

  lemma ReachesThenEdge(adjacency: Adjacency, source: string, node: string, target: string)
    requires Reaches(adjacency, source, node) && target in Successors(adjacency, node)
    ensures Reaches(adjacency, source, target)
  {
    var path :| PathBetween(adjacency, source, node, path);
    assert PathBetween(adjacency, source, target, path + [target]);
  }

  /** A set that holds the successors of `source` and of its own members holds
      everything `source` reaches. */
  lemma {:induction false} ClosedSetHoldsPath(adjacency: Adjacency, source: string, closed: set<string>, path: seq<string>)
    requires Successors(adjacency, source) <= closed
    requires forall n :: n in closed ==> Successors(adjacency, n) <= closed
    requires IsPath(adjacency, path) && path[0] == source
    ensures path[|path| - 1] in closed
  {
    var front := path[..|path| - 1];
    assert path[|path| - 2 + 1] in Successors(adjacency, path[|path| - 2]);
    if |path| > 2 {
      ClosedSetHoldsPath(adjacency, source, closed, front);
    }
  }

  /** The order in which a set is listed is unspecified. */
  method ListOf(nodes: set<string>) returns (list: seq<string>)
    ensures forall n :: n in list <==> n in nodes
  {
    list := [];
    var rest := nodes;
    while rest != {}
      invariant rest <= nodes
      invariant forall n :: n in list <==> n in nodes - rest
      decreases rest
    {
      var n :| n in rest;
      list := list + [n];
      rest := rest - {n};
    }
  }

  class DependencyIndex {
    const adjacency: Adjacency

    constructor (adjacency: Adjacency)
      ensures this.adjacency == adjacency
    {
      this.adjacency := adjacency;
    }

    /** Depth-first search with an explicit stack; terminates on cycles, and is
        sound and complete. */
    method Reachable(source: string, target: string) returns (found: bool)
      ensures found <==> Reaches(adjacency, source, target)
    {
      var seen: set<string> := {};
      var stack := ListOf(Successors(adjacency, source));
      ghost var unseen := Successors(adjacency, source) + set m, n | m in adjacency && n in adjacency[m] :: n;
      forall n | n in stack ensures Reaches(adjacency, source, n) {
        EdgeReaches(adjacency, source, n);
      }
      while |stack| > 0
        invariant forall n :: n in stack ==> Reaches(adjacency, source, n)
        invariant forall n :: n in seen ==> Reaches(adjacency, source, n)
        invariant target !in seen
        invariant forall n :: n in Successors(adjacency, source) ==> n in seen || n in stack
        invariant forall n, s :: n in seen && s in Successors(adjacency, n) ==> s in seen || s in stack
        invariant forall n :: n in stack ==> n in unseen || n in seen
        invariant forall m, n :: m in adjacency && n in adjacency[m] ==> n in unseen || n in seen
        decreases unseen, |stack|
      {
        var node := stack[|stack| - 1];
        ghost var before := stack;
        stack := stack[..|stack| - 1];
        assert before == stack + [node];
        if node == target {
          return true;
        }
        if node in seen {
          continue;
        }
        seen := seen + {node};
        unseen := unseen - {node};
        var more := ListOf(Successors(adjacency, node));
        forall n | n in more ensures Reaches(adjacency, source, n) {
          ReachesThenEdge(adjacency, source, node, n);
        }
        stack := stack + more;
      }
      if path :| PathBetween(adjacency, source, target, path) {
        ClosedSetHoldsPath(adjacency, source, seen, path);
      }
      found := false;
    }

    method DependsEither(a: string, b: string) returns (connected: bool)
      ensures connected <==> Reaches(adjacency, a, b) || Reaches(adjacency, b, a)
    {
      connected := Reachable(a, b);
      if !connected {
        connected := Reachable(b, a);
      }
    }
  }
}
