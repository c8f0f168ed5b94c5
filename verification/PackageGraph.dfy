/** Package dependency graphs: paths, reachability and the adjacency lists the gates build. */
module PackageGraph {
  datatype Edge = Edge(from: string, to: string)

  /** A non-empty walk along edges. */
  predicate IsPath(edges: seq<Edge>, p: seq<string>) {
    p != [] && forall i | 0 <= i < |p| - 1 :: Edge(p[i], p[i + 1]) in edges
  }

  predicate Joins(edges: seq<Edge>, p: seq<string>, x: string, y: string) {
    IsPath(edges, p) && p[0] == x && p[|p| - 1] == y
  }

  ghost predicate Reachable(edges: seq<Edge>, x: string, y: string) {
    exists p :: Joins(edges, p, x, y)
  }

  /** A walk of at least one edge back to where it started. */
  predicate IsCycle(edges: seq<Edge>, c: seq<string>) {
    |c| >= 2 && IsPath(edges, c) && c[0] == c[|c| - 1]
  }

  lemma ReachesItself(edges: seq<Edge>, x: string)
    ensures Reachable(edges, x, x)
  {
    assert Joins(edges, [x], x, x);
  }

  lemma ReachesVia(edges: seq<Edge>, x: string, y: string, z: string)
    requires Edge(x, y) in edges && Reachable(edges, y, z)
    ensures Reachable(edges, x, z)
  {
    var p :| Joins(edges, p, y, z);
    assert Joins(edges, [x] + p, x, z);
  }

  predicate Closed(edges: seq<Edge>, s: set<string>) {
    forall e | e in edges && e.from in s :: e.to in s
  }

  /** A set closed under edges holds everything reachable from its members. */
  lemma {:induction false} ClosedHoldsPath(edges: seq<Edge>, s: set<string>, p: seq<string>)
    requires Closed(edges, s) && IsPath(edges, p) && p[0] in s
    ensures forall i | 0 <= i < |p| :: p[i] in s
    decreases |p|
  {
    if |p| > 1 {
      var n := |p| - 1;
      assert IsPath(edges, p[..n]);
      ClosedHoldsPath(edges, s, p[..n]);
      assert p[..n][n - 1] in s && Edge(p[n - 1], p[n]) in edges;
    }
  }

  /** The targets of a package, in edge order. */
  function Targets(edges: seq<Edge>, name: string): seq<string> {
    if edges == [] then []
    else Targets(edges[..|edges| - 1], name) + if edges[|edges| - 1].from == name then [edges[|edges| - 1].to] else []
  }

  lemma {:induction false} TargetsAreEdges(edges: seq<Edge>, name: string, t: string)
    ensures t in Targets(edges, name) <==> Edge(name, t) in edges
    decreases |edges|
  {
    if edges != [] {
      var n := |edges| - 1;
      TargetsAreEdges(edges[..n], name, t);
      assert edges == edges[..n] + [edges[n]];
    }
  }

  function Lookup(adjacency: map<string, seq<string>>, name: string): seq<string> {
    if name in adjacency then adjacency[name] else []
  }

  /** The adjacency lists both gates build before searching. */
  method Adjacency(edges: seq<Edge>) returns (adjacency: map<string, seq<string>>)
    ensures forall name :: Lookup(adjacency, name) == Targets(edges, name)
  {
    adjacency := map[];
    for i := 0 to |edges|
      invariant forall name :: Lookup(adjacency, name) == Targets(edges[..i], name)
    {
      assert edges[..i + 1][..i] == edges[..i];
      adjacency := adjacency[edges[i].from := Lookup(adjacency, edges[i].from) + [edges[i].to]];
    }
    assert edges[..|edges|] == edges;
  }

  function Names(edges: seq<Edge>): set<string> {
    (set e | e in edges :: e.from) + (set e | e in edges :: e.to)
  }
}
