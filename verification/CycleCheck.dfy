/** The package cycle check: validateCycles of scripts/runtime-packages/check-runtime-packages.ts. */
module CycleCheck {
  import opened Basics
  import opened PackageGraph

  function Join(names: seq<string>): string {
    if names == [] then "" else if |names| == 1 then names[0] else names[0] + " -> " + Join(names[1..])
  }

  function IndexOf(xs: seq<string>, x: string): (i: int)
    ensures -1 <= i < |xs|
    ensures i == -1 <==> x !in xs
    ensures i >= 0 ==> xs[i] == x
  {
    if xs == [] then -1
    else if xs[0] == x then 0
    else var i := IndexOf(xs[1..], x); if i < 0 then -1 else i + 1
  }

  /** Every package in the list points only to earlier ones. */
  predicate PointsBack(edges: seq<Edge>, order: seq<string>) {
    forall i, e | 0 <= i < |order| && e in edges && e.from == order[i] :: e.to in order[..i]
  }

  /** A report is the text of a cycle that some listed package reaches. */
  ghost predicate IsReport(edges: seq<Edge>, packages: seq<string>, text: string) {
    exists c, p :: IsCycle(edges, c) && p in packages && Reachable(edges, p, c[0]) && text == Join(c)
  }

  /** The first place of a name in the order. */
  lemma {:induction false} Earliest(order: seq<string>, x: string, k: nat) returns (i: nat)
    requires k < |order| && order[k] == x
    ensures i <= k && order[i] == x && forall j | 0 <= j < i :: order[j] != x
    decreases k
  {
    if x in order[..k] {
      var j :| 0 <= j < k && order[j] == x;
      i := Earliest(order, x, j);
    } else {
      i := k;
    }
  }

  /** Walking a path of at least one edge from place `k` ends at an earlier place. */
  lemma {:induction false} WalkBack(edges: seq<Edge>, order: seq<string>, p: seq<string>, k: nat) returns (i: nat)
    requires PointsBack(edges, order) && IsPath(edges, p) && k < |order| && order[k] == p[0]
    ensures i <= k && order[i] == p[|p| - 1] && (|p| > 1 ==> i < k)
    decreases |p|
  {
    if |p| == 1 {
      i := k;
    } else {
      assert Edge(p[0], p[1]) in edges;
      assert p[1] in order[..k];
      var j :| 0 <= j < k && order[j] == p[1];
      assert IsPath(edges, p[1..]);
      i := WalkBack(edges, order, p[1..], j);
    }
  }

  /** An order in which all edges point back admits no cycle. */
  lemma NoCycleBackwards(edges: seq<Edge>, order: seq<string>, c: seq<string>)
    requires PointsBack(edges, order) && IsCycle(edges, c)
    ensures c[0] !in order
  {
    if c[0] in order {
      var k :| 0 <= k < |order| && order[k] == c[0];
      var first := Earliest(order, c[0], k);
      var again := WalkBack(edges, order, c, first);
    }
  }

  class Search {
    const edges: seq<Edge>
    const packages: seq<string>
    const adjacency: map<string, seq<string>>
    var visited: set<string>
    var active: seq<string>
    var reported: set<string>
    var violations: seq<string>
    ghost var order: seq<string>  // the visited packages, in the order in which their visits ended

    ghost predicate Valid()
      reads this
    {
      && (forall name :: Lookup(adjacency, name) == Targets(edges, name))
      && Distinct(active) && (active != [] ==> IsPath(edges, active) && active[0] in packages)
      && Elements(active) !! visited
      && reported == Elements(violations) && Distinct(violations)
      && (forall v | v in violations :: IsReport(edges, packages, v))
      && visited == Elements(order)
      && (violations == [] ==> PointsBack(edges, order))
    }

    constructor (edges: seq<Edge>, packages: seq<string>, adjacency: map<string, seq<string>>)
      requires forall name :: Lookup(adjacency, name) == Targets(edges, name)
      ensures Valid() && this.edges == edges && this.packages == packages
      ensures active == [] && visited == {} && violations == []
    {
      this.edges, this.packages, this.adjacency := edges, packages, adjacency;
      visited, active, reported, violations, order := {}, [], {}, [], [];
    }

    /** A package met again while it is active closes a cycle, which is reported once. */
    method Report(name: string)
      requires Valid() && name in active && Edge(active[|active| - 1], name) in edges
      modifies this`reported, this`violations
      ensures Valid() && violations != [] && old(violations) <= violations
    {
      var i := IndexOf(active, name);
      var cycle := active[i..] + [name];
      assert IsCycle(edges, cycle) && Reachable(edges, active[0], cycle[0]) by {
        assert Joins(edges, active[..i + 1], active[0], name);
      }
      var key := Join(cycle);
      assert IsReport(edges, packages, key);
      if key !in reported {
        reported := reported + {key};
        violations := violations + [key];
      }
    }

    method Visit(name: string, ghost nodes: set<string>)
      requires Valid() && Names(edges) <= nodes && name in nodes && Elements(active) <= nodes
      requires if active == [] then name in packages else Edge(active[|active| - 1], name) in edges
      modifies this
      ensures Valid() && active == old(active) && old(visited) <= visited && old(violations) <= violations
      ensures violations == [] ==> name in visited
      decreases nodes - Elements(active), 0
    {
      if IndexOf(active, name) >= 0 {
        Report(name);
        return;
      }
      if name in visited {
        return;
      }
      ghost var entered := active;
      Enter(name);
      assert name in Elements(active) && Elements(active) == Elements(entered) + {name};
      VisitTargets(name, Lookup(adjacency, name), nodes);
      Leave(name);
    }

    /** The package becomes the last of the active path. */
    method Enter(name: string)
      requires Valid() && name !in active && name !in visited
      requires if active == [] then name in packages else Edge(active[|active| - 1], name) in edges
      modifies this`active
      ensures Valid() && active == old(active) + [name]
    {
      active := active + [name];
    }

    method VisitTargets(name: string, targets: seq<string>, ghost nodes: set<string>)
      requires Valid() && Names(edges) <= nodes && Elements(active) <= nodes
      requires active != [] && active[|active| - 1] == name && targets == Targets(edges, name)
      modifies this
      ensures Valid() && active == old(active) && old(visited) <= visited && old(violations) <= violations
      ensures violations == [] ==> forall t | t in targets :: t in visited
      decreases nodes - Elements(active), 1
    {
      for i := 0 to |targets|
        invariant Valid() && active == old(active)
        invariant old(visited) <= visited && old(violations) <= violations
        invariant violations == [] ==> forall k | 0 <= k < i :: targets[k] in visited
      {
        TargetsAreEdges(edges, name, targets[i]);
        Visit(targets[i], nodes);
      }
    }

    /** The visit of a package ends: its targets were all visited, unless something was reported. */
    method Leave(name: string)
      requires Valid() && active != [] && active[|active| - 1] == name
      requires violations == [] ==> forall t | t in Targets(edges, name) :: t in visited
      modifies this`active, this`visited, this`order
      ensures Valid() && active == old(active)[..|old(active)| - 1] && visited == old(visited) + {name}
    {
      active := active[..|active| - 1];
      ghost var before := order;
      visited := visited + {name};
      order := order + [name];
      if violations == [] {
        forall i, e | 0 <= i < |order| && e in edges && e.from == order[i]
          ensures e.to in order[..i]
        {
          TargetsAreEdges(edges, name, e.to);
          assert i < |before| ==> order[..i] == before[..i];
          assert order[..|before|] == before;
          if i == |before| {
            assert e == Edge(name, e.to);
          }
        }
      }
    }
  }

  /**
   Every reported text is a cycle some listed package reaches, no text is reported twice, and nothing is
   reported only when no listed package reaches any cycle.
   */
  method ValidateCycles(edges: seq<Edge>, packages: seq<string>) returns (violations: seq<string>)
    ensures Distinct(violations) && forall v | v in violations :: IsReport(edges, packages, v)
    ensures violations == [] <==> forall c, p | IsCycle(edges, c) && p in packages :: !Reachable(edges, p, c[0])
  {
    var adjacency := Adjacency(edges);
    var search := new Search(edges, packages, adjacency);
    ghost var nodes := Names(edges) + Elements(packages);
    for i := 0 to |packages|
      invariant search.Valid() && search.active == [] && search.edges == edges && search.packages == packages
      invariant search.violations == [] ==> forall k | 0 <= k < i :: packages[k] in search.visited
    {
      search.Visit(packages[i], nodes);
    }
    violations := search.violations;
    if violations == [] {
      SilenceMeansAcyclic(edges, packages, search.order);
    } else {
      assert IsReport(edges, packages, violations[0]);
    }
  }

  lemma SilenceMeansAcyclic(edges: seq<Edge>, packages: seq<string>, order: seq<string>)
    requires PointsBack(edges, order) && forall p | p in packages :: p in order
    ensures forall c, p | IsCycle(edges, c) && p in packages :: !Reachable(edges, p, c[0])
  {
    forall c, p | IsCycle(edges, c) && p in packages
      ensures !Reachable(edges, p, c[0])
    {
      if Reachable(edges, p, c[0]) {
        var walk :| Joins(edges, walk, p, c[0]);
        var k :| 0 <= k < |order| && order[k] == p;
        var i := WalkBack(edges, order, walk, k);
        NoCycleBackwards(edges, order, c);
      }
    }
  }
}
