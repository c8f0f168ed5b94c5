/** The forbidden-edge search: validateTransitiveForbiddenEdges of
    scripts/runtime-packages/check-runtime-packages.ts. */
module ForbiddenEdges {
  import opened Basics
  import opened PackageGraph

  type Allowed = map<string, seq<string>>

  predicate IsIllegal(allowed: Allowed, e: Edge) {
    e.to !in Lookup(allowed, e.from)
  }

  function Illegal(allowed: Allowed, edges: seq<Edge>): (r: seq<Edge>)
    ensures forall e :: e in r <==> e in edges && IsIllegal(allowed, e)
  {
    if edges == [] then []
    else
      var n := |edges| - 1;
      assert edges == edges[..n] + [edges[n]];
      Illegal(allowed, edges[..n]) + if IsIllegal(allowed, edges[n]) then [edges[n]] else []
  }

  function Text(origin: string, e: Edge): string {
    origin + " reaches forbidden edge " + e.from + " -> " + e.to
  }

  /** What visiting the given packages on behalf of `origin` must report. */
  function Reports(origin: string, illegal: seq<Edge>, visited: set<string>): set<string> {
    set e | e in illegal && e.from in visited && e.from != origin :: Text(origin, e)
  }

  lemma ReportsOneMore(origin: string, illegal: seq<Edge>, e: Edge, visited: set<string>)
    ensures Reports(origin, illegal + [e], visited)
            == Reports(origin, illegal, visited)
               + if e.from in visited && e.from != origin then {Text(origin, e)} else {}
  {
  }

  lemma ReportsTogether(origin: string, illegal: seq<Edge>, a: set<string>, b: set<string>, c: set<string>)
    requires a <= b <= c
    ensures Reports(origin, illegal, b - a) + Reports(origin, illegal, c - b) == Reports(origin, illegal, c - a)
  {
  }

  /** The search from one origin. */
  class Search {
    const edges: seq<Edge>
    const adjacency: map<string, seq<string>>
    const illegal: seq<Edge>
    const origin: string
    var seen: set<string>
    var violations: seq<string>

    ghost predicate Valid()
      reads this
    {
      forall name :: Lookup(adjacency, name) == Targets(edges, name)
    }

    constructor (edges: seq<Edge>, adjacency: map<string, seq<string>>, illegal: seq<Edge>, origin: string,
                 violations: seq<string>)
      requires forall name :: Lookup(adjacency, name) == Targets(edges, name)
      ensures Valid() && this.edges == edges && this.illegal == illegal && this.origin == origin
      ensures seen == {} && this.violations == violations
    {
      this.edges, this.adjacency, this.illegal, this.origin := edges, adjacency, illegal, origin;
      seen, this.violations := {}, violations;
    }

    /** The illegal edges that leave a package, each added unless its text is already there. */
    method ReportFrom(name: string)
      modifies this`violations
      ensures Elements(violations) == Elements(old(violations)) + Reports(origin, illegal, {name})
      ensures old(violations) <= violations
    {
      for i := 0 to |illegal|
        invariant old(violations) <= violations
        invariant Elements(violations) == Elements(old(violations)) + Reports(origin, illegal[..i], {name})
      {
        var text := Text(origin, illegal[i]);
        assert illegal[..i + 1] == illegal[..i] + [illegal[i]];
        ReportsOneMore(origin, illegal[..i], illegal[i], {name});
        ghost var before := violations;
        if illegal[i].from == name && origin != name {
          if text !in violations {
            violations := violations + [text];
          }
          assert Elements(violations) == Elements(before) + {text};
        }
      }
      assert illegal[..|illegal|] == illegal;
    }

    /** Everything seen anew is reachable, leads only to seen packages, and has been reported. */
    method Visit(name: string, ghost nodes: set<string>)
      requires Valid() && Names(edges) <= nodes && name in nodes && seen <= nodes
      modifies this
      ensures Valid() && seen <= nodes
      ensures old(seen) <= seen && name in seen
      ensures forall v | v in seen && v !in old(seen) :: Reachable(edges, name, v)
      ensures forall e | e in edges && e.from in seen && e.from !in old(seen) :: e.to in seen
      ensures Elements(violations) == Elements(old(violations)) + Reports(origin, illegal, seen - old(seen))
      decreases nodes - seen, 0
    {
      if name in seen {
        return;
      }
      ghost var start := seen;
      seen := seen + {name};
      ReportFrom(name);
      ReachesItself(edges, name);
      ghost var added := seen;
      assert added - start == {name};
      VisitTargets(name, Lookup(adjacency, name), start, nodes);
      ReportsTogether(origin, illegal, start, added, seen);
      forall e | e in edges && e.from == name
        ensures e.to in seen
      {
        TargetsAreEdges(edges, name, e.to);
      }
    }

    /** The loop over the dependencies of `name`, which has just been added to what was seen at the start. */
    method VisitTargets(name: string, targets: seq<string>, ghost start: set<string>, ghost nodes: set<string>)
      requires Valid() && Names(edges) <= nodes && seen <= nodes && targets == Targets(edges, name)
      requires seen == start + {name} && Reachable(edges, name, name)
      modifies this
      ensures Valid() && seen <= nodes
      ensures old(seen) <= seen && forall k | 0 <= k < |targets| :: targets[k] in seen
      ensures forall v | v in seen && v !in start :: Reachable(edges, name, v)
      ensures forall e | e in edges && e.from in seen && e.from !in start && e.from != name :: e.to in seen
      ensures Elements(violations) == Elements(old(violations)) + Reports(origin, illegal, seen - old(seen))
      decreases nodes - seen, 1
    {
      for i := 0 to |targets|
        invariant seen <= nodes && old(seen) <= seen
        invariant forall k | 0 <= k < i :: targets[k] in seen
        invariant forall v | v in seen && v !in start :: Reachable(edges, name, v)
        invariant forall e | e in edges && e.from in seen && e.from !in start && e.from != name :: e.to in seen
        invariant Elements(violations) == Elements(old(violations)) + Reports(origin, illegal, seen - old(seen))
      {
        ghost var before := seen;
        TargetsAreEdges(edges, name, targets[i]);
        Visit(targets[i], nodes);
        ReportsTogether(origin, illegal, old(seen), before, seen);
        forall v | v in seen && v !in before
          ensures Reachable(edges, name, v)
        {
          ReachesVia(edges, name, targets[i], v);
        }
      }
    }
  }

  /** A listed package reaches the source of a forbidden edge of another package. */
  ghost predicate MustReport(edges: seq<Edge>, allowed: Allowed, origin: string, e: Edge) {
    e in edges && IsIllegal(allowed, e) && e.from != origin && Reachable(edges, origin, e.from)
  }

  lemma SeenIsReachable(edges: seq<Edge>, origin: string, seen: set<string>, v: string)
    requires origin in seen && Closed(edges, seen) && forall x | x in seen :: Reachable(edges, origin, x)
    ensures v in seen <==> Reachable(edges, origin, v)
  {
    if Reachable(edges, origin, v) {
      var p :| Joins(edges, p, origin, v);
      ClosedHoldsPath(edges, seen, p);
    }
  }

  method SearchFrom(edges: seq<Edge>, adjacency: map<string, seq<string>>, allowed: Allowed, illegal: seq<Edge>,
                    origin: string, violations: seq<string>) returns (more: seq<string>)
    requires forall name :: Lookup(adjacency, name) == Targets(edges, name)
    requires illegal == Illegal(allowed, edges)
    ensures forall text :: text in more <==>
              text in violations || exists e :: MustReport(edges, allowed, origin, e) && text == Text(origin, e)
  {
    var search := new Search(edges, adjacency, illegal, origin, violations);
    search.Visit(origin, Names(edges) + {origin});
    more := search.violations;
    forall e
      ensures MustReport(edges, allowed, origin, e) <==> e in illegal && e.from in search.seen && e.from != origin
    {
      SeenIsReachable(edges, origin, search.seen, e.from);
    }
    forall text
      ensures text in more <==>
                text in violations || exists e :: MustReport(edges, allowed, origin, e) && text == Text(origin, e)
    {
      assert text in more <==> text in Elements(more);
      assert text in violations <==> text in Elements(violations);
    }
  }

  /** A text is reported exactly when it names a listed package and a forbidden edge that package reaches. */
  method ValidateTransitiveForbiddenEdges(edges: seq<Edge>, allowed: Allowed, packages: seq<string>)
    returns (violations: seq<string>)
    ensures forall text :: text in violations <==>
              exists origin, e :: origin in packages && MustReport(edges, allowed, origin, e) && text == Text(origin, e)
  {
    var adjacency := Adjacency(edges);
    var illegal := Illegal(allowed, edges);
    violations := [];
    for i := 0 to |packages|
      invariant forall text :: text in violations <==>
                  exists origin, e :: origin in packages[..i] && MustReport(edges, allowed, origin, e)
                    && text == Text(origin, e)
    {
      assert packages[..i + 1] == packages[..i] + [packages[i]];
      violations := SearchFrom(edges, adjacency, allowed, illegal, packages[i], violations);
    }
    assert packages[..|packages|] == packages;
  }
}
