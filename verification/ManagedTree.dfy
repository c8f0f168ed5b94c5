/** The walk at the end of assertManagedTreeForUninstall, scripts/release/install-oss-candidate.ts. */
module ManagedTree {
  datatype Node = File | SymbolicLink | Special | Directory(children: seq<Entry>)

  datatype Entry = Entry(name: string, node: Node)

  datatype Pending = Pending(path: string, children: seq<Entry>)

  /** The path of an entry relative to the root, whose own path is empty. */
  function Join(directory: string, name: string): string {
    if directory == "" then name else directory + "/" + name
  }

  // ---------------------------------------------------------------- what the walk decides

  /** The number of entries below a directory, at any depth. */
  function Size(children: seq<Entry>): nat {
    if children == [] then 0 else 1 + Below(children[0]) + Size(children[1..])
  }

  function Below(e: Entry): nat {
    if e.node.Directory? then Size(e.node.children) else 0
  }

  /** Every entry below the directory, at any depth, is a file or a directory that is expected there. */
  predicate IsManaged(directory: string, children: seq<Entry>, expected: set<string>)
    decreases children
  {
    children == [] || (IsManagedEntry(directory, children[0], expected)
      && IsManaged(directory, children[1..], expected))
  }

  predicate IsManagedEntry(directory: string, e: Entry, expected: set<string>)
    decreases e
  {
    && Join(directory, e.name) in expected && (e.node.File? || e.node.Directory?)
    && (e.node.Directory? ==> IsManaged(Join(directory, e.name), e.node.children, expected))
  }

  // ---------------------------------------------------------------- the stack

  /** The entries still to be looked at, and the directories with them. */
  function Work(pending: seq<Pending>): nat {
    if pending == [] then 0 else Work(pending[..|pending| - 1]) + 1 + Size(pending[|pending| - 1].children)
  }

  predicate AllManaged(pending: seq<Pending>, expected: set<string>) {
    pending == []
    || (AllManaged(pending[..|pending| - 1], expected)
        && IsManaged(pending[|pending| - 1].path, pending[|pending| - 1].children, expected))
  }

  lemma Pushed(pending: seq<Pending>, p: Pending, expected: set<string>)
    ensures Work(pending + [p]) == Work(pending) + 1 + Size(p.children)
    ensures AllManaged(pending + [p], expected) <==>
            AllManaged(pending, expected) && IsManaged(p.path, p.children, expected)
  {
    assert (pending + [p])[..|pending|] == pending;
  }

  /** One directory: its entries are counted and checked, and its directories pushed. */
  method Visit(p: Pending, expected: set<string>, maxEntries: nat, before: nat, stack: seq<Pending>)
      returns (ok: bool, entries: nat, pending: seq<Pending>)
    requires before <= maxEntries
    ensures ok ==> before <= entries <= maxEntries && |stack| <= |pending|
    ensures ok ==> entries + (Work(pending) - |pending|) == before + (Work(stack) - |stack|) + Size(p.children)
    ensures ok ==> Work(pending) <= Work(stack) + Size(p.children)
    ensures ok ==> (AllManaged(pending, expected) <==>
            AllManaged(stack, expected) && IsManaged(p.path, p.children, expected))
    ensures !ok ==> before + Size(p.children) > maxEntries || !IsManaged(p.path, p.children, expected)
  {
    entries, pending := before, stack;
    ghost var total, fine := Size(p.children), IsManaged(p.path, p.children, expected);
    for i := 0 to |p.children|
      invariant before <= entries <= maxEntries && |stack| <= |pending|
      invariant entries + (Work(pending) - |pending|) + Size(p.children[i..]) == before + (Work(stack) - |stack|)
                + total
      invariant Work(pending) + Size(p.children[i..]) <= Work(stack) + total
      invariant entries + Size(p.children[i..]) <= before + total
      invariant AllManaged(pending, expected) && IsManaged(p.path, p.children[i..], expected) <==>
                AllManaged(stack, expected) && fine
      invariant fine ==> IsManaged(p.path, p.children[i..], expected)
    {
      var e := p.children[i];
      assert p.children[i..][1..] == p.children[i + 1..];
      entries := entries + 1;
      if entries > maxEntries {
        return false, entries, pending;
      }
      var path := Join(p.path, e.name);
      if path !in expected || e.node.SymbolicLink? {
        return false, entries, pending;
      }
      if e.node.Directory? {
        Pushed(pending, Pending(path, e.node.children), expected);
        pending := pending + [Pending(path, e.node.children)];
      } else if !e.node.File? {
        return false, entries, pending;
      }
    }
    ok := true;
  }

  lemma {:induction false} WorkCounts(pending: seq<Pending>)
    ensures Work(pending) >= |pending|
    decreases |pending|
  {
    if pending != [] {
      WorkCounts(pending[..|pending| - 1]);
    }
  }

  /** The walk accepts exactly the trees without a stray entry, a link or a special file, and with no more entries
      than allowed. */
  method WalkTree(root: seq<Entry>, expected: set<string>, maxEntries: nat) returns (ok: bool)
    ensures ok <==> IsManaged("", root, expected) && Size(root) <= maxEntries
  {
    var pending := [Pending("", root)];
    var entries: nat := 0;
    Pushed([], Pending("", root), expected);
    assert pending == [] + [Pending("", root)];
    while pending != []
      invariant entries <= maxEntries && entries + (Work(pending) - |pending|) == Size(root)
      invariant AllManaged(pending, expected) <==> IsManaged("", root, expected)
      decreases Work(pending)
    {
      var n := |pending| - 1;
      var directory, stack := pending[n], pending[..n];
      Pushed(stack, directory, expected);
      assert pending == stack + [directory];
      WorkCounts(stack);
      var fine;
      fine, entries, pending := Visit(directory, expected, maxEntries, entries, stack);
      if !fine {
        return false;
      }
    }
    return true;
  }

  // ---------------------------------------------------------------- what acceptance means for each entry

  /** The paths of all entries below a directory, each with its node. */
  function Listing(directory: string, children: seq<Entry>): seq<(string, Node)>
    decreases children
  {
    if children == [] then [] else ListingOf(directory, children[0]) + Listing(directory, children[1..])
  }

  function ListingOf(directory: string, e: Entry): seq<(string, Node)>
    decreases e
  {
    var path := Join(directory, e.name);
    [(path, e.node)] + if e.node.Directory? then Listing(path, e.node.children) else []
  }

  predicate IsPlain(listing: seq<(string, Node)>, expected: set<string>) {
    forall x | x in listing :: x.0 in expected && (x.1.File? || x.1.Directory?)
  }

  lemma PlainJoin(a: seq<(string, Node)>, b: seq<(string, Node)>, expected: set<string>)
    ensures IsPlain(a + b, expected) <==> IsPlain(a, expected) && IsPlain(b, expected)
  {
    assert forall x :: x in a + b <==> x in a || x in b;
  }

  /** The recursive test and the size speak of one flat list of all entries. */
  lemma {:induction false} ManagedIsPlain(directory: string, children: seq<Entry>, expected: set<string>)
    ensures IsManaged(directory, children, expected) <==> IsPlain(Listing(directory, children), expected)
    ensures Size(children) == |Listing(directory, children)|
    decreases children
  {
    if children != [] {
      ManagedEntryIsPlain(directory, children[0], expected);
      ManagedIsPlain(directory, children[1..], expected);
      PlainJoin(ListingOf(directory, children[0]), Listing(directory, children[1..]), expected);
    }
  }

  lemma {:induction false} ManagedEntryIsPlain(directory: string, e: Entry, expected: set<string>)
    ensures IsManagedEntry(directory, e, expected) <==> IsPlain(ListingOf(directory, e), expected)
    ensures 1 + Below(e) == |ListingOf(directory, e)|
    decreases e
  {
    var path := Join(directory, e.name);
    var below := if e.node.Directory? then Listing(path, e.node.children) else [];
    if e.node.Directory? {
      ManagedIsPlain(path, e.node.children, expected);
    }
    PlainJoin([(path, e.node)], below, expected);
    assert IsPlain([(path, e.node)], expected) <==> path in expected && (e.node.File? || e.node.Directory?) by {
      assert (path, e.node) in [(path, e.node)];
    }
  }
}
