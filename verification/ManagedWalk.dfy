/** The walk, on the directory tree that shows a managed root, decides what the model of the root asks of its
    entries. */
module ManagedWalk {
  import opened Basics
  import Tree = ManagedTree
  import opened ManagedInstall

  /** The relative path of each entry below the root; no two entries share one. */
  type Naming = Entry -> string

  ghost predicate Tells(name: Naming) {
    forall a, b | name(a) == name(b) :: a == b
  }

  /** The tree shows the entries of the disk, each once, as plain files and directories. */
  ghost predicate Depicts(name: Naming, root: seq<Tree.Entry>, d: Disk) {
    var listing := Tree.Listing("", root);
    && |listing| == |Entries(d)|
    && (forall x | x in listing :: (x.1.File? || x.1.Directory?) && exists e :: e in Entries(d) && name(e) == x.0)
    && (forall e | e in Entries(d) :: exists x :: x in listing && x.0 == name(e))
  }

  function Expected(name: Naming, w: World, d: Disk, m: Marker): set<string> {
    set e | e in AllowedEntries(w, d.store.releases, m.target) :: name(e)
  }

  lemma PlainMeansAllowed(name: Naming, root: seq<Tree.Entry>, w: World, d: Disk, m: Marker)
    requires Tells(name) && Depicts(name, root, d)
    ensures Tree.IsPlain(Tree.Listing("", root), Expected(name, w, d, m)) <==>
            Entries(d) <= AllowedEntries(w, d.store.releases, m.target)
  {
    var listing, expected := Tree.Listing("", root), Expected(name, w, d, m);
    if Tree.IsPlain(listing, expected) {
      forall e | e in Entries(d)
        ensures e in AllowedEntries(w, d.store.releases, m.target)
      {
        var x :| x in listing && x.0 == name(e);
        assert name(e) in expected;
      }
    }
  }

  /** assertManagedTreeForUninstall's last part, for every tree that depicts the root. */
  method CheckEntries(name: Naming, root: seq<Tree.Entry>, w: World, ghost d: Disk, ghost m: Marker,
                      expected: set<string>)
      returns (ok: bool)
    requires Tells(name) && Depicts(name, root, d) && expected == Expected(name, w, d, m)
    ensures ok <==> Entries(d) <= AllowedEntries(w, d.store.releases, m.target) && |Entries(d)| <= MAX_ENTRIES
  {
    ok := Tree.WalkTree(root, expected, MAX_ENTRIES);
    Tree.ManagedIsPlain("", root, expected);
    PlainMeansAllowed(name, root, w, d, m);
  }
}
