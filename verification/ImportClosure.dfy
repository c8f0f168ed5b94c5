/**
 The import worklist of scripts/check-core-boundary.ts (`importClosure`).

 `files` are the existing source files and `imports` gives, per file, the paths its runtime imports
 resolve to.  The worklist remembers modules by their path without extension, so it can confuse two
 files that differ in extension only; the result is proved exact precisely when it cannot.
 */
module ImportClosure {
  import opened Basics

  /** The extensions `\.(?:[cm]?[jt]sx?)$` strips. */
  predicate IsExtension(e: string) {
    e in {".js", ".ts", ".jsx", ".tsx", ".cjs", ".cts", ".mjs", ".mts", ".cjsx", ".ctsx", ".mjsx", ".mtsx"}
  }

  /** normalizedModulePath, for absolute paths. */
  function Normalized(path: string): string {
    var n := |path|;
    if n >= 3 && IsExtension(path[n - 3..]) then path[..n - 3]
    else if n >= 4 && IsExtension(path[n - 4..]) then path[..n - 4]
    else if n >= 5 && IsExtension(path[n - 5..]) then path[..n - 5]
    else path
  }

  /** resolveSourceModule: the first existing candidate. */
  function Resolved(files: set<string>, path: string): Option<string> {
    if path + ".ts" in files then Some(path + ".ts")
    else if path + ".tsx" in files then Some(path + ".tsx")
    else if path + ".js" in files then Some(path + ".js")
    else if path + ".jsx" in files then Some(path + ".jsx")
    else if path + "/index.ts" in files then Some(path + "/index.ts")
    else if path + "/index.tsx" in files then Some(path + "/index.tsx")
    else None
  }

  /** The file the result names for a remembered module. */
  function Named(files: set<string>, name: string): string {
    match Resolved(files, name) case Some(f) => f case None => name
  }

  predicate IsCanonical(files: set<string>, file: string) {
    Named(files, Normalized(file)) == file
  }

  lemma Stripped(path: string, e: string)
    requires e == ".ts" || e == ".tsx" || e == ".js" || e == ".jsx"
    ensures Normalized(path + e) == path
  {
    var f := path + e;
    assert f[|f| - |e|..] == e && f[..|f| - |e|] == path;
    assert |e| == 4 ==> f[|f| - 3] != '.';
  }

  /** Whatever resolution returns is the file its own module path resolves to. */
  lemma ResolvedIsCanonical(files: set<string>, path: string)
    requires Resolved(files, path).Some?
    ensures IsCanonical(files, Resolved(files, path).value)
  {
    var f := Resolved(files, path).value;
    if path + ".ts" in files {
      Stripped(path, ".ts");
    } else if path + ".tsx" in files {
      Stripped(path, ".tsx");
    } else if path + ".js" in files {
      Stripped(path, ".js");
    } else if path + ".jsx" in files {
      Stripped(path, ".jsx");
    } else {
      IndexIsCanonical(files, path, path + "/index", f);
    }
  }

  lemma IndexIsCanonical(files: set<string>, path: string, index: string, f: string)
    requires index == path + "/index" && f in files
    requires f == path + "/index.ts" || (f == path + "/index.tsx" && path + "/index.ts" !in files)
    ensures IsCanonical(files, f)
  {
    assert path + "/index.ts" == index + ".ts" && path + "/index.tsx" == index + ".tsx";
    if f == path + "/index.ts" {
      Stripped(index, ".ts");
    } else {
      Stripped(index, ".tsx");
    }
  }

  predicate Imports(files: set<string>, imports: string -> seq<string>, f: string, g: string) {
    exists t :: t in imports(f) && Resolved(files, t) == Some(g)
  }

  predicate IsChain(files: set<string>, imports: string -> seq<string>, p: seq<string>) {
    p != [] && forall i | 0 <= i < |p| - 1 :: Imports(files, imports, p[i], p[i + 1])
  }

  ghost predicate Reaches(files: set<string>, imports: string -> seq<string>, entry: string, f: string) {
    exists p :: IsChain(files, imports, p) && p[0] == entry && p[|p| - 1] == f
  }

  lemma ReachesEntry(files: set<string>, imports: string -> seq<string>, entry: string)
    ensures Reaches(files, imports, entry, entry)
  {
    assert IsChain(files, imports, [entry]);
  }

  lemma ReachesImport(files: set<string>, imports: string -> seq<string>, entry: string, f: string, g: string)
    requires Reaches(files, imports, entry, f) && Imports(files, imports, f, g)
    ensures Reaches(files, imports, entry, g)
  {
    var p :| IsChain(files, imports, p) && p[0] == entry && p[|p| - 1] == f;
    assert IsChain(files, imports, p + [g]);
  }

  /** Existing files and the entry, as the modules the worklist can remember. */
  function Universe(files: set<string>, entry: string): set<string> {
    set f | f in files + {entry} :: Normalized(f)
  }

  /** What the worklist has explored: `done` are the files popped and not skipped, one per visited module. */
  ghost predicate Progress(files: set<string>, imports: string -> seq<string>, entry: string,
                           pending: seq<string>, visited: seq<string>, done: seq<string>)
  {
    && |visited| == |done| && (forall i | 0 <= i < |done| :: visited[i] == Normalized(done[i]))
    && (forall i, j | 0 <= i < j < |visited| :: visited[i] != visited[j])
    && (forall f | f in pending || f in done :: f in files + {entry} && Reaches(files, imports, entry, f))
    && (forall f | f in pending || f in done :: f == entry || IsCanonical(files, f))
    && (Normalized(entry) in visited || entry in pending)
    && (forall f, g | f in done && Imports(files, imports, f, g) :: Normalized(g) in visited || g in pending)
  }

  /** The paths a file pushes, in order. */
  function Pushed(files: set<string>, targets: seq<string>): (r: seq<string>)
    ensures forall g :: g in r <==> exists t :: t in targets && Resolved(files, t) == Some(g)
  {
    if targets == [] then []
    else
      var n := |targets| - 1;
      assert targets == targets[..n] + [targets[n]];
      Pushed(files, targets[..n]) + match Resolved(files, targets[n]) case Some(g) => [g] case None => []
  }

  lemma ResolvedExists(files: set<string>, path: string)
    ensures Resolved(files, path).Some? ==> Resolved(files, path).value in files
  {
  }

  /** Two canonical files with the same module path are the same file. */
  lemma CanonicalIsUnique(files: set<string>, f: string, g: string)
    requires IsCanonical(files, f) && IsCanonical(files, g) && Normalized(f) == Normalized(g)
    ensures f == g
  {
  }

  /** With a canonical entry, an exhausted worklist has explored everything on every import chain. */
  lemma {:induction false} ExhaustedHoldsChain(files: set<string>, imports: string -> seq<string>, entry: string,
                                               visited: seq<string>, done: seq<string>, p: seq<string>)
    requires Progress(files, imports, entry, [], visited, done) && IsCanonical(files, entry)
    requires IsChain(files, imports, p) && p[0] == entry
    ensures p[|p| - 1] in done
    decreases |p|
  {
    var n := |p| - 1;
    if n > 0 {
      assert IsChain(files, imports, p[..n]);
      ExhaustedHoldsChain(files, imports, entry, visited, done, p[..n]);
      assert Imports(files, imports, p[n - 1], p[n]);
      var t :| t in imports(p[n - 1]) && Resolved(files, t) == Some(p[n]);
      ResolvedIsCanonical(files, t);
    }
    assert Normalized(p[n]) in visited;
    var k :| 0 <= k < |visited| && visited[k] == Normalized(p[n]);
    assert done[k] in done;
    CanonicalIsUnique(files, done[k], p[n]);
  }

  function NamedAll(files: set<string>, visited: seq<string>): (r: seq<string>)
    ensures |r| == |visited|
  {
    seq(|visited|, i requires 0 <= i < |visited| => Named(files, visited[i]))
  }

  ghost predicate IsExact(files: set<string>, imports: string -> seq<string>, entry: string, result: seq<string>) {
    forall f :: f in result <==> Reaches(files, imports, entry, f)
  }

  lemma ExactForCanonicalEntry(files: set<string>, imports: string -> seq<string>, entry: string,
                               visited: seq<string>, done: seq<string>)
    requires Progress(files, imports, entry, [], visited, done) && IsCanonical(files, entry)
    ensures IsExact(files, imports, entry, NamedAll(files, visited))
  {
    var r := NamedAll(files, visited);
    forall i | 0 <= i < |done|
      ensures r[i] == done[i]
    {
      assert done[i] in done;
    }
    assert r == done;
    forall f | Reaches(files, imports, entry, f)
      ensures f in done
    {
      var p :| IsChain(files, imports, p) && p[0] == entry && p[|p| - 1] == f;
      ExhaustedHoldsChain(files, imports, entry, visited, done, p);
    }
  }

  /** Otherwise the entry itself is missing from the result. */
  lemma InexactOtherwise(files: set<string>, imports: string -> seq<string>, entry: string,
                         visited: seq<string>, done: seq<string>)
    requires Progress(files, imports, entry, [], visited, done) && !IsCanonical(files, entry)
    ensures entry !in NamedAll(files, visited) && Reaches(files, imports, entry, entry)
  {
    ReachesEntry(files, imports, entry);
    forall i | 0 <= i < |visited|
      ensures Named(files, visited[i]) != entry
    {
      NotTheEntry(files, entry, done[i]);
    }
  }

  lemma NotTheEntry(files: set<string>, entry: string, f: string)
    requires !IsCanonical(files, entry) && (f == entry || IsCanonical(files, f))
    ensures Named(files, Normalized(f)) != entry
  {
  }

  /** The result is exactly the modules the entry reaches, if and only if the entry resolves to itself. */
  method ImportClosure(files: set<string>, imports: string -> seq<string>, entry: string) returns (result: seq<string>)
    ensures IsExact(files, imports, entry, result) <==> IsCanonical(files, entry)
    ensures IsCanonical(files, entry) ==> Distinct(result)
  {
    var pending, visited := [entry], [];
    ghost var done: seq<string> := [];
    ReachesEntry(files, imports, entry);
    while pending != []
      invariant Progress(files, imports, entry, pending, visited, done)
      decreases Universe(files, entry) - Elements(visited), |pending|
    {
      var file := pending[|pending| - 1];
      assert pending == pending[..|pending| - 1] + [file];
      pending := pending[..|pending| - 1];
      var normalized := Normalized(file);
      if normalized !in visited {
        Shrinks(files, entry, visited, file);
        pending, visited, done := Explore(files, imports, entry, file, pending, visited, done);
      }
    }
    result := NamedAll(files, visited);
    Exhausted(files, imports, entry, visited, done);
  }

  lemma Shrinks(files: set<string>, entry: string, visited: seq<string>, file: string)
    requires file in files + {entry} && Normalized(file) !in visited
    ensures Universe(files, entry) - Elements(visited + [Normalized(file)]) < Universe(files, entry) - Elements(visited)
  {
    assert Normalized(file) in Universe(files, entry) && Normalized(file) !in Elements(visited);
    assert Elements(visited + [Normalized(file)]) == Elements(visited) + {Normalized(file)};
  }

  lemma Exhausted(files: set<string>, imports: string -> seq<string>, entry: string, visited: seq<string>,
                  done: seq<string>)
    requires Progress(files, imports, entry, [], visited, done)
    ensures IsExact(files, imports, entry, NamedAll(files, visited)) <==> IsCanonical(files, entry)
    ensures IsCanonical(files, entry) ==> Distinct(NamedAll(files, visited))
  {
    if IsCanonical(files, entry) {
      ExactForCanonicalEntry(files, imports, entry, visited, done);
      DistinctNames(files, imports, entry, visited, done);
    } else {
      InexactOtherwise(files, imports, entry, visited, done);
    }
  }

  lemma DistinctNames(files: set<string>, imports: string -> seq<string>, entry: string, visited: seq<string>,
                      done: seq<string>)
    requires Progress(files, imports, entry, [], visited, done) && IsCanonical(files, entry)
    ensures Distinct(NamedAll(files, visited))
  {
    forall i, j | 0 <= i < j < |visited|
      ensures Named(files, visited[i]) != Named(files, visited[j])
    {
      assert done[i] in done && done[j] in done && visited[i] != visited[j];
    }
  }

  /** The body of the loop for a module not visited before. */
  method Explore(files: set<string>, imports: string -> seq<string>, ghost entry: string, file: string,
                 pending: seq<string>, visited: seq<string>, ghost done: seq<string>)
    returns (pending': seq<string>, visited': seq<string>, ghost done': seq<string>)
    requires Progress(files, imports, entry, pending + [file], visited, done) && Normalized(file) !in visited
    ensures visited' == visited + [Normalized(file)] && Progress(files, imports, entry, pending', visited', done')
  {
    visited', done' := visited + [Normalized(file)], done + [file];
    pending' := PushTargets(files, imports(file), pending);
    ExploreKeeps(files, imports, entry, file, pending, visited, done);
  }

  /** The inner loop: every import that resolves is pushed, in order. */
  method PushTargets(files: set<string>, targets: seq<string>, pending: seq<string>) returns (pending': seq<string>)
    ensures pending' == pending + Pushed(files, targets)
  {
    pending' := pending;
    for i := 0 to |targets|
      invariant pending' == pending + Pushed(files, targets[..i])
    {
      assert targets[..i + 1][..i] == targets[..i];
      var target := Resolved(files, targets[i]);
      if target.Some? {
        pending' := pending' + [target.value];
      }
    }
    assert targets[..|targets|] == targets;
  }

  lemma ExploreKeeps(files: set<string>, imports: string -> seq<string>, entry: string, file: string,
                     pending: seq<string>, visited: seq<string>, done: seq<string>)
    requires Progress(files, imports, entry, pending + [file], visited, done) && Normalized(file) !in visited
    ensures Progress(files, imports, entry, pending + Pushed(files, imports(file)), visited + [Normalized(file)],
                     done + [file])
  {
    var next := pending + Pushed(files, imports(file));
    assert file in pending + [file];
    forall g | g in Pushed(files, imports(file))
      ensures g in files && IsCanonical(files, g) && Reaches(files, imports, entry, g)
    {
      var t :| t in imports(file) && Resolved(files, t) == Some(g);
      ResolvedIsCanonical(files, t);
      ResolvedExists(files, t);
      assert Imports(files, imports, file, g);
      ReachesImport(files, imports, entry, file, g);
    }
    forall f, g | f in done + [file] && Imports(files, imports, f, g)
      ensures Normalized(g) in visited + [Normalized(file)] || g in next
    {
      if f in done {
        assert Normalized(g) in visited || g in pending + [file];
      }
    }
  }

  /** A JavaScript entry beside a TypeScript file of the same name is not resolved to itself. */
  lemma SiblingIsMistaken()
    ensures !IsCanonical({"/src/a.ts", "/src/a.js"}, "/src/a.js")
  {
    assert "/src/a" + ".js" == "/src/a.js" && "/src/a" + ".ts" == "/src/a.ts";
    Stripped("/src/a", ".js");
  }
}
