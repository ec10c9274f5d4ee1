/** File dependency graphs and the depth-first cycle search:
    crates/csilgen-core/src/dependency.rs. */
module Dependency {
  import opened Bytes

  type File = string

  type Imports = map<File, seq<File>>

  predicate Edge(deps: Imports, x: File, y: File) {
    x in deps && y in deps[x]
  }

  /** A non-empty list of files, each importing the next. */
  predicate Walk(deps: Imports, p: seq<File>) {
    p != [] && forall i :: 0 <= i < |p| - 1 ==> Edge(deps, p[i], p[i + 1])
  }

  /** A walk that comes back to where it started. */
  predicate IsCycle(deps: Imports, c: seq<File>) {
    |c| >= 2 && Walk(deps, c) && c[0] == c[|c| - 1]
  }

  /** Every importer and import is one of the files. */
  ghost predicate Closed(deps: Imports, all: set<File>) {
    deps.Keys <= all && forall x, y :: Edge(deps, x, y) ==> y in all
  }

  // ---- building the graph ----------------------------------------------------------------------------

  class FileDependencyGraph {
    var dependencies: Imports
    var reverse: Imports
    var allFiles: set<File>

    constructor ()
      ensures dependencies == map[] && reverse == map[] && allFiles == {}
    {
      dependencies, reverse, allFiles := map[], map[], {};
    }

    /** `reverse` lists, for each imported file, exactly the files that import it. */
    ghost predicate Valid()
      reads this
    {
      && Closed(dependencies, allFiles)
      && (forall x, y :: Edge(dependencies, x, y) <==> Edge(reverse, y, x))
      && forall y :: y in reverse ==> reverse[y] != []
    }

    /** `scan` stands for reading a file's imports and resolving their paths; it may fail. */
    static method BuildFromFiles(files: seq<File>, scan: File -> Option<seq<File>>)
        returns (graph: Option<FileDependencyGraph>)
      ensures graph.None? <==> exists f :: f in files && scan(f) == None
      ensures graph.Some? ==>
                && fresh(graph.value) && graph.value.Valid()
                && graph.value.allFiles == (set f | f in files)
                && graph.value.dependencies.Keys == graph.value.allFiles
                && forall f :: f in files ==> graph.value.dependencies[f] == Known(scan(f).value, graph.value.allFiles)
    {
      var g := new FileDependencyGraph();
      g.allFiles := set f | f in files;
      for i := 0 to |files|
        invariant forall f :: f in files[..i] ==> scan(f).Some?
        invariant g.allFiles == (set f | f in files)
        invariant g.Valid() && g.dependencies.Keys == (set f | f in files[..i])
        invariant forall f :: f in files[..i] ==> g.dependencies[f] == Known(scan(f).value, g.allFiles)
      {
        var file := files[i];
        assert files[..i + 1] == files[..i] + [file];
        var imports := scan(file);
        if imports == None {
          return None;
        }
        var valid := Known(imports.value, g.allFiles);
        KnownMembers(imports.value, g.allFiles);
        g.AddImports(file, valid);
      }
      assert files[..|files|] == files;
      graph := Some(g);
    }

    /** Scanning a file again gives the same list, so listing a file twice changes nothing but
        how often it appears among the importers. */
    method AddImports(file: File, valid: seq<File>)
      requires Valid() && file in allFiles && forall y :: y in valid ==> y in allFiles
      requires file in dependencies ==> dependencies[file] == valid
      modifies this`dependencies, this`reverse
      ensures Valid() && dependencies == old(dependencies)[file := valid]
    {
      dependencies := dependencies[file := valid];
      for k := 0 to |valid|
        invariant dependencies == old(dependencies)[file := valid]
        invariant forall y :: y in reverse ==> reverse[y] != []
        invariant forall x, y ::
            Edge(reverse, y, x) <==> Edge(old(dependencies), x, y) || (x == file && y in valid[..k])
      {
        var y := valid[k];
        var importers := if y in reverse then reverse[y] else [];
        ghost var before := reverse;
        reverse := reverse[y := importers + [file]];
        assert forall x, z :: Edge(reverse, z, x) <==> Edge(before, z, x) || (z == y && x == file);
        assert valid[..k + 1] == valid[..k] + [y];
      }
      assert valid[..|valid|] == valid;
      assert forall x, y ::
          Edge(dependencies, x, y) <==> if x == file then y in valid else Edge(old(dependencies), x, y);
    }

    /** Files nobody imports. */
    function EntryPoints(): set<File>
      reads this
    {
      set f | f in allFiles && f !in reverse
    }
  }

  function Known(imports: seq<File>, all: set<File>): seq<File> {
    if imports == [] then []
    else (if imports[0] in all then [imports[0]] else []) + Known(imports[1..], all)
  }

  lemma {:induction false} KnownMembers(imports: seq<File>, all: set<File>)
    ensures forall y :: y in Known(imports, all) <==> y in imports && y in all
  {
    if imports != [] {
      KnownMembers(imports[1..], all);
      assert imports == [imports[0]] + imports[1..];
    }
  }

  // ---- depth-first search -----------------------------------------------------------------------------

  /** A list in which every file comes after all it imports, each once: no cycle passes through it. */
  ghost predicate Settled(deps: Imports, done: seq<File>) {
    && (forall i, j :: 0 <= i < j < |done| ==> done[i] != done[j])
    && forall i, y :: 0 <= i < |done| && Edge(deps, done[i], y) ==> y in done[..i]
  }

  /** One run of the search: `visited` and `onStack` as in the source, `path` the files being
      visited, outermost first, and `done` those already left. */
  class CycleSearch {
    const deps: Imports
    ghost const all: set<File>
    var visited: set<File>
    var onStack: set<File>
    var path: seq<File>
    ghost var done: seq<File>

    constructor (deps: Imports, ghost all: set<File>)
      requires Closed(deps, all)
      ensures Valid() && this.deps == deps && this.all == all && path == [] && done == []
    {
      this.deps, this.all := deps, all;
      visited, onStack, path, done := {}, {}, [], [];
    }

    ghost predicate Valid()
      reads this
    {
      && Closed(deps, all) && visited <= all
      && onStack == (set f | f in path)
      && visited == onStack + (set f | f in done)
      && onStack !! (set f | f in done)
      && Settled(deps, done)
      && (path != [] ==> Walk(deps, path))
    }

    method Visit(node: File) returns (cycle: Option<seq<File>>)
      requires Valid() && node in all
      requires path != [] ==> Edge(deps, path[|path| - 1], node)
      modifies this
      ensures cycle.Some? ==> IsCycle(deps, cycle.value)
      ensures cycle.None? ==>
                && Valid() && path == old(path) && onStack == old(onStack)
                && old(done) <= done && node in done && old(visited) <= visited
      decreases all - visited
    {
      if node in onStack {
        var start := Position(path, node);
        CycleFound(deps, path, start, node);
        return Some(path[start..] + [node]);
      }
      if node in visited {
        return None;
      }
      visited := visited + {node};
      onStack := onStack + {node};
      path := path + [node];
      var imports := if node in deps then deps[node] else [];
      for i := 0 to |imports|
        invariant Valid() && path == old(path) + [node] && onStack == old(onStack) + {node}
        invariant old(done) <= done && old(visited) + {node} <= visited
        invariant forall y :: y in imports[..i] ==> y in done
      {
        assert Edge(deps, node, imports[i]);
        cycle := Visit(imports[i]);
        if cycle.Some? {
          return cycle;
        }
        assert imports[..i + 1] == imports[..i] + [imports[i]];
      }
      assert imports[..|imports|] == imports;
      onStack := onStack - {node};
      path := path[..|path| - 1];
      assert path == old(path);
      SettleOne(deps, done, node);
      done := done + [node];
      return None;
    }
  }

  method Position(path: seq<File>, node: File) returns (i: nat)
    requires node in path
    ensures i < |path| && path[i] == node && node !in path[..i]
  {
    i := 0;
    while path[i] != node
      invariant i < |path| && node !in path[..i]
      decreases |path| - i
    {
      i := i + 1;
    }
  }

  lemma CycleFound(deps: Imports, path: seq<File>, start: nat, node: File)
    requires start < |path| && path[start] == node && Walk(deps, path) && Edge(deps, path[|path| - 1], node)
    ensures IsCycle(deps, path[start..] + [node])
  {
    var c := path[start..] + [node];
    forall i | 0 <= i < |c| - 1 ensures Edge(deps, c[i], c[i + 1]) {
      if i < |c| - 2 {
        assert Edge(deps, path[start + i], path[start + i + 1]);
      }
    }
  }

  lemma SettleOne(deps: Imports, done: seq<File>, node: File)
    requires Settled(deps, done) && node !in done
    requires forall y :: Edge(deps, node, y) ==> y in done
    ensures Settled(deps, done + [node])
  {
    var more := done + [node];
    forall i, y | 0 <= i < |more| && Edge(deps, more[i], y) ensures y in more[..i] {
      assert more[..i] == done[..i];
    }
  }

  /** Inside a settled list, walking along imports moves towards its front. */
  lemma {:induction false} WalksDescend(deps: Imports, done: seq<File>, p: seq<File>, i: nat) returns (j: nat)
    requires Settled(deps, done) && Walk(deps, p) && i < |done| && done[i] == p[0]
    ensures j + |p| - 1 <= i && done[j] == p[|p| - 1]
    decreases |p|
  {
    if |p| == 1 {
      j := i;
    } else {
      assert Edge(deps, p[0], p[1]);
      var k :| 0 <= k < i && done[k] == p[1];
      forall n | 0 <= n < |p[1..]| - 1 ensures Edge(deps, p[1..][n], p[1..][n + 1]) {
        assert Edge(deps, p[n + 1], p[n + 2]);
      }
      j := WalksDescend(deps, done, p[1..], k);
    }
  }

  lemma NoCycleThrough(deps: Imports, done: seq<File>, c: seq<File>)
    requires Settled(deps, done) && IsCycle(deps, c)
    ensures c[0] !in done
  {
    if c[0] in done {
      var i :| 0 <= i < |done| && done[i] == c[0];
      var _ := WalksDescend(deps, done, c, i);
    }
  }

  /** Searches from every file, in any order. It ends, and returns a path exactly when some
      import cycle exists; the path is such a cycle. */
  method HasCircularDependencies(deps: Imports, all: set<File>) returns (cycle: Option<seq<File>>)
    requires Closed(deps, all)
    ensures cycle.Some? ==> IsCycle(deps, cycle.value)
    ensures cycle.Some? <==> exists c :: IsCycle(deps, c)
  {
    var rest := all;
    forall c | IsCycle(deps, c) ensures c[0] in all {
      assert Edge(deps, c[0], c[1]);
    }
    while rest != {}
      invariant rest <= all
      invariant forall c :: IsCycle(deps, c) ==> c[0] in rest
      decreases rest
    {
      var file :| file in rest;
      var search := new CycleSearch(deps, all);
      cycle := search.Visit(file);
      if cycle.Some? {
        return cycle;
      }
      forall c | IsCycle(deps, c) ensures c[0] != file {
        NoCycleThrough(deps, search.done, c);
      }
      rest := rest - {file};
    }
    cycle := None;
  }

  // ---- entry points -----------------------------------------------------------------------------------

  predicate Distinct(p: seq<File>) {
    forall i, j :: 0 <= i < j < |p| ==> p[i] != p[j]
  }

  lemma {:induction false} DistinctFits(p: seq<File>, all: set<File>)
    requires Distinct(p) && forall f :: f in p ==> f in all
    ensures |p| <= |all|
    decreases |p|
  {
    if p != [] {
      assert p[0] in p && p[0] !in p[1..];
      DistinctFits(p[1..], all - {p[0]});
    }
  }

  /** In an acyclic graph a walk never meets an importer of its first file. */
  lemma ImporterIsNew(deps: Imports, p: seq<File>, x: File)
    requires Walk(deps, p) && Edge(deps, x, p[0]) && forall c :: !IsCycle(deps, c)
    ensures x !in p
  {
    if x in p {
      var i :| 0 <= i < |p| && p[i] == x;
      CycleBack(deps, p, x, i);
    }
  }

  lemma CycleBack(deps: Imports, p: seq<File>, x: File, i: nat)
    requires Walk(deps, p) && Edge(deps, x, p[0]) && i < |p| && p[i] == x
    ensures IsCycle(deps, [x] + p[..i + 1])
  {
  }

  /** Following importers backwards from any file of an acyclic graph ends at a file nobody
      imports. */
  lemma {:induction false} ReachedFromEntry(deps: Imports, all: set<File>, p: seq<File>) returns (q: seq<File>)
    requires Closed(deps, all) && forall c :: !IsCycle(deps, c)
    requires Walk(deps, p) && Distinct(p) && forall f :: f in p ==> f in all
    ensures Walk(deps, q) && q[0] in all && q[|q| - 1] == p[|p| - 1]
    ensures forall x :: !Edge(deps, x, q[0])
    decreases |all| - |p|
  {
    if x :| Edge(deps, x, p[0]) {
      ImporterIsNew(deps, p, x);
      var longer := [x] + p;
      DistinctFits(longer, all);
      q := ReachedFromEntry(deps, all, longer);
    } else {
      q := p;
      assert p[0] in p;
    }
  }

  /** Without a cycle every file is reached from an entry point, so there is one if there are
      files at all. */
  lemma EveryFileHasAnEntryPoint(graph: FileDependencyGraph, f: File) returns (walk: seq<File>)
    requires graph.Valid() && f in graph.allFiles
    requires forall c :: !IsCycle(graph.dependencies, c)
    ensures Walk(graph.dependencies, walk) && walk[0] in graph.EntryPoints() && walk[|walk| - 1] == f
    ensures forall x :: !Edge(graph.dependencies, x, walk[0])
  {
    walk := ReachedFromEntry(graph.dependencies, graph.allFiles, [f]);
    if walk[0] in graph.reverse {
      ReverseNamesImporter(graph, walk[0]);
    }
    EntryPointsExactly(graph, walk[0]);
  }

  /** An entry point is a file that no file imports. */
  lemma EntryPointsExactly(graph: FileDependencyGraph, f: File)
    requires graph.Valid()
    ensures f in graph.EntryPoints() <==> f in graph.allFiles && forall x :: !Edge(graph.dependencies, x, f)
  {
    if f in graph.reverse {
      ReverseNamesImporter(graph, f);
    } else {
      assert forall x :: !Edge(graph.reverse, f, x);
    }
  }

  lemma ReverseNamesImporter(graph: FileDependencyGraph, f: File)
    requires graph.Valid() && f in graph.reverse
    ensures Edge(graph.dependencies, graph.reverse[f][0], f)
  {
    assert Edge(graph.reverse, f, graph.reverse[f][0]);
  }
}
