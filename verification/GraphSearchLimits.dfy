/**
 * What the depth cut of the search loses. A file first met on a long path is marked visited at a deep
 * level, so a shorter path to it found later no longer helps its own imports.
 */
module GraphSearchLimits {
  import opened Options
  import opened GraphSearch

  // ── A family of graphs: a chain of d + 2 files with one short cut ─────────

  /** No file name is a prefix of another, so a prefix search finds exactly the named file. */
  ghost predicate PrefixFree(name: nat -> File) {
    (forall i :: name(i) != "") && forall i, j :: name(i) <= name(j) ==> i == j
  }

  lemma Different(name: nat -> File, i: nat, j: nat)
    requires PrefixFree(name) && i != j
    ensures name(i) != name(j)
  {
    assert !(name(i) <= name(j));
    assert name(i) <= name(i);
  }

  function Spec(name: nat -> File, i: nat): string {
    "." + name(i)
  }

  /** File i imports file i + 1, file 0 also imports file d, and file d + 1 imports nothing. */
  function SpecsOf(name: nat -> File, d: nat, i: nat): seq<string> {
    if i == 0 then [Spec(name, 1), Spec(name, d)] else if i <= d then [Spec(name, i + 1)] else []
  }

  function SpecMap(name: nat -> File, d: nat, n: nat): map<File, seq<string>> {
    if n == 0 then map[] else SpecMap(name, d, n - 1)[name(n - 1) := SpecsOf(name, d, n - 1)]
  }

  lemma {:induction false} SpecMapAt(name: nat -> File, d: nat, n: nat, i: nat)
    requires PrefixFree(name) && i < n
    ensures name(i) in SpecMap(name, d, n) && SpecMap(name, d, n)[name(i)] == SpecsOf(name, d, i)
  {
    if i < n - 1 {
      SpecMapAt(name, d, n - 1, i);
      Different(name, i, n - 1);
    }
  }

  /** Files 0 .. n - 1 visited in order, each one level deeper. */
  function Descent(name: nat -> File, n: nat): (order: seq<Visit>)
    ensures |order| == n && forall i :: 0 <= i < n ==> order[i] == Visit(name(i), i)
  {
    seq(n, i requires 0 <= i < n => Visit(name(i), i))
  }

  /**
   * The chain. A file of the root directory is imported as "." followed by its name, "./az" for "/az";
   * dropping the dot is what path.resolve makes of such a specifier in such a file.
   */
  function Chain(name: nat -> File, d: nat): Graph {
    Graph(Files(Descent(name, d + 2)), SpecMap(name, d, d + 2),
          (from: File, dep: string) => if dep == "" then "" else dep[1..])
  }

  /** All the search needs to know of the chain. */
  ghost predicate IsChain(g: Graph, name: nat -> File, d: nat) {
    && (forall i {:trigger Deps(g, name(i))} :: 0 <= i <= d + 1 ==> Deps(g, name(i)) == SpecsOf(name, d, i))
    && (forall i, j {:trigger Target(g, name(i), Spec(name, j))} :: 0 <= i <= d + 1 && 0 <= j <= d + 1 ==>
       Target(g, name(i), Spec(name, j)) == Some(name(j)))
  }

  lemma FindName(name: nat -> File, files: seq<File>, j: nat)
    requires PrefixFree(name) && j < |files| && forall i :: 0 <= i < |files| ==> files[i] == name(i)
    ensures FindPrefix(files, name(j)) == Some(name(j))
  {
    var r := FindPrefix(files, name(j));
    FindPrefixFinds(files, name(j));
    assert files[j] in files && name(j) <= files[j];
    var k :| 0 <= k < |files| && files[k] == r.value;
    assert name(j) <= name(k);
  }

  lemma ChainTarget(name: nat -> File, d: nat, from: File, j: nat)
    requires PrefixFree(name) && j <= d + 1
    ensures Target(Chain(name, d), from, Spec(name, j)) == Some(name(j))
  {
    var g, dep := Chain(name, d), Spec(name, j);
    assert "." <= dep && dep[1..] == name(j);
    assert g.resolvePath(from, dep) == name(j);
    FindName(name, g.files, j);
  }

  lemma ChainIsChain(name: nat -> File, d: nat)
    requires PrefixFree(name)
    ensures IsChain(Chain(name, d), name, d)
  {
    var g := Chain(name, d);
    forall i: nat | i <= d + 1 ensures Deps(g, name(i)) == SpecsOf(name, d, i) { SpecMapAt(name, d, d + 2, i); }
    forall i: nat, j: nat | i <= d + 1 && j <= d + 1 ensures Target(g, name(i), Spec(name, j)) == Some(name(j)) {
      ChainTarget(name, d, name(i), j);
    }
  }

  // ── The search on the chain ───────────────────────────────────────────────

  lemma InDescent(name: nat -> File, n: nat, i: nat)
    requires PrefixFree(name)
    ensures Visited(Descent(name, n), name(i)) <==> i < n
  {
    if i < n { assert Descent(name, n)[i].file == name(i); }
    if Visited(Descent(name, n), name(i)) {
      var k :| 0 <= k < n && Descent(name, n)[k].file == name(i);
      assert name(k) <= name(i);
    }
  }

  lemma OneDep(g: Graph, depth: int, order: seq<Visit>, from: File, dep: string, level: nat)
    requires Target(g, from, dep).Some?
    ensures DfsDeps(g, depth, order, from, [dep], level) == Dfs(g, depth, order, Target(g, from, dep).value, level)
  {
    assert [dep][1..] == [];
  }

  /** A new file with one import: the search goes one file further down. */
  lemma DescendOnce(g: Graph, name: nat -> File, d: nat, i: nat)
    requires PrefixFree(name) && IsChain(g, name, d) && 1 <= i <= d
    ensures Dfs(g, d, Descent(name, i), name(i), i) == Dfs(g, d, Descent(name, i + 1), name(i + 1), i + 1)
  {
    InDescent(name, i, i);
    assert Descent(name, i) + [Visit(name(i), i)] == Descent(name, i + 1);
    assert Deps(g, name(i)) == [Spec(name, i + 1)];
    assert Target(g, name(i), Spec(name, i + 1)) == Some(name(i + 1));
    OneDep(g, d, Descent(name, i + 1), name(i), Spec(name, i + 1), i + 1);
  }

  lemma {:induction false} SearchDescends(g: Graph, name: nat -> File, d: nat, i: nat)
    requires PrefixFree(name) && IsChain(g, name, d) && 1 <= i <= d + 1
    ensures Dfs(g, d, Descent(name, i), name(i), i) == Descent(name, d + 1)
    decreases d + 1 - i
  {
    if i <= d {
      DescendOnce(g, name, d, i);
      SearchDescends(g, name, d, i + 1);
    }
  }

  lemma SearchFromEntry(g: Graph, name: nat -> File, d: nat)
    requires PrefixFree(name) && IsChain(g, name, d)
    ensures Dfs(g, d, [], name(0), 0) == Descent(name, d + 1)
  {
    assert [] + [Visit(name(0), 0)] == Descent(name, 1);
    assert Target(g, name(0), Spec(name, 1)) == Some(name(1)) && Target(g, name(0), Spec(name, d)) == Some(name(d));
    assert SpecsOf(name, d, 0)[1..] == [Spec(name, d)];
    OneDep(g, d, Descent(name, d + 1), name(0), Spec(name, d), 1);
    if d > 0 {
      SearchDescends(g, name, d, 1);
      InDescent(name, d + 1, d);
    }
  }

  /** On the chain the search visits files 0 .. d and misses file d + 1. */
  lemma SearchMissesLast(name: nat -> File, d: nat)
    requires PrefixFree(name)
    ensures GetRelatedFiles(Chain(name, d), name(0), d) == Files(Descent(name, d + 1))
    ensures name(d + 1) !in GetRelatedFiles(Chain(name, d), name(0), d)
  {
    ChainIsChain(name, d);
    SearchFromEntry(Chain(name, d), name, d);
    InDescent(name, d + 1, d + 1);
    InFiles(Descent(name, d + 1), name(d + 1));
  }

  lemma ImportsBySpec(g: Graph, name: nat -> File, d: nat, i: nat, k: nat, j: nat)
    requires IsChain(g, name, d) && i <= d + 1 && j <= d + 1 && k < |SpecsOf(name, d, i)|
              && SpecsOf(name, d, i)[k] == Spec(name, j)
    ensures Imports(g, name(i), name(j))
  {
    assert Target(g, name(i), Deps(g, name(i))[k]) == Some(name(j));
  }

  lemma ChainReach(name: nat -> File, d: nat)
    requires PrefixFree(name)
    ensures Reachable(Chain(name, d), name(0), name(d + 1))
    ensures d > 1 ==> WithinHops(Chain(name, d), name(0), name(d + 1), d)
  {
    var g := Chain(name, d);
    ChainIsChain(name, d);
    assert Path(g, name(0), name(0), 0);
    if d > 0 {
      ImportsBySpec(g, name, d, 0, 1, d);
      ImportsBySpec(g, name, d, d, 0, d + 1);
      assert Path(g, name(0), name(d), 1);
      assert Path(g, name(0), name(d + 1), 2);
    } else {
      ImportsBySpec(g, name, d, 0, 0, 1);
      assert Path(g, name(0), name(1), 1);
    }
  }

  lemma ChainSize(name: nat -> File, d: nat)
    requires PrefixFree(name)
    ensures |AllFiles(Chain(name, d), name(0))| == d + 2
  {
    var order := Descent(name, d + 2);
    forall i, j | 0 <= i < j < |order| ensures order[i].file != order[j].file {
      Different(name, i, j);
    }
    DistinctCount(order);
    forall f ensures f in AllFiles(Chain(name, d), name(0)) <==> f in FileSet(order) { InFiles(order, f); }
    assert AllFiles(Chain(name, d), name(0)) == FileSet(order);
  }

  // ── Results ───────────────────────────────────────────────────────────────

  /** Files of the root directory: "/z", "/az", "/aaz", ... */
  function Name(i: nat): File {
    "/" + seq(i, _ => 'a') + "z"
  }

  lemma NamesArePrefixFree()
    ensures PrefixFree(Name)
  {
    forall i: nat, j: nat | Name(i) <= Name(j) ensures i == j {
      assert Name(i)[i + 1] == 'z' && Name(j)[i + 1] == Name(i)[i + 1];
    }
  }

  /** The bound of CompleteWhenDeepEnough is tight: one level less, and a reachable file can be missed. */
  lemma DepthBoundIsTight(d: nat)
    ensures d == |AllFiles(Chain(Name, d), Name(0))| - 2
    ensures Reachable(Chain(Name, d), Name(0), Name(d + 1))
              && Name(d + 1) !in GetRelatedFiles(Chain(Name, d), Name(0), d)
  {
    NamesArePrefixFree();
    SearchMissesLast(Name, d);
    ChainReach(Name, d);
    ChainSize(Name, d);
  }

  ghost predicate ReturnsAllWithinHops(g: Graph, entry: File, depth: int) {
    forall f :: WithinHops(g, entry, f, depth) ==> f in GetRelatedFiles(g, entry, depth)
  }

  lemma EntryIsFirst(g: Graph, entry: File, depth: int)
    requires depth >= 0
    ensures var order := Dfs(g, depth, [], entry, 0); order != [] && order[0] == Visit(entry, 0)
  {
    Entered([], Visit(entry, 0));
    DepsGrow(g, depth, [] + [Visit(entry, 0)], entry, Deps(g, entry), 1);
  }

  lemma ShallowReturnsAll(g: Graph, entry: File, depth: int)
    requires depth <= 1
    ensures ReturnsAllWithinHops(g, entry, depth)
  {
    BoundedSearch(g, entry, depth);
    var order := Dfs(g, depth, [], entry, 0);
    forall f | WithinHops(g, entry, f, depth) ensures f in GetRelatedFiles(g, entry, depth) {
      InFiles(order, f);
      var n: nat :| n <= depth && Path(g, entry, f, n);
      if n == 1 {
        var mid :| Path(g, entry, mid, 0) && Imports(g, mid, f);
        EntryIsFirst(g, entry, depth);
      }
    }
  }

  /**
   * The search returns every file within `depth` imports, on every graph, if and only if `depth` is at
   * most 1; the default depth of 2 already misses some.
   */
  lemma AllWithinHopsIff(depth: int)
    ensures (forall g: Graph, entry: File :: ReturnsAllWithinHops(g, entry, depth)) <==> depth <= 1
  {
    if depth <= 1 {
      forall g: Graph, entry: File ensures ReturnsAllWithinHops(g, entry, depth) { ShallowReturnsAll(g, entry, depth); }
    } else {
      NamesArePrefixFree();
      SearchMissesLast(Name, depth);
      ChainReach(Name, depth);
      assert !ReturnsAllWithinHops(Chain(Name, depth), Name(0), depth);
    }
  }
}
